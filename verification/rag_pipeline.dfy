/** The pure steps of the ingestion and answer pipeline of the service: resolving the document
    id, stamping page and chunk metadata, joining retrieved passages, and the prompt text.
    The PDF loader, the text splitter, the vector-store upsert and the models are parameters. */
module RagPipeline {
  import opened Wrappers
  import opened Strings

  /** A metadata value as LangChain documents carry it. */
  datatype Value = Str(s: string) | Int(i: int) | Null

  type Metadata = map<string, Value>

  /** A LangChain `Document`: a page from the loader or a chunk from the splitter. */
  datatype Doc = Doc(content: string, metadata: Metadata)

  const DocIdKey: string := "doc_id"
  const PageNumberKey: string := "page_number"
  /** The loader's own page field. */
  const PageKey: string := "page"
  const ContextSeparator: string := "\n\n"

  datatype IngestError = LoadFailed | UpsertFailed

  /** What a successful ingestion produced: the returned id, the stamped pages and the
      chunks handed to the vector store. */
  datatype Ingested = Ingested(documentId: string, pages: seq<Doc>, chunks: seq<Doc>)

  /** `doc_id or str(uuid.uuid4())`: the caller's id unless it is `None` or empty. */
  function ResolveDocId(docId: Option<string>, freshId: string): (id: string)
    ensures docId.Some? && docId.value != "" ==> id == docId.value
    ensures docId.None? || docId.value == "" ==> id == freshId
    ensures freshId != "" ==> id != ""
  {
    if docId.Some? && docId.value != "" then docId.value else freshId
  }

  /** One turn of the page loop: set `doc_id`, then `page_number` from the loader's `page`
      field, falling back to the 1-based `position`. */
  function StampPage(page: Doc, documentId: string, position: nat): Doc
  {
    var withId := page.metadata[DocIdKey := Str(documentId)];
    var pageNumber := if PageKey in withId then withId[PageKey] else Int(position);
    Doc(page.content, withId[PageNumberKey := pageNumber])
  }

  /** The page loop of `ingest_pdf`. */
  function StampPages(pages: seq<Doc>, documentId: string): (stamped: seq<Doc>)
    ensures |stamped| == |pages|
    ensures forall i :: 0 <= i < |pages| ==> stamped[i].content == pages[i].content
    ensures forall i :: 0 <= i < |pages| ==>
      stamped[i].metadata.Keys == pages[i].metadata.Keys + {DocIdKey, PageNumberKey}
    ensures forall i :: 0 <= i < |pages| ==> stamped[i].metadata[DocIdKey] == Str(documentId)
    ensures forall i :: 0 <= i < |pages| ==>
      stamped[i].metadata[PageNumberKey] ==
        if PageKey in pages[i].metadata then pages[i].metadata[PageKey] else Int(i + 1)
    ensures forall i, k :: 0 <= i < |pages| && k in pages[i].metadata && k != DocIdKey && k != PageNumberKey ==>
      stamped[i].metadata[k] == pages[i].metadata[k]
  {
    seq(|pages|, i requires 0 <= i < |pages| => StampPage(pages[i], documentId, i + 1))
  }

  /** `chunk.metadata.setdefault("doc_id", document_id)` on every chunk. */
  function RestampChunks(chunks: seq<Doc>, documentId: string): (restamped: seq<Doc>)
    ensures |restamped| == |chunks|
    ensures forall j :: 0 <= j < |chunks| ==> restamped[j].content == chunks[j].content
    ensures forall j :: 0 <= j < |chunks| ==> restamped[j].metadata.Keys == chunks[j].metadata.Keys + {DocIdKey}
    ensures forall j :: 0 <= j < |chunks| && DocIdKey in chunks[j].metadata ==>
      restamped[j].metadata == chunks[j].metadata
    ensures forall j :: 0 <= j < |chunks| && DocIdKey !in chunks[j].metadata ==>
      restamped[j].metadata[DocIdKey] == Str(documentId)
    ensures forall j, k :: 0 <= j < |chunks| && k in chunks[j].metadata ==>
      restamped[j].metadata[k] == chunks[j].metadata[k]
  {
    seq(|chunks|, j requires 0 <= j < |chunks| =>
      var c := chunks[j];
      if DocIdKey in c.metadata then c else Doc(c.content, c.metadata[DocIdKey := Str(documentId)]))
  }

  /** `ingest_pdf`: `loaded` is what the PDF loader returned (`None` when it raised), `split` the text splitter and
      `upsert` whether the vector-store write succeeded. Any failing step is re-raised. */
  function Ingest(docId: Option<string>, freshId: string, loaded: Option<seq<Doc>>,
                  split: seq<Doc> -> seq<Doc>, upsert: seq<Doc> -> bool): (r: Result<Ingested, IngestError>)
    ensures loaded.None? ==> r == Failure(LoadFailed)
    ensures r.Success? ==>
      && loaded.Some?
      && r.value.documentId == ResolveDocId(docId, freshId)
      && r.value.pages == StampPages(loaded.value, r.value.documentId)
      && r.value.chunks == RestampChunks(split(r.value.pages), r.value.documentId)
      && upsert(r.value.chunks)
    ensures r.Success? ==> forall j :: 0 <= j < |r.value.chunks| ==> DocIdKey in r.value.chunks[j].metadata
    ensures loaded.Some? && r.Failure? ==>
      var id := ResolveDocId(docId, freshId);
      r.error == UpsertFailed && !upsert(RestampChunks(split(StampPages(loaded.value, id)), id))
  {
    var id := ResolveDocId(docId, freshId);
    match loaded
    case None => Failure(LoadFailed)
    case Some(raw) =>
      var pages := StampPages(raw, id);
      var chunks := RestampChunks(split(pages), id);
      if upsert(chunks) then Success(Ingested(id, pages, chunks)) else Failure(UpsertFailed)
  }

  /** `m` holds every entry of `base`, with the same value. */
  predicate Extends(m: Metadata, base: Metadata)
  {
    forall k :: k in base ==> k in m && m[k] == base[k]
  }

  /** Every chunk carries the metadata of one of the pages, as LangChain splitters copy it. */
  predicate InheritsMetadata(chunks: seq<Doc>, pages: seq<Doc>)
  {
    forall j :: 0 <= j < |chunks| ==> exists i :: 0 <= i < |pages| && Extends(chunks[j].metadata, pages[i].metadata)
  }

  /** With a splitter that keeps page metadata, every stored chunk is tagged with the
      resolved document id and has a page number. */
  lemma IngestTagsEveryChunk(docId: Option<string>, freshId: string,
                              loaded: Option<seq<Doc>>,
                              split: seq<Doc> -> seq<Doc>, upsert: seq<Doc> -> bool)
    requires Ingest(docId, freshId, loaded, split, upsert).Success?
    requires var ing := Ingest(docId, freshId, loaded, split, upsert).value;
      InheritsMetadata(split(ing.pages), ing.pages)
    ensures var ing := Ingest(docId, freshId, loaded, split, upsert).value;
      forall j :: 0 <= j < |ing.chunks| ==>
        && ing.chunks[j].metadata[DocIdKey] == Str(ResolveDocId(docId, freshId))
        && PageNumberKey in ing.chunks[j].metadata
  {
  }

  function Contents(docs: seq<Doc>): (texts: seq<string>)
    ensures |texts| == |docs|
    ensures forall i :: 0 <= i < |docs| ==> texts[i] == docs[i].content
  {
    seq(|docs|, i requires 0 <= i < |docs| => docs[i].content)
  }

  /** `_format_docs`: the passages' texts in order, a blank line between neighbours. */
  function FormatDocs(docs: seq<Doc>): (context: string)
    ensures |docs| == 0 ==> context == ""
    ensures |docs| == 1 ==> context == docs[0].content
    ensures |docs| > 0 ==> |context| == TotalLength(Contents(docs)) + |ContextSeparator| * (|docs| - 1)
  {
    if |docs| > 0 then JoinLength(Contents(docs), ContextSeparator); Join(Contents(docs), ContextSeparator)
    else Join(Contents(docs), ContextSeparator)
  }

  /** Formatting two batches of passages is formatting each and putting a blank line between. */
  lemma FormatDocsAppend(a: seq<Doc>, b: seq<Doc>)
    requires |a| > 0 && |b| > 0
    ensures FormatDocs(a + b) == FormatDocs(a) + ContextSeparator + FormatDocs(b)
  {
    assert Contents(a + b) == Contents(a) + Contents(b);
    JoinAppend(Contents(a), Contents(b), ContextSeparator);
  }

  const DefaultSystemPrompt: string :=
    "You are a domain expert assistant that answers questions using the "
    + "provided context. If the answer is not contained in the context, "
    + "respond with 'I could not find that in the document.'"

  const ContextHeader: string := "Context:\n"
  const QuestionHeader: string := "\n\nQuestion: "

  /** The two messages of the chat prompt template. */
  datatype ChatPrompt = ChatPrompt(system: string, human: string)

  /** The prompt of `build_qa_chain`: the fixed system instruction, and a human turn holding
      the context block and the question in that order. */
  function ComposePrompt(context: string, question: string): (p: ChatPrompt)
    ensures p.system == DefaultSystemPrompt
    ensures |p.human| == |ContextHeader| + |context| + |QuestionHeader| + |question|
    ensures p.human[..|ContextHeader|] == ContextHeader
    ensures p.human[|ContextHeader|..|ContextHeader| + |context|] == context
    ensures p.human[|ContextHeader| + |context|..|ContextHeader| + |context| + |QuestionHeader|] == QuestionHeader
    ensures p.human[|ContextHeader| + |context| + |QuestionHeader|..] == question
  {
    ChatPrompt(DefaultSystemPrompt, ContextHeader + context + QuestionHeader + question)
  }

  /** The human turn determines the question once the context length is known, and the
      context once the question length is known. */
  lemma HumanTurnDecodes(c1: string, q1: string, c2: string, q2: string)
    requires ComposePrompt(c1, q1).human == ComposePrompt(c2, q2).human
    requires |c1| == |c2| || |q1| == |q2|
    ensures c1 == c2 && q1 == q2
  {
  }

  /** The answer chain's prompt for the passages the retriever returned. */
  function QaPrompt(retrieved: seq<Doc>, question: string): (p: ChatPrompt)
    ensures p.system == DefaultSystemPrompt
    ensures |retrieved| == 0 ==> p.human == ContextHeader + QuestionHeader + question
    ensures |retrieved| == 1 ==> p.human == ContextHeader + retrieved[0].content + QuestionHeader + question
    ensures p.human == ContextHeader + FormatDocs(retrieved) + QuestionHeader + question
    ensures |retrieved| > 1 ==>
      var last := |retrieved| - 1;
      p.human == ContextHeader + FormatDocs(retrieved[..last]) + ContextSeparator + retrieved[last].content
                 + QuestionHeader + question
  {
    if |retrieved| > 1 then
      var last := |retrieved| - 1;
      assert retrieved == retrieved[..last] + retrieved[last..];
      FormatDocsAppend(retrieved[..last], retrieved[last..]);
      ComposePrompt(FormatDocs(retrieved), question)
    else
      ComposePrompt(FormatDocs(retrieved), question)
  }
}
