# Chat sessions and RAG metadata steps, modelled in Dafny

This project models the two pieces of sequential logic in a PDF question-answering assistant.

- **The Streamlit front end's session store** (`frontend/ui.py`). It is a dict from session id to
  `{title, messages, doc_id, timestamp}` plus a current session id. Its transitions are:
  startup selection, create, switch, delete with its fallback, binding and unlinking a document,
  and asking a question. Two display helpers come with it: the sidebar title shortening and the
  typewriter splitter `stream_text`.
- **The pure steps of the service's pipeline** (`backend/app/rag_pipeline.py`): resolving the
  document id, stamping `doc_id`/`page_number` on pages, re-stamping chunks with `setdefault`,
  joining retrieved passages with a blank line, and the fixed prompt text.

Modules:

- `Wrappers`: `Option` and `Result`.
- `Strings`: Python's `s[:n]`, `sep.join(parts)`, and `str.count(c)` and `str.split(c)` for a
  one-character `c`.
- `SessionStore`: the dict as an ordered sequence of `(id, session)` pairs with distinct ids.
  Insertion order is observable, because the delete fallback takes the first key.
- `ChatUi`: `st.session_state` as an explicit `AppState` value and every transition as a pure
  function.
- `RagPipeline`: documents as records with a string-keyed metadata map. The loader, the
  splitter and the upsert are parameters.

The inputs of each transition:

- `uuid.uuid4()` and `time.time()` become the parameters `freshId` and `now`.
- An HTTP reply becomes a `Reply` value: a status with its decoded body, or a failed connection.
- The PDF loader's output becomes an `Option` (`None` when it raises), the text splitter an arbitrary function, and the
  vector-store write a function telling whether it succeeded.

Two behaviours a reader might not expect are modelled as the code has them:

- Deleting the current session falls back to the *first* remaining key in insertion order, not
  to the most recent session.
- A successful upload always renames the session to the file name, whatever its title was.

A consequence that the lemmas make visible: a question can only be asked once a document is
bound, and binding renames the session. So the "first question names the session" rule fires
only when a bound session still carries the title "New Conversation", which in practice means
a history file edited by hand. The uploader accepts only `.pdf` names, so no upload leaves that
title in place; the model does not constrain file names.

Characters are Unicode scalar values, so string lengths agree with Python's `len`. Timestamps
are real numbers; a missing timestamp reads as 0, as the sort key `get("timestamp", 0)` does.

## Model

| member | source | states |
|---|---|---|
| `SessionStore.Keys` | frontend/ui.py:134 | `list(sessions.keys())`: one id per entry, in insertion order |
| `SessionStore.Get` | frontend/ui.py:144 | a lookup finds a session exactly when the id is a key, and returns the entry stored under it |
| `SessionStore.Put` | frontend/ui.py:112-117 | dict assignment: an existing id keeps its position, a new id is appended; the id then maps to the new record and every other id is unchanged |
| `SessionStore.Remove` | frontend/ui.py:128-129 | `del` removes exactly the id's entry: the id is gone, every other id keeps its session, an absent id changes nothing, and re-inserting the removed entry at its old position restores the store |
| `ChatUi.HasDocument` | frontend/ui.py:196 | Python truthiness of `doc_id`: `None` or the empty string is no document; this one test decides the chat guard, whether the uploader is shown and whether the unlink button is shown |
| `ChatUi.TimeKey` | frontend/ui.py:102 | the sort key `get("timestamp", 0)`: the stored timestamp, or 0 when the record has none |
| `ChatUi.SetCurrent` | frontend/ui.py:144 | a write through the `current_session` alias: the current id's entry becomes the new record in place, while the key order, the current id and every other session stay as they were |
| `ChatUi.CreateNewSession` | frontend/ui.py:109-120 | the new id maps to a session titled "New Conversation" with no messages, no document and the given timestamp, and becomes current; every other session is unchanged; an id not yet in the store is added at the end |
| `ChatUi.MostRecentIndex` | frontend/ui.py:100-105 | the chosen session has the greatest timestamp (missing read as 0), and every earlier session has a strictly smaller one, which is what the stable descending sort puts first |
| `ChatUi.MostRecentIndexUnique` | frontend/ui.py:100-105 | those two properties single out one position |
| `ChatUi.EnsureCurrent` | frontend/ui.py:139-141 | afterwards the current id names an existing session; a valid state is left alone, otherwise a fresh session is created and made current, every other id keeps its session and its place, and a new id is appended at the end |
| `ChatUi.Startup` | frontend/ui.py:96-107 | on a non-empty history the store is kept and the current session has the greatest timestamp (missing read as 0) while every session before it in insertion order has a strictly smaller one, so ties go to the earliest; an empty history yields exactly one fresh current session; in both cases the current id names an existing session |
| `ChatUi.StartupMatchesSort` | frontend/ui.py:100-105 | on a non-empty history the current id is the first entry of the stable descending sort by timestamp, as `MostRecentIndex` computes it |
| `ChatUi.SwitchSession` | frontend/ui.py:122-124 | only the current id moves; the result is valid exactly when the target id exists |
| `ChatUi.FallbackAfterDelete` | frontend/ui.py:132-136 | after the current session is deleted, the current id is the first remaining id in insertion order, or a fresh session's when none remain; the store is non-empty |
| `ChatUi.DeleteSession` | frontend/ui.py:126-137 | an unknown id changes nothing; deleting another session removes only it and keeps the current id; deleting the current one leaves a non-empty store whose current id is the first remaining id, or a fresh session when none remain; validity is preserved |
| `ChatUi.UploadDocument` | frontend/ui.py:196-225 | with the uploader shown (no document bound), a 200 reply sets the current session's `doc_id` to the returned id and its title to the file name; any other reply, a failed connection or an already bound session leaves the state unchanged; other sessions are untouched |
| `ChatUi.UnlinkDocument` | frontend/ui.py:196-201 | the current session's `doc_id` becomes `None` (not an empty string) while its title, messages and timestamp are kept; other sessions are untouched |
| `ChatUi.TitleAfterQuestion` | frontend/ui.py:252-254 | a non-default title is kept; the default one becomes the first at most 30 characters of the prompt followed by "...", which is never the default title again |
| `ChatUi.Ask` | frontend/ui.py:242-303 | an empty input, or a session without a document, leaves the state unchanged and sends nothing; otherwise exactly one user turn is appended, the timestamp becomes `now`, the title rule applies, the request carries the document id, the prompt and every earlier turn, and an assistant turn is appended only on a 200 reply; other sessions and the current id are untouched |
| `ChatUi.AskKeepsChosenTitle` | frontend/ui.py:252-254 | a question never renames a session whose title is not the default one |
| `ChatUi.TitleSetOnce` | frontend/ui.py:249-254 | after one question has gone through, a second question keeps the title |
| `ChatUi.UploadThenAskKeepsFileName` | frontend/ui.py:215-216 | after a successful upload the next question keeps the file name as title unless the file is named "New Conversation" |
| `ChatUi.UploadThenUnlink` | frontend/ui.py:196-217 | unlinking right after a successful upload with a non-empty id restores the session except that it keeps the file name as title and has no document; other sessions are untouched |
| `ChatUi.Step` | frontend/ui.py:156-303 | every sidebar or chat action, followed by the rerun check, maps a state whose current id exists to one whose current id exists, with a non-empty store |
| `ChatUi.Run` | frontend/ui.py:139-144 | any sequence of actions from such a state keeps the current id naming an existing session and the store non-empty |
| `ChatUi.CurrentAlwaysExists` | frontend/ui.py:139-144 | from any history on disk, after startup and any sequence of actions, the current session can be looked up |
| `ChatUi.DisplayTitle` | frontend/ui.py:177-180 | a missing title shows as "Untitled"; a title of at most 22 characters shows unchanged; a longer one shows its first 20 characters plus "...", so the label is at most 23 characters long |
| `ChatUi.DisplayTitleIdempotent` | frontend/ui.py:177-180 | shortening an already shown label changes nothing |
| `ChatUi.StreamText` | frontend/ui.py:148-151 | the pieces concatenate to `text + " "`, there is one more piece than spaces in the text, and each piece holds exactly one space, at its end |
| `Strings.Take` | frontend/ui.py:254 | `s[:n]` is the prefix of `s` of length `min(n, len(s))` |
| `Strings.Split` | frontend/ui.py:150 | `split(" ")` yields one more piece than separators, none containing the separator |
| `Strings.Join` | backend/app/rag_pipeline.py:156 | `sep.join`: no parts give the empty string, one part is itself, and with more the first part and the separator lead |
| `Strings.SplitJoin` | frontend/ui.py:150 | joining the pieces of a split with the separator gives back the text |
| `Strings.JoinSplit` | frontend/ui.py:150 | splitting the join of separator-free pieces gives back the pieces |
| `Strings.JoinAppend` | backend/app/rag_pipeline.py:156 | joining a concatenation of two non-empty lists is joining each, separated once |
| `Strings.JoinLength` | backend/app/rag_pipeline.py:156 | a join of n > 0 parts is as long as the parts plus n - 1 separators |
| `RagPipeline.ResolveDocId` | backend/app/rag_pipeline.py:107 | the caller's id is used when it is present and non-empty, otherwise the generated one; the result is non-empty when the generated id is |
| `RagPipeline.StampPages` | backend/app/rag_pipeline.py:114-116 | page count and contents are kept; every page gets `doc_id` set to the resolved id, overwriting any earlier value, and `page_number` set to its `page` field when present, else its 1-based position; no other metadata entry changes and no other key is added |
| `RagPipeline.RestampChunks` | backend/app/rag_pipeline.py:122-123 | every chunk ends with a `doc_id`; a chunk that had one keeps all its metadata, one that lacked it gets the resolved id; contents and other entries are unchanged |
| `RagPipeline.Ingest` | backend/app/rag_pipeline.py:103-137 | a loader failure or a failed upsert is reported as an error; on success the returned id is the resolved one, the stored chunks are the re-stamped output of the splitter on the stamped pages, they were upserted, and each has a `doc_id` |
| `RagPipeline.IngestTagsEveryChunk` | backend/app/rag_pipeline.py:114-123 | when the splitter copies page metadata onto chunks, every stored chunk has `doc_id` equal to the resolved id and has a page number |
| `RagPipeline.FormatDocs` | backend/app/rag_pipeline.py:155-156 | no passages give "", one passage gives its text, and n passages give their texts plus n - 1 blank-line separators |
| `RagPipeline.FormatDocsAppend` | backend/app/rag_pipeline.py:155-156 | passages are joined in input order: formatting two batches is formatting each with one separator between |
| `RagPipeline.ComposePrompt` | backend/app/rag_pipeline.py:169-174 | the system turn is the fixed instruction; the human turn is "Context:\n", the context, "\n\nQuestion: " and the question, in that order and nothing else |
| `RagPipeline.HumanTurnDecodes` | backend/app/rag_pipeline.py:172 | given the length of the context or of the question, the human turn determines both |
| `RagPipeline.QaPrompt` | backend/app/rag_pipeline.py:176-182 | the answer prompt uses the fixed system text; the context block is the `_format_docs` text of all retrieved passages in order: empty for none, the passage itself for one, and for several the text of all but the last, a blank line, then the last passage |

## Left out

- Streamlit rendering, CSS, spinners, expanders, and the `st.rerun`/`st.stop` control flow are not modelled. They are presentation; only the state changes they lead to are kept.
- The sidebar's listing order (the second timestamp sort) is not modelled. It only orders buttons on screen.
- `load_history`/`save_history` are not modelled. They are file I/O; each transition stands for "mutate, then save". A missing file, or one that is not valid JSON, is the empty store given to `Startup`.
- A history file that is not valid UTF-8, or valid JSON that is not an object of session records (`[]`, `null`, `{"a": 1}`), is not modelled. `load_history` catches only `json.JSONDecodeError`, so these make the app raise at load or on first use.
- Records read from a history file without `title`, `messages` or `doc_id` are not modelled. The code indexes those keys and would raise; a `Session` always has them. The sidebar's `"Untitled"` default is modelled through the optional argument of `DisplayTitle`.
- The HTTP calls to `/upload-pdf` and `/chat` are not modelled. They are network I/O; only their outcome enters, as a `Reply`. Exceptions while decoding a reply body are not modelled.
- The source-snippet display after an answer is not modelled. It is presentation only.
- `time.sleep` in `stream_text` and after an upload is not modelled. It is timing only.
- `uuid4()` and `time.time()` are not modelled. They become parameters. A colliding `freshId` follows dict assignment, overwriting in place, as the code would.
- Pinecone index provisioning with its readiness polling, and the credential checks at import, are not modelled. They are a remote service and configuration.
- `PyPDFLoader`, `RecursiveCharacterTextSplitter` (chunk size 1000, overlap 150, start index), the Azure embedding and chat models, the vector-store upsert, and retrieval with `k=5` and the `$eq` filter on `doc_id` are not modelled. They are external libraries and services whose behaviour is not visible here. The splitter is an arbitrary function and the upsert a success flag. What the loader writes into the `page` field (PyPDF numbers pages from 0) is beyond this model.
- The LangChain runnable composition is not modelled: running the retriever again for `source_documents`, the model call and `StrOutputParser`. Only the prompt it builds is modelled, in `QaPrompt`.
- Logging and the debug prints are not modelled.
