/** The state machine of the Streamlit chat front end: the session store with its current
    session id, the transitions the sidebar and the chat input drive, and two display helpers.
    `uuid4()` and `time.time()` arrive as the parameters `freshId` and `now`; replies of the
    HTTP service arrive as `Reply` values. */
module ChatUi {
  import opened Wrappers
  import opened Strings
  import opened SessionStore

  const NewConversation: string := "New Conversation"
  const Untitled: string := "Untitled"
  const Ellipsis: string := "..."
  /** Characters of the first question kept in a session title. */
  const PromptTitleLength: nat := 30
  /** Longest title the sidebar shows unshortened, and the prefix it keeps otherwise. */
  const SidebarMaxTitle: nat := 22
  const SidebarKeep: nat := 20
  const StatusOk: int := 200

  /** `st.session_state`: the sessions and the current session id (`None` before startup). */
  datatype AppState = AppState(sessions: Store, current: Option<string>)

  /** An HTTP reply: a status code with its decoded payload, or a failed connection. */
  datatype Reply<T> = Response(status: int, body: T) | ConnectionFailed

  /** The JSON body posted to `/chat`. */
  datatype ChatRequest = ChatRequest(docId: string, question: string, history: seq<Message>)

  /** The state after a chat input, and the request sent to the service, if any. */
  datatype AskResult = AskResult(state: AppState, request: Option<ChatRequest>)

  /** The current session id names a session of the store. */
  predicate Valid(s: AppState)
  {
    s.current.Some? && s.current.value in Keys(s.sessions)
  }

  function CurrentSession(s: AppState): Session
    requires Valid(s)
  {
    Get(s.sessions, s.current.value).value
  }

  /** Python truthiness of `session["doc_id"]`: neither `None` nor the empty string. */
  function HasDocument(sess: Session): (bound: bool)
    ensures !bound <==> sess.docId == None || sess.docId == Some("")
  {
    sess.docId.Some? && sess.docId.value != ""
  }

  /** The sort key `session.get("timestamp", 0)`. */
  function TimeKey(e: Entry): (key: real)
    ensures e.1.timestamp.None? ==> key == 0.0
    ensures e.1.timestamp.Some? ==> key == e.1.timestamp.value
  {
    e.1.timestamp.GetOr(0.0)
  }

  function FreshSession(now: real): Session
  {
    Session(NewConversation, [], None, Some(now))
  }

  /** `create_new_session`: store a fresh session under the new id and make it current. */
  function CreateNewSession(s: AppState, freshId: string, now: real): (r: AppState)
    ensures Valid(r) && r.current == Some(freshId)
    ensures Get(r.sessions, freshId) == Some(Session(NewConversation, [], None, Some(now)))
    ensures forall k :: k != freshId ==> Get(r.sessions, k) == Get(s.sessions, k)
    ensures freshId !in Keys(s.sessions) ==> Keys(r.sessions) == Keys(s.sessions) + [freshId]
    ensures freshId in Keys(s.sessions) ==> Keys(r.sessions) == Keys(s.sessions)
  {
    AppState(Put(s.sessions, freshId, FreshSession(now)), Some(freshId))
  }

  /** Index of the session `sorted(items, key=timestamp, reverse=True)[0]` picks: a greatest
      timestamp, and among equal ones the earliest in insertion order (the sort is stable). */
  function MostRecentIndex(st: seq<Entry>): (i: nat)
    requires |st| > 0
    ensures i < |st|
    ensures forall j :: 0 <= j < |st| ==> TimeKey(st[j]) <= TimeKey(st[i])
    ensures forall j :: 0 <= j < i ==> TimeKey(st[j]) < TimeKey(st[i])
    decreases |st|
  {
    if |st| == 1 then 0
    else
      var j := 1 + MostRecentIndex(st[1..]);
      if TimeKey(st[0]) >= TimeKey(st[j]) then 0 else j
  }

  /** The two properties of `MostRecentIndex` single out one position. */
  lemma MostRecentIndexUnique(st: seq<Entry>, k: nat)
    requires k < |st|
    requires forall j :: 0 <= j < |st| ==> TimeKey(st[j]) <= TimeKey(st[k])
    requires forall j :: 0 <= j < k ==> TimeKey(st[j]) < TimeKey(st[k])
    ensures MostRecentIndex(st) == k
  {
  }

  /** The check run on every rerun: without a current session that exists, create one. */
  function EnsureCurrent(s: AppState, freshId: string, now: real): (r: AppState)
    ensures Valid(r)
    ensures Valid(s) ==> r == s
    ensures !Valid(s) ==> r.current == Some(freshId) && Get(r.sessions, freshId) == Some(FreshSession(now))
    ensures !Valid(s) ==> forall k :: k != freshId ==> Get(r.sessions, k) == Get(s.sessions, k)
    ensures !Valid(s) ==>
      Keys(r.sessions) == if freshId in Keys(s.sessions) then Keys(s.sessions) else Keys(s.sessions) + [freshId]
  {
    if s.current.None? || s.current.value !in Keys(s.sessions) then CreateNewSession(s, freshId, now)
    else s
  }

  /** First run of the script on the store read from disk: point at the most recent session,
      or create one when the store is empty. */
  function Startup(loaded: Store, freshId: string, now: real): (r: AppState)
    ensures |loaded| == 0 ==> r.sessions == [(freshId, FreshSession(now))] && r.current == Some(freshId)
    ensures |loaded| > 0 ==> r.sessions == loaded
    ensures Valid(r)
    ensures forall i :: 0 <= i < |loaded| && Some(loaded[i].0) == r.current ==>
      && (forall j :: 0 <= j < |loaded| ==> TimeKey(loaded[j]) <= TimeKey(loaded[i]))
      && (forall j :: 0 <= j < i ==> TimeKey(loaded[j]) < TimeKey(loaded[i]))
  {
    if |loaded| > 0 then
      var i := MostRecentIndex(loaded);
      EnsureCurrent(AppState(loaded, Some(loaded[i].0)), freshId, now)
    else
      var r := EnsureCurrent(AppState(loaded, None), freshId, now);
      assert Keys(r.sessions) == [freshId];
      r
  }

  /** On a non-empty history startup points at the entry the stable descending sort puts first. */
  lemma StartupMatchesSort(loaded: Store, freshId: string, now: real)
    requires |loaded| > 0
    ensures Startup(loaded, freshId, now).current == Some(loaded[MostRecentIndex(loaded)].0)
  {
  }

  /** `switch_session`: move the current id, unchecked. */
  function SwitchSession(s: AppState, id: string): (r: AppState)
    ensures r.sessions == s.sessions && r.current == Some(id)
    ensures Valid(r) <==> id in Keys(s.sessions)
  {
    s.(current := Some(id))
  }

  /** The fallback after the current session was deleted: the first remaining id in insertion
      order, or a fresh session when none remain. */
  function FallbackAfterDelete(rest: Store, deleted: string, freshId: string, now: real): (r: AppState)
    ensures Valid(r) && |r.sessions| > 0
    ensures |rest| > 0 ==> r == AppState(rest, Some(rest[0].0))
    ensures |rest| == 0 ==> r.sessions == [(freshId, FreshSession(now))] && r.current == Some(freshId)
  {
    if |rest| > 0 then
      AppState(rest, Some(rest[0].0))
    else
      var r := CreateNewSession(AppState(rest, Some(deleted)), freshId, now);
      assert Keys(r.sessions) == [freshId];
      r
  }

  /** `delete_session`. */
  function DeleteSession(s: AppState, id: string, freshId: string, now: real): (r: AppState)
    ensures id !in Keys(s.sessions) ==> r == s
    ensures id in Keys(s.sessions) && s.current != Some(id) ==>
      r.current == s.current && r.sessions == Remove(s.sessions, id)
    ensures id in Keys(s.sessions) && s.current == Some(id) ==>
      && Valid(r)
      && |r.sessions| > 0
      && (|s.sessions| > 1 ==> r.sessions == Remove(s.sessions, id) && r.current == Some(r.sessions[0].0))
      && (|s.sessions| == 1 ==> r.sessions == [(freshId, FreshSession(now))] && r.current == Some(freshId))
    ensures Valid(s) ==> Valid(r)
  {
    if id in Keys(s.sessions) then
      var rest := Remove(s.sessions, id);
      if s.current == Some(id) then
        FallbackAfterDelete(rest, id, freshId, now)
      else
        assert Valid(s) ==> Get(rest, s.current.value).Some?;
        AppState(rest, s.current)
    else
      s
  }

  /** Replace the current session's record, keeping its position. */
  function SetCurrent(s: AppState, sess: Session): (r: AppState)
    requires Valid(s)
    ensures Valid(r) && r.current == s.current
    ensures Keys(r.sessions) == Keys(s.sessions)
    ensures CurrentSession(r) == sess
    ensures forall k :: k != s.current.value ==> Get(r.sessions, k) == Get(s.sessions, k)
  {
    s.(sessions := Put(s.sessions, s.current.value, sess))
  }

  /** Uploading `fileName` in the sidebar. The uploader is shown only while the current
      session has no document; a 200 reply binds its `doc_id` and renames the session to the
      file name, any other reply leaves the state as it was. */
  function UploadDocument(s: AppState, fileName: string, reply: Reply<string>): (r: AppState)
    requires Valid(s)
    ensures Valid(r) && r.current == s.current && Keys(r.sessions) == Keys(s.sessions)
    ensures forall k :: k != s.current.value ==> Get(r.sessions, k) == Get(s.sessions, k)
    ensures HasDocument(CurrentSession(s)) || !(reply.Response? && reply.status == StatusOk) ==> r == s
    ensures !HasDocument(CurrentSession(s)) && reply.Response? && reply.status == StatusOk ==>
      var before := CurrentSession(s);
      CurrentSession(r) == before.(docId := Some(reply.body), title := fileName)
  {
    var sess := CurrentSession(s);
    if HasDocument(sess) then s
    else if reply.Response? && reply.status == StatusOk then
      SetCurrent(s, sess.(docId := Some(reply.body), title := fileName))
    else
      assert Put(s.sessions, s.current.value, sess) == s.sessions;
      s
  }

  /** The "Unlink Document" button, shown only while the current session has a document. */
  function UnlinkDocument(s: AppState): (r: AppState)
    requires Valid(s)
    ensures Valid(r) && r.current == s.current && Keys(r.sessions) == Keys(s.sessions)
    ensures !HasDocument(CurrentSession(r))
    ensures HasDocument(CurrentSession(s)) ==> CurrentSession(r) == CurrentSession(s).(docId := None)
    ensures CurrentSession(r).title == CurrentSession(s).title
    ensures CurrentSession(r).messages == CurrentSession(s).messages
    ensures CurrentSession(r).timestamp == CurrentSession(s).timestamp
    ensures forall k :: k != s.current.value ==> Get(r.sessions, k) == Get(s.sessions, k)
    ensures !HasDocument(CurrentSession(s)) ==> r == s
  {
    var sess := CurrentSession(s);
    if HasDocument(sess) then SetCurrent(s, sess.(docId := None)) else s
  }

  /** The title after the first question: `prompt[:30] + "..."` replaces the default title only. */
  function TitleAfterQuestion(title: string, prompt: string): (t: string)
    ensures title != NewConversation ==> t == title
    ensures title == NewConversation ==>
      |t| == |Ellipsis| + (if |prompt| <= PromptTitleLength then |prompt| else PromptTitleLength)
    ensures title == NewConversation ==> t != NewConversation
    ensures title == NewConversation ==> t[..|t| - |Ellipsis|] == prompt[..|t| - |Ellipsis|] && t[|t| - |Ellipsis|..] == Ellipsis
  {
    if title == NewConversation then
      var t := Take(prompt, PromptTitleLength) + Ellipsis;
      assert t[|t| - 1] == '.';
      assert NewConversation[|NewConversation| - 1] == 'n';
      t
    else title
  }

  /** A chat input `prompt` at time `now`; `reply` is what `/chat` answers if it is called.
      An empty input does nothing; without a document a warning stops the run before any
      request. Otherwise the user turn is appended, the timestamp and title updated, the
      earlier turns sent as history, and the answer appended only on a 200 reply. */
  function Ask(s: AppState, prompt: string, now: real, reply: Reply<string>): (r: AskResult)
    requires Valid(s)
    ensures Valid(r.state) && r.state.current == s.current && Keys(r.state.sessions) == Keys(s.sessions)
    ensures forall k :: k != s.current.value ==> Get(r.state.sessions, k) == Get(s.sessions, k)
    ensures prompt == "" || !HasDocument(CurrentSession(s)) ==> r.state == s && r.request.None?
    ensures prompt != "" && HasDocument(CurrentSession(s)) ==>
      var before := CurrentSession(s);
      var after := CurrentSession(r.state);
      var answered := reply.Response? && reply.status == StatusOk;
      && r.request == Some(ChatRequest(before.docId.value, prompt, before.messages))
      && after.messages == before.messages + [Message(User, prompt)]
                            + (if answered then [Message(Assistant, reply.body)] else [])
      && after.timestamp == Some(now)
      && after.docId == before.docId
      && (before.title != NewConversation ==> after.title == before.title)
      && (before.title == NewConversation ==> after.title == Take(prompt, PromptTitleLength) + Ellipsis)
  {
    var sess := CurrentSession(s);
    if prompt == "" || !HasDocument(sess) then AskResult(s, None)
    else
      var asked := sess.(messages := sess.messages + [Message(User, prompt)],
                         timestamp := Some(now),
                         title := TitleAfterQuestion(sess.title, prompt));
      var history := asked.messages[..|asked.messages| - 1];
      assert history == sess.messages;
      var request := ChatRequest(sess.docId.value, prompt, history);
      if reply.Response? && reply.status == StatusOk then
        AskResult(SetCurrent(s, asked.(messages := asked.messages + [Message(Assistant, reply.body)])), Some(request))
      else
        AskResult(SetCurrent(s, asked), Some(request))
  }

  /** Once a session's title is no longer the default one, no question renames it. */
  lemma AskKeepsChosenTitle(s: AppState, prompt: string, now: real, reply: Reply<string>)
    requires Valid(s)
    requires CurrentSession(s).title != NewConversation
    ensures CurrentSession(Ask(s, prompt, now, reply).state).title == CurrentSession(s).title
  {
  }

  /** A question renames a default-titled session at most once: once a question has gone
      through, a second question keeps the title the first one left. */
  lemma TitleSetOnce(s: AppState, p1: string, t1: real, r1: Reply<string>,
                         p2: string, t2: real, r2: Reply<string>)
    requires Valid(s)
    requires p1 != "" && HasDocument(CurrentSession(s))
    ensures var first := Ask(s, p1, t1, r1).state;
      CurrentSession(Ask(first, p2, t2, r2).state).title == CurrentSession(first).title
  {
  }

  /** A successful upload names the session after the file, and the question asked next
      keeps that name unless the file is literally called "New Conversation". */
  lemma UploadThenAskKeepsFileName(s: AppState, fileName: string, docId: string,
                                   prompt: string, now: real, reply: Reply<string>)
    requires Valid(s)
    requires !HasDocument(CurrentSession(s))
    requires fileName != NewConversation
    ensures var uploaded := UploadDocument(s, fileName, Response(StatusOk, docId));
      CurrentSession(Ask(uploaded, prompt, now, reply).state).title == fileName
  {
  }

  /** Unlinking right after a successful upload leaves the session as it was before, except
      that it keeps the file name as title and holds no document. */
  lemma UploadThenUnlink(s: AppState, fileName: string, docId: string)
    requires Valid(s)
    requires !HasDocument(CurrentSession(s)) && docId != ""
    ensures var after := UnlinkDocument(UploadDocument(s, fileName, Response(StatusOk, docId)));
      && CurrentSession(after) == CurrentSession(s).(docId := None, title := fileName)
      && forall k :: k != s.current.value ==> Get(after.sessions, k) == Get(s.sessions, k)
  {
  }

  /** One user action followed by the rerun it triggers. */
  datatype Event =
    | NewChat(freshId: string, now: real)
    | Select(id: string, freshId: string, now: real)
    | DeleteChat(id: string, freshId: string, now: real)
    | Attach(fileName: string, reply: Reply<string>)
    | Detach
    | Question(prompt: string, now: real, reply: Reply<string>)

  /** The state after `e`. Selecting a session reruns the script, whose startup check
      repairs a current id that names no session. */
  function Step(s: AppState, e: Event): (r: AppState)
    requires Valid(s)
    ensures Valid(r) && |r.sessions| > 0
  {
    match e
    case NewChat(freshId, now) => CreateNewSession(s, freshId, now)
    case Select(id, freshId, now) => EnsureCurrent(SwitchSession(s, id), freshId, now)
    case DeleteChat(id, freshId, now) => DeleteSession(s, id, freshId, now)
    case Attach(fileName, reply) => UploadDocument(s, fileName, reply)
    case Detach => UnlinkDocument(s)
    case Question(prompt, now, reply) => Ask(s, prompt, now, reply).state
  }

  /** The state after a whole sequence of actions. */
  function Run(s: AppState, events: seq<Event>): (r: AppState)
    requires Valid(s)
    ensures Valid(r) && |r.sessions| > 0
    decreases |events|
  {
    if |events| == 0 then s else Run(Step(s, events[0]), events[1..])
  }

  /** From any history on disk, after startup and any sequence of actions, the current id
      names an existing session. */
  lemma CurrentAlwaysExists(loaded: Store, freshId: string, now: real, events: seq<Event>)
    ensures var r := Run(Startup(loaded, freshId, now), events);
      r.current.Some? && r.current.value in Keys(r.sessions)
  {
  }

  /** The sidebar label of a session: `session.get("title", "Untitled")`, shortened to its
      first 20 characters plus "..." when longer than 22. */
  function DisplayTitle(title: Option<string>): (shown: string)
    ensures var t := title.GetOr(Untitled);
      && |shown| <= SidebarMaxTitle + 1
      && (|t| <= SidebarMaxTitle ==> shown == t)
      && (|t| > SidebarMaxTitle ==> |shown| == SidebarKeep + |Ellipsis| && shown[..SidebarKeep] == t[..SidebarKeep]
                                     && shown[SidebarKeep..] == Ellipsis)
  {
    var t := title.GetOr(Untitled);
    if |t| > SidebarMaxTitle then t[..SidebarKeep] + Ellipsis else t
  }

  /** Shortening a label that is already shown changes nothing. */
  lemma DisplayTitleIdempotent(title: Option<string>)
    ensures DisplayTitle(Some(DisplayTitle(title))) == DisplayTitle(title)
  {
  }

  /** Each word followed by `tail`. */
  function Suffixed(words: seq<string>, tail: string): (pieces: seq<string>)
    ensures |pieces| == |words|
    ensures forall i :: 0 <= i < |words| ==> pieces[i] == words[i] + tail
  {
    if |words| == 0 then [] else [words[0] + tail] + Suffixed(words[1..], tail)
  }

  lemma {:induction false} ConcatSuffixed(words: seq<string>, tail: string)
    requires |words| > 0
    ensures Concat(Suffixed(words, tail)) == Join(words, tail) + tail
  {
    if |words| > 1 {
      ConcatSuffixed(words[1..], tail);
      assert Suffixed(words, tail)[1..] == Suffixed(words[1..], tail);
    }
  }

  /** The typewriter generator `stream_text` (without its delay): each piece of
      `text.split(" ")` followed by a space. The pieces add up to `text + " "`, there is one
      more piece than spaces, and each piece holds exactly one space, at its end. */
  function StreamText(text: string): (pieces: seq<string>)
    ensures Concat(pieces) == text + " "
    ensures |pieces| == Count(text, ' ') + 1
    ensures forall i :: 0 <= i < |pieces| ==>
      |pieces[i]| > 0 && pieces[i][|pieces[i]| - 1] == ' ' && ' ' !in pieces[i][..|pieces[i]| - 1]
  {
    var words := Split(text, ' ');
    ConcatSuffixed(words, " ");
    SplitJoin(text, ' ');
    var pieces := Suffixed(words, " ");
    assert forall i :: 0 <= i < |pieces| ==> pieces[i][..|pieces[i]| - 1] == words[i];
    pieces
  }
}
