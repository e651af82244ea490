/** The chat-history store of the UI: a Python dict from session id to session record.
    Insertion order is observable in the UI (the delete fallback takes the first key), so the
    store is an ordered sequence of `(id, session)` pairs whose ids are pairwise distinct. */
module SessionStore {
  import opened Wrappers

  datatype Role = User | Assistant

  /** One chat turn, `{"role": ..., "content": ...}`. */
  datatype Message = Message(role: Role, content: string)

  /** A session record `{title, messages, doc_id, timestamp}`. A timestamp may be missing in a
      history file written by hand; readers default it to 0. */
  datatype Session = Session(title: string, messages: seq<Message>, docId: Option<string>, timestamp: Option<real>)

  type Entry = (string, Session)

  predicate DistinctKeys(entries: seq<Entry>)
  {
    forall i, j :: 0 <= i < j < |entries| ==> entries[i].0 != entries[j].0
  }

  /** A dict in insertion order. */
  type Store = entries: seq<Entry> | DistinctKeys(entries) witness []

  /** `list(store.keys())`. */
  function Keys(st: seq<Entry>): (ks: seq<string>)
    ensures |ks| == |st|
    ensures forall i :: 0 <= i < |st| ==> ks[i] == st[i].0
  {
    seq(|st|, i requires 0 <= i < |st| => st[i].0)
  }

  /** Position of key `k`: the first (in a store, the only) entry carrying it. */
  function IndexOf(st: seq<Entry>, k: string): (i: nat)
    requires k in Keys(st)
    ensures i < |st| && st[i].0 == k
    ensures forall j :: 0 <= j < i ==> st[j].0 != k
  {
    if st[0].0 == k then 0
    else
      assert Keys(st[1..]) == Keys(st)[1..];
      1 + IndexOf(st[1..], k)
  }

  /** In a store, the entry at position `i` is the one found for its key. */
  lemma IndexOfAt(st: Store, i: nat)
    requires i < |st|
    ensures IndexOf(st, st[i].0) == i
  {
  }

  /** `store.get(k)`. */
  function Get(st: Store, k: string): (r: Option<Session>)
    ensures r.Some? <==> k in Keys(st)
    ensures r.Some? ==> exists i :: 0 <= i < |st| && st[i] == (k, r.value)
  {
    if k in Keys(st) then Some(st[IndexOf(st, k)].1) else None
  }

  /** `store[k] = v`: an existing key keeps its position and gets the new value; a new key
      goes to the end. */
  function Put(st: Store, k: string, v: Session): (r: Store)
    ensures k in Keys(st) ==> Keys(r) == Keys(st)
    ensures k !in Keys(st) ==> Keys(r) == Keys(st) + [k]
    ensures Get(r, k) == Some(v)
    ensures forall k' :: k' != k ==> Get(r, k') == Get(st, k')
  {
    if k in Keys(st) then
      var i := IndexOf(st, k);
      var r := st[i := (k, v)];
      assert Keys(r) == Keys(st);
      IndexOfAt(r, i);
      forall k' | k' != k && k' in Keys(st)
        ensures Get(r, k') == Get(st, k')
      {
        IndexOfAt(r, IndexOf(st, k'));
      }
      r
    else
      var r := st + [(k, v)];
      assert Keys(r) == Keys(st) + [k];
      IndexOfAt(r, |st|);
      forall k' | k' != k && k' in Keys(st)
        ensures Get(r, k') == Get(st, k')
      {
        IndexOfAt(r, IndexOf(st, k'));
      }
      r
  }

  /** `r` is `st` with position `i` cut out. */
  predicate CutAt(st: seq<Entry>, i: nat, r: seq<Entry>)
  {
    && i < |st|
    && |r| == |st| - 1
    && (forall j :: 0 <= j < i ==> r[j] == st[j])
    && (forall j :: i <= j < |r| ==> r[j] == st[j + 1])
  }

  lemma CutShape(st: seq<Entry>, i: nat)
    requires i < |st|
    ensures CutAt(st, i, st[..i] + st[i + 1..])
    ensures var r := st[..i] + st[i + 1..]; st == r[..i] + [st[i]] + r[i..]
  {
  }

  /** After a cut, a key is present exactly when it was present at another position. */
  lemma CutKeys(st: Store, i: nat, r: Store, k': string)
    requires CutAt(st, i, r)
    ensures k' in Keys(r) <==> k' in Keys(st) && k' != st[i].0
  {
    if k' in Keys(r) {
      var j := IndexOf(r, k');
      if j < i {
        assert r[j] == st[j];
      } else {
        assert r[j] == st[j + 1];
        assert Keys(st)[j + 1] == k';
      }
    }
    if k' in Keys(st) && k' != st[i].0 {
      var j := IndexOf(st, k');
      if j < i {
        assert r[j] == st[j];
        assert Keys(r)[j] == k';
      } else {
        assert r[j - 1] == st[j];
        assert Keys(r)[j - 1] == k';
      }
    }
  }

  /** A cut keeps every other key with its session. */
  lemma CutGet(st: Store, i: nat, r: Store, k': string)
    requires CutAt(st, i, r)
    requires k' != st[i].0
    ensures Get(r, k') == Get(st, k')
  {
    CutKeys(st, i, r, k');
    if k' in Keys(st) {
      var j := IndexOf(st, k');
      var j' := if j < i then j else j - 1;
      assert r[j'] == st[j];
      IndexOfAt(r, j');
    }
  }

  /** `del store[k]` when `k` is present; otherwise the store is returned as it is. Putting
      the removed entry back at its old position rebuilds the original store. */
  function Remove(st: Store, k: string): (r: Store)
    ensures k !in Keys(r)
    ensures k !in Keys(st) ==> r == st
    ensures k in Keys(st) ==> |r| == |st| - 1
    ensures k in Keys(st) ==>
      var i := IndexOf(st, k);
      st == r[..i] + [st[i]] + r[i..]
    ensures forall k' :: k' != k ==> Get(r, k') == Get(st, k')
  {
    if k in Keys(st) then
      var i := IndexOf(st, k);
      CutShape(st, i);
      var r: Store := st[..i] + st[i + 1..];
      CutKeys(st, i, r, k);
      forall k' | k' != k
        ensures Get(r, k') == Get(st, k')
      {
        CutGet(st, i, r, k');
      }
      r
    else
      st
  }
}
