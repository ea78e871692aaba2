/** Messages of a selected mailbox, the untagged lines the server prints about them,
    and the view a client builds from those lines alone. */
module ImapMessages {

  import opened Options

  const FLAG_UNREAD: bv32 := 1
  const FLAG_ANSWERED: bv32 := 2
  const FLAG_DELETED: bv32 := 8
  const FLAG_FLAGGED: bv32 := 16
  const FLAG_SEEN: bv32 := 32
  const FLAG_DRAFT: bv32 := 1024

  // The bits that PrintFlags turns into flag names.
  const SHOWN: bv32 := 1083

  datatype Msg = Msg(uid: int, mailId: int, seqId: int, flags: bv32, size: nat)

  predicate Flagged(flag: bv32, flags: bv32) {
    flags & flag == flag
  }

  predicate Deleted(m: Msg) {
    Flagged(FLAG_DELETED, m.flags)
  }

  function Shown(flags: bv32): bv32 {
    flags & SHOWN
  }

  // Sequence numbers are the positions, counted from one.
  predicate Numbered(ms: seq<Msg>) {
    forall i :: 0 <= i < |ms| ==> ms[i].seqId == i + 1
  }

  // CountNotFlaggedMails(ms, FLAG_SEEN): the messages reported as recent.
  function CountRecent(ms: seq<Msg>): nat {
    if ms == [] then 0
    else (if Flagged(FLAG_SEEN, ms[0].flags) then 0 else 1) + CountRecent(ms[1..])
  }

  /** What the client learns, in order. The first four are untagged responses; Opened and
      SilentStored are what the client knows from its own commands (a mailbox is being
      opened; it changed flags and asked not to be told). */
  datatype Line =
    | Exists(count: nat)
    | Expunge(n: int)
    | Fetch(n: int, uid: Option<int>, flags: Option<bv32>)
    | Recent(recent: nat)
    | Opened
    | SilentStored(n: int)

  // What the client knows of one position: nothing, its UID, its flags, or both.
  datatype Entry = Entry(uid: Option<int>, flags: Option<bv32>)

  type View = seq<Entry>

  function OrElse<T>(a: Option<T>, b: Option<T>): Option<T> {
    if a.Some? then a else b
  }

  // One line, or None where sections 7.3.1 and 7.4.1 of RFC 3501 forbid it: a message
  // number outside the mailbox, or an EXISTS that makes the mailbox shrink.
  function Apply(v: View, l: Line): Option<View> {
    match l
    case Exists(count) =>
      if count < |v| then None else Some(v + seq(count - |v|, i => Entry(None, None)))
    case Expunge(n) =>
      if 1 <= n <= |v| then Some(v[..n - 1] + v[n..]) else None
    case Fetch(n, uid, flags) =>
      if 1 <= n <= |v| then
        Some(v[n - 1 := Entry(OrElse(uid, v[n - 1].uid), OrElse(flags, v[n - 1].flags))])
      else None
    case Recent(_) => Some(v)
    case Opened => Some([])
    case SilentStored(n) =>
      if 1 <= n <= |v| then Some(v[n - 1 := v[n - 1].(flags := None)]) else None
  }

  function Replay(v: View, ls: seq<Line>): Option<View>
    decreases |ls|
  {
    if ls == [] then Some(v)
    else match Apply(v, ls[0])
      case None => None
      case Some(w) => Replay(w, ls[1..])
  }

  lemma ReplayNothing(v: View)
    ensures Replay(v, []) == Some(v)
  {
  }

  lemma ReplayOne(v: View, l: Line)
    ensures Replay(v, [l]) == Apply(v, l)
  {
    assert [l][1..] == [];
  }

  lemma {:induction false} ReplayConcat(v: View, a: seq<Line>, b: seq<Line>)
    ensures Replay(v, a + b) == match Replay(v, a) case None => None case Some(w) => Replay(w, b)
    decreases |a|
  {
    if a == [] {
      assert a + b == b;
    } else {
      assert (a + b)[1..] == a[1..] + b;
      if Apply(v, a[0]).Some? {
        ReplayConcat(Apply(v, a[0]).value, a[1..], b);
      }
    }
  }

  predicate EntryAgrees(e: Entry, m: Msg) {
    (e.uid.Some? ==> e.uid.value == m.uid) && (e.flags.Some? ==> e.flags.value == Shown(m.flags))
  }

  /** The two views agree: same number of messages, and whatever the client knows of a
      position is true of the server's message there. */
  predicate Agrees(v: View, ms: seq<Msg>) {
    |v| == |ms| && forall i :: 0 <= i < |v| ==> EntryAgrees(v[i], ms[i])
  }

  predicate Informed(e: Entry) {
    e.uid.Some? && e.flags.Some?
  }

  predicate AllInformed(v: View) {
    forall i :: 0 <= i < |v| ==> Informed(v[i])
  }
}
