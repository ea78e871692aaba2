/** One IMAP session: what each command does to the message list, and what it prints. */
module ImapSession {
  import opened Options
  import opened ImapMessages
  import opened ImapDelta
  import opened ImapFetch

  datatype Mail = Mail(folder: int, mailId: int, flags: bv32, size: nat)

  /** The part of the database a session reads: mails, UIDs, the mailbox generation that
      every writer increments, and the space the user is charged for. */
  datatype Db = Db(mails: seq<Mail>, uids: Table, generation: int, spaceUsed: nat)

  // The rows of one folder, each with the UID that the join finds.
  function RowsOf(mails: seq<Mail>, t: Table, folder: int): seq<Row> {
    if mails == [] then []
    else
      var m := mails[0];
      (if m.folder == folder then
         [Row(m.mailId, m.flags, m.size, if m.mailId in t.uids then Some(t.uids[m.mailId]) else None)]
       else [])
      + RowsOf(mails[1..], t, folder)
  }

  function FetchList(db: Db, folder: int, limit: nat): (r: seq<Msg>)
    ensures Numbered(r)
  {
    Fetched(db.uids, RowsOf(db.mails, db.uids, folder), limit)
  }

  datatype Phase = NonAuthenticated | Authenticated | InMailbox | LoggedOut

  datatype Session = Session(
    phase: Phase, userId: int, autoExpunge: bool, limit: nat,
    selected: int, readOnly: bool, generation: int, msgs: seq<Msg>)

  // ParseMSGSet and InMSGSet: a list of ranges, the star being a very large number.
  type MsgSet = seq<(int, int)>

  predicate InSet(r: MsgSet, id: int) {
    exists i :: 0 <= i < |r| && r[i].0 <= id <= r[i].1
  }

  // FLAGS, +FLAGS and -FLAGS
  datatype FlagOp = Replace | Add | Remove

  datatype FlagName = SeenFlag | AnsweredFlag | DeletedFlag | DraftFlag | RecentFlag | FlaggedFlag | UnknownFlag

  /** FETCH and STORE walk over the list and treat the messages of a set one by one.
      lost holds the mails whose file cannot be opened. */
  datatype Walk =
    | FetchWalk(range: MsgSet, byUid: bool, uid: bool, flags: bool, body: bool, peek: bool, lost: set<int>)
    | StoreWalk(range: MsgSet, byUid: bool, op: FlagOp, names: seq<FlagName>, silent: bool)

  datatype Command =
    | LoginOk(id: int, limit: nat, generation: int)
    | SelectBox(folder: Option<int>, examine: bool)
    | ExpungeBox
    | CloseBox
    | LogoutNow
    | WalkBox(walk: Walk)
    | SearchBox(byUid: bool)
    | IdleWait(polls: seq<Env>)
    | OtherCommand

  /** What one command sees of the database: generation and list for the refresh, then list
      and generation for SELECT. All of them may differ: other processes write meanwhile. */
  datatype Env = Env(gen1: int, list1: Db, list2: Db, gen2: int)

  // ProcessLine refreshes the list before every command but these.
  predicate SkipsRefresh(c: Command) {
    match c
    case WalkBox(w) => !w.byUid
    case SearchBox(byUid) => !byUid
    case LogoutNow => true
    case IdleWait(_) => true
    case _ => false
  }

  function Refresh(s: Session, gen: int, list: Db): (Session, seq<Line>) {
    if s.phase == InMailbox && gen != s.generation then
      var now := FetchList(list, s.selected, s.limit);
      (s.(msgs := now, generation := gen), DeltaLines(s.msgs, now))
    else (s, [])
  }

  // ----- EXPUNGE -----

  function Undeleted(ms: seq<Msg>, k: int): seq<Msg> {
    if ms == [] then []
    else if Deleted(ms[0]) then Undeleted(ms[1..], k)
    else [ms[0].(seqId := k)] + Undeleted(ms[1..], k + 1)
  }

  function ExpungeLines(ms: seq<Msg>, k: int): seq<Line> {
    if ms == [] then []
    else if Deleted(ms[0]) then [Expunge(k)] + ExpungeLines(ms[1..], k)
    else ExpungeLines(ms[1..], k + 1)
  }

  // ----- FETCH and STORE -----

  predicate Treats(w: Walk, m: Msg) {
    && InSet(w.range, if w.byUid then m.uid else m.seqId)
    && !(w.FetchWalk? && w.body && m.mailId in w.lost)
  }

  function Turn(on: bool, flag: bv32, flags: bv32): bv32 {
    if on then flags | flag else flags & !flag
  }

  function Bit(name: FlagName): bv32 {
    match name
    case SeenFlag => FLAG_UNREAD
    case AnsweredFlag => FLAG_ANSWERED
    case DeletedFlag => FLAG_DELETED
    case DraftFlag => FLAG_DRAFT
    case RecentFlag => FLAG_SEEN
    case FlaggedFlag => FLAG_FLAGGED
    case UnknownFlag => 0
  }

  // Seen and recent are kept the other way round.
  predicate Inverted(name: FlagName) {
    name == SeenFlag || name == RecentFlag
  }

  function Flick(on: bool, name: FlagName, flags: bv32): bv32 {
    Turn(on != Inverted(name), Bit(name), flags)
  }

  function FlickAll(on: bool, names: seq<FlagName>, flags: bv32): bv32
    decreases |names|
  {
    if names == [] then flags else FlickAll(on, names[1..], Flick(on, names[0], flags))
  }

  function StoredFlags(op: FlagOp, names: seq<FlagName>, flags: bv32): bv32 {
    match op
    case Replace => FlickAll(true, names, FLAG_UNREAD)
    case Add => FlickAll(true, names, flags)
    case Remove => FlickAll(false, names, flags)
  }

  // Whether PrintFlags names the flag.
  predicate IsOn(name: FlagName, flags: bv32) {
    Flagged(Bit(name), flags) != Inverted(name)
  }

  lemma TurnSame(on: bool, flag: bv32, flags: bv32)
    requires flag != 0
    ensures Flagged(flag, Turn(on, flag, flags)) <==> on
  {
    assert !on ==> Turn(on, flag, flags) & flag == 0;
  }

  lemma TurnOther(on: bool, flag: bv32, other: bv32, flags: bv32)
    requires flag & other == 0
    ensures Flagged(other, Turn(on, flag, flags)) <==> Flagged(other, flags)
  {
    hide Flagged, Turn;
    SameFlagged(other, Turn(on, flag, flags), flags) by {
      OtherBits(on, flag, other, flags);
    }
  }

  lemma SameFlagged(flag: bv32, x: bv32, y: bv32)
    requires x & flag == y & flag
    ensures Flagged(flag, x) <==> Flagged(flag, y)
  {
  }

  lemma OtherBits(on: bool, flag: bv32, other: bv32, flags: bv32)
    requires flag & other == 0
    ensures Turn(on, flag, flags) & other == flags & other
  {
    if on {
      OrOther(flag, other, flags);
    } else {
      AndOther(flag, other, flags);
    }
  }

  lemma OrOther(flag: bv32, other: bv32, flags: bv32)
    requires flag & other == 0
    ensures (flags | flag) & other == flags & other
  {
  }

  lemma AndOther(flag: bv32, other: bv32, flags: bv32)
    requires flag & other == 0
    ensures (flags & !flag) & other == flags & other
  {
  }

  lemma FlickOne(on: bool, name: FlagName, flags: bv32, other: FlagName)
    requires other != UnknownFlag
    ensures IsOn(other, Flick(on, name, flags)) <==> if name == other then on else IsOn(other, flags)
  {
    hide Turn, Flagged;
    if name == other {
      TurnSame(on != Inverted(name), Bit(name), flags);
    } else {
      TurnOther(on != Inverted(name), Bit(name), Bit(other), flags);
    }
  }

  lemma {:induction false} FlickMany(on: bool, names: seq<FlagName>, flags: bv32, name: FlagName)
    requires name != UnknownFlag
    ensures IsOn(name, FlickAll(on, names, flags)) <==> if name in names then on else IsOn(name, flags)
    decreases |names|
  {
    hide IsOn, Flick;
    if names != [] {
      FlickOne(on, names[0], flags, name);
      FlickMany(on, names[1..], Flick(on, names[0], flags), name);
    }
  }

  /** What STORE makes of the flags of a message (section 6.4.6 of RFC 3501), flag by flag;
      only recent is always on after a replacement, whether it is named or not. */
  lemma StoreMeaning(op: FlagOp, names: seq<FlagName>, flags: bv32, name: FlagName)
    requires name != UnknownFlag
    ensures var stored := IsOn(name, StoredFlags(op, names, flags));
      match op
      case Replace => stored <==> name in names || name == RecentFlag
      case Add => stored <==> name in names || IsOn(name, flags)
      case Remove => stored <==> name !in names && IsOn(name, flags)
  {
    FlickMany(op != Remove, names, if op == Replace then FLAG_UNREAD else flags, name);
  }

  // Reading a body without PEEK marks the message as read.
  predicate Reads(w: Walk, m: Msg, readOnly: bool) {
    w.FetchWalk? && !w.peek && !readOnly && Flagged(FLAG_UNREAD, m.flags)
  }

  function AsRead(flags: bv32): bv32 {
    flags & !FLAG_UNREAD
  }

  function WalkMsg(w: Walk, m: Msg, readOnly: bool): Msg {
    if !Treats(w, m) then m
    else if w.StoreWalk? then m.(flags := StoredFlags(w.op, w.names, m.flags))
    else if Reads(w, m, readOnly) then m.(flags := AsRead(m.flags))
    else m
  }

  function WalkLines(w: Walk, m: Msg, readOnly: bool): seq<Line> {
    var flags := WalkMsg(w, m, readOnly).flags;
    if !Treats(w, m) then []
    else if w.StoreWalk? then
      if w.silent then [SilentStored(m.seqId)] else [Fetch(m.seqId, None, Some(Shown(flags)))]
    else
      [Fetch(m.seqId, if w.uid then Some(m.uid) else None, if w.flags then Some(Shown(m.flags)) else None)]
      + if Reads(w, m, readOnly) then [Fetch(m.seqId, None, Some(Shown(flags)))] else []
  }

  function WalkAll(w: Walk, ms: seq<Msg>, readOnly: bool): (r: seq<Msg>)
    ensures |r| == |ms|
  {
    if ms == [] then []
    else WalkAll(w, ms[..|ms| - 1], readOnly) + [WalkMsg(w, ms[|ms| - 1], readOnly)]
  }

  function WalkOut(w: Walk, ms: seq<Msg>, readOnly: bool): seq<Line> {
    if ms == [] then []
    else WalkOut(w, ms[..|ms| - 1], readOnly) + WalkLines(w, ms[|ms| - 1], readOnly)
  }

  // ----- one command -----

  function SelectLines(ms: seq<Msg>): seq<Line> {
    [Opened, Exists(|ms|), Recent(CountRecent(ms))]
  }

  function Idle(s: Session, polls: seq<Env>): (Session, seq<Line>)
    decreases |polls|
  {
    if polls == [] then (s, [])
    else
      var (s1, l1) := Refresh(s, polls[0].gen1, polls[0].list1);
      var (s2, l2) := Idle(s1, polls[1..]);
      (s2, l1 + l2)
  }

  function Dispatch(s: Session, c: Command, e: Env): (Session, seq<Line>) {
    match c
    case LoginOk(id, limit, generation) =>
      (if s.phase == NonAuthenticated && id > 0 then
         s.(phase := Authenticated, userId := id, limit := limit, generation := generation)
       else s, [])
    case SelectBox(folder, examine) =>
      if (s.phase == Authenticated || s.phase == InMailbox) && folder.Some? then
        var ms := FetchList(e.list2, folder.value, s.limit);
        (s.(phase := InMailbox, readOnly := examine, selected := folder.value, msgs := ms, generation := e.gen2),
         SelectLines(ms))
      else (s, [])
    case ExpungeBox =>
      if s.phase == InMailbox then (s.(msgs := Undeleted(s.msgs, 1)), ExpungeLines(s.msgs, 1)) else (s, [])
    case CloseBox =>
      (if s.phase == InMailbox then s.(phase := Authenticated, selected := -1, msgs := []) else s, [])
    case LogoutNow =>
      (if s.phase == InMailbox then s.(phase := LoggedOut, selected := -1, msgs := []) else s.(phase := LoggedOut), [])
    case WalkBox(w) =>
      if s.phase == InMailbox then
        (s.(msgs := WalkAll(w, s.msgs, s.readOnly)), WalkOut(w, s.msgs, s.readOnly))
      else (s, [])
    case SearchBox(_) => (s, [])
    case IdleWait(polls) =>
      if s.phase == Authenticated || s.phase == InMailbox then Idle(s, polls) else (s, [])
    case OtherCommand => (s, [])
  }

  function Step(s: Session, c: Command, e: Env): (Session, seq<Line>) {
    var (s1, l1) := if s.userId > 0 && !SkipsRefresh(c) then Refresh(s, e.gen1, e.list1) else (s, []);
    var (s2, l2) := Dispatch(s1, c, e);
    (s2, l1 + l2)
  }

  function Run(s: Session, script: seq<(Command, Env)>): (Session, seq<Line>)
    decreases |script|
  {
    if script == [] then (s, [])
    else
      var (s1, l1) := Step(s, script[0].0, script[0].1);
      var (s2, l2) := Run(s1, script[1..]);
      (s2, l1 + l2)
  }

  // ----- the client's view over whole runs -----

  // While a mailbox is open, its list is numbered and the client's view agrees with it.
  predicate InStep(v: View, s: Session) {
    s.phase == InMailbox ==> Numbered(s.msgs) && Agrees(v, s.msgs)
  }

  // The messages from position i on are ms; those before it are not touched.
  lemma {:induction false} ExpungeBoxReplay(v: View, i: nat, ms: seq<Msg>) returns (w: View)
    requires AgreesFrom(v, i, ms)
    ensures Replay(v, ExpungeLines(ms, i + 1)) == Some(w)
    ensures AgreesFrom(w, i, Undeleted(ms, i + 1)) && Continues(v, i, w)
    decreases |ms|
  {
    hide Apply, EntryAgrees, AllInformed;
    if ms == [] {
      w := v;
    } else if Deleted(ms[0]) {
      var u := v[..i] + v[i + 1..];
      ErasedAgrees(v, i, ms);
      assert ExpungeLines(ms, i + 1) == [Expunge(i + 1)] + ExpungeLines(ms[1..], i + 1);
      w := ExpungeBoxReplay(u, i, ms[1..]);
    } else {
      assert EntryAgrees(v[i], ms[0]);
      w := ExpungeBoxReplay(v, i + 1, ms[1..]);
      assert w[i] == w[..i + 1][i] == v[..i + 1][i];
      SameButNumber(v[i], ms[0], i + 1);
      KeptAgrees(w, i, Undeleted(ms, i + 1));
      assert w[..i] == w[..i + 1][..i] && v[..i] == v[..i + 1][..i];
    }
  }

  function Remaining(ms: seq<Msg>): seq<Msg> {
    if ms == [] then []
    else if Deleted(ms[0]) then Remaining(ms[1..])
    else [ms[0]] + Remaining(ms[1..])
  }

  /** EXPUNGE leaves exactly the messages not flagged deleted, in order, numbered from one,
      and prints one line for each of the others. */
  lemma {:induction false} UndeletedFacts(ms: seq<Msg>, k: int)
    ensures |Undeleted(ms, k)| == |Remaining(ms)|
    ensures forall i :: 0 <= i < |Remaining(ms)| ==> Undeleted(ms, k)[i] == Remaining(ms)[i].(seqId := k + i)
    ensures |ExpungeLines(ms, k)| == |ms| - |Remaining(ms)|
  {
    if ms != [] {
      UndeletedFacts(ms[1..], if Deleted(ms[0]) then k else k + 1);
    }
  }

  // One message of a FETCH or STORE: only its own position changes, and it is right again.
  lemma WalkMsgReplay(v: View, w: Walk, m: Msg, readOnly: bool) returns (e: Entry)
    requires 1 <= m.seqId <= |v| && EntryAgrees(v[m.seqId - 1], m)
    ensures Replay(v, WalkLines(w, m, readOnly)) == Some(v[m.seqId - 1 := e])
    ensures EntryAgrees(e, WalkMsg(w, m, readOnly))
  {
    var i := m.seqId - 1;
    if !Treats(w, m) {
      e := v[i];
      assert v[i := e] == v;
    } else if w.StoreWalk? {
      e := Entry(v[i].uid, if w.silent then None else Some(Shown(WalkMsg(w, m, readOnly).flags)));
      assert WalkLines(w, m, readOnly)[1..] == [];
    } else {
      var first := Fetch(m.seqId, if w.uid then Some(m.uid) else None, if w.flags then Some(Shown(m.flags)) else None);
      e := Entry(OrElse(first.uid, v[i].uid), OrElse(first.flags, v[i].flags));
      var u := v[i := e];
      assert [first][1..] == [];
      assert Replay(v, [first]) == Some(u);
      if Reads(w, m, readOnly) {
        var second := Fetch(m.seqId, None, Some(Shown(WalkMsg(w, m, readOnly).flags)));
        e := Entry(u[i].uid, second.flags);
        assert [second][1..] == [];
        assert u[i := e] == v[i := e];
        assert Replay(u, [second]) == Some(v[i := e]);
        ReplayConcat(v, [first], [second]);
      }
    }
  }

  lemma {:induction false} WalkReplay(v: View, w: Walk, ms: seq<Msg>, n: nat, readOnly: bool) returns (u: View)
    requires n <= |ms| && Numbered(ms) && Agrees(v, ms)
    ensures Replay(v, WalkOut(w, ms[..n], readOnly)) == Some(u) && |u| == |v|
    ensures forall i :: 0 <= i < n ==> EntryAgrees(u[i], WalkMsg(w, ms[i], readOnly))
    ensures forall i :: n <= i < |v| ==> u[i] == v[i]
  {
    if n == 0 {
      u := v;
    } else {
      var t := WalkReplay(v, w, ms, n - 1, readOnly);
      var e := WalkMsgReplay(t, w, ms[n - 1], readOnly);
      u := t[n - 1 := e];
      assert ms[..n][..n - 1] == ms[..n - 1];
      ReplayConcat(v, WalkOut(w, ms[..n - 1], readOnly), WalkLines(w, ms[n - 1], readOnly));
    }
  }

  lemma {:induction false} WalkAllAt(w: Walk, ms: seq<Msg>, readOnly: bool, i: nat)
    requires i < |ms|
    ensures WalkAll(w, ms, readOnly)[i] == WalkMsg(w, ms[i], readOnly)
  {
    if i < |ms| - 1 {
      WalkAllAt(w, ms[..|ms| - 1], readOnly, i);
    }
  }

  lemma WalkBoxReplay(v: View, w: Walk, ms: seq<Msg>, readOnly: bool) returns (u: View)
    requires Numbered(ms) && Agrees(v, ms)
    ensures Replay(v, WalkOut(w, ms, readOnly)) == Some(u)
    ensures Numbered(WalkAll(w, ms, readOnly)) && Agrees(u, WalkAll(w, ms, readOnly))
  {
    u := WalkReplay(v, w, ms, |ms|, readOnly);
    assert ms[..|ms|] == ms;
    forall i | 0 <= i < |ms|
      ensures WalkAll(w, ms, readOnly)[i] == WalkMsg(w, ms[i], readOnly)
    {
      WalkAllAt(w, ms, readOnly, i);
    }
  }

  lemma SelectReplay(v: View, ms: seq<Msg>) returns (u: View)
    ensures Replay(v, SelectLines(ms)) == Some(u) && Agrees(u, ms)
  {
    var ls := SelectLines(ms);
    u := seq(|ms|, i => Entry(None, None));
    assert ls[1..][1..][1..] == [];
    assert [] + u == u;
    assert Replay(u, ls[1..][1..]) == Some(u);
    assert Replay([], ls[1..]) == Some(u);
  }

  lemma RefreshKeepsStep(v: View, s: Session, gen: int, list: Db) returns (u: View)
    requires InStep(v, s)
    ensures Replay(v, Refresh(s, gen, list).1) == Some(u) && InStep(u, Refresh(s, gen, list).0)
  {
    u := v;
    if s.phase == InMailbox && gen != s.generation {
      u := DeltaReplay(v, s.msgs, FetchList(list, s.selected, s.limit));
    }
  }

  lemma {:induction false} IdleKeepsStep(v: View, s: Session, polls: seq<Env>) returns (u: View)
    requires InStep(v, s)
    ensures Replay(v, Idle(s, polls).1) == Some(u) && InStep(u, Idle(s, polls).0)
    decreases |polls|
  {
    u := v;
    if polls != [] {
      var (s1, l1) := Refresh(s, polls[0].gen1, polls[0].list1);
      u := RefreshKeepsStep(v, s, polls[0].gen1, polls[0].list1);
      ReplayConcat(v, l1, Idle(s1, polls[1..]).1);
      u := IdleKeepsStep(u, s1, polls[1..]);
    }
  }

  lemma DispatchKeepsStep(v: View, s: Session, c: Command, e: Env) returns (u: View)
    requires InStep(v, s)
    ensures Replay(v, Dispatch(s, c, e).1) == Some(u) && InStep(u, Dispatch(s, c, e).0)
  {
    u := v;
    match c {
      case SelectBox(folder, examine) =>
        if Dispatch(s, c, e).1 != [] {
          u := SelectReplay(v, FetchList(e.list2, folder.value, s.limit));
        }
      case ExpungeBox =>
        if s.phase == InMailbox {
          assert forall j :: 0 <= j < |v| ==> s.msgs[j] == s.msgs[j - 0];
          u := ExpungeBoxReplay(v, 0, s.msgs);
          assert forall j :: 0 <= j < |u| ==> Undeleted(s.msgs, 1)[j] == Undeleted(s.msgs, 1)[j - 0];
          UndeletedFacts(s.msgs, 1);
        }
      case WalkBox(w) =>
        if s.phase == InMailbox {
          u := WalkBoxReplay(v, w, s.msgs, s.readOnly);
        }
      case IdleWait(polls) =>
        if s.phase == Authenticated || s.phase == InMailbox {
          u := IdleKeepsStep(v, s, polls);
        }
      case _ =>
    }
  }

  lemma StepKeepsStep(v: View, s: Session, c: Command, e: Env) returns (u: View)
    requires InStep(v, s)
    ensures Replay(v, Step(s, c, e).1) == Some(u) && InStep(u, Step(s, c, e).0)
  {
    var (s1, l1) := if s.userId > 0 && !SkipsRefresh(c) then Refresh(s, e.gen1, e.list1) else (s, []);
    u := v;
    if s.userId > 0 && !SkipsRefresh(c) {
      u := RefreshKeepsStep(v, s, e.gen1, e.list1);
    }
    ReplayConcat(v, l1, Dispatch(s1, c, e).1);
    u := DispatchKeepsStep(u, s1, c, e);
  }

  /** Over every run of commands without APPEND, with the database free to change at every
      point where it is read, a client can replay all lines, no line breaks the rules of
      sections 7.3.1 and 7.4.1 of RFC 3501, and its view agrees with the server's list. */
  lemma {:induction false} RunKeepsStep(v: View, s: Session, script: seq<(Command, Env)>) returns (u: View)
    requires InStep(v, s)
    ensures Replay(v, Run(s, script).1) == Some(u) && InStep(u, Run(s, script).0)
    decreases |script|
  {
    u := v;
    if script != [] {
      var (s1, l1) := Step(s, script[0].0, script[0].1);
      u := StepKeepsStep(v, s, script[0].0, script[0].1);
      ReplayConcat(v, l1, Run(s1, script[1..]).1);
      u := RunKeepsStep(u, s1, script[1..]);
    }
  }

  predicate NoExpunge(ls: seq<Line>) {
    forall l :: l in ls ==> !l.Expunge?
  }

  lemma {:induction false} WalkSendsNoExpunge(w: Walk, ms: seq<Msg>, readOnly: bool)
    ensures NoExpunge(WalkOut(w, ms, readOnly))
  {
    if ms != [] {
      WalkSendsNoExpunge(w, ms[..|ms| - 1], readOnly);
    }
  }

  /** Section 7.4.1: no EXPUNGE while a FETCH, STORE or SEARCH by sequence number is being
      answered, so the numbers in a FETCH or STORE mean what the client meant. Those of a
      SEARCH are taken from the table, not from the list. */
  lemma NoExpungeDuringWalk(s: Session, c: Command, e: Env)
    requires (c.WalkBox? && !c.walk.byUid) || (c.SearchBox? && !c.byUid)
    ensures NoExpunge(Step(s, c, e).1)
  {
    if c.WalkBox? {
      WalkSendsNoExpunge(c.walk, s.msgs, s.readOnly);
    }
  }
}
