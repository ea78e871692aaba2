/** The evaluator of SEARCH: one pass over the keys with two counters, against the boolean
    meaning of the query in section 6.4.4 of RFC 3501. */
module ImapSearch {

  // ----- the evaluator -----

  // A parsed key together with its outcome for the message at hand, or a connective.
  datatype Item = Key(holds: bool) | Not | Or

  datatype Machine = Machine(iOr: int, iNot: int, bOr1: bool, bMatch: bool)

  function Start(): Machine {
    Machine(0, 0, false, true)
  }

  function Feed(m: Machine, item: Item): Machine {
    match item
    case Or => m.(iOr := 2)
    case Not => m.(iNot := 1)
    case Key(holds) =>
      var lit := if m.iNot == 1 then !holds else holds;
      var m' := if m.iNot == 1 then m.(iNot := 0) else m;
      if m.iOr == 2 then m'.(iOr := 1, bOr1 := lit)
      else if m.iOr == 1 then m'.(iOr := 0, bMatch := m.bMatch && (m.bOr1 || lit))
      else if m.iOr == 0 then m'.(bMatch := m.bMatch && lit)
      else m
  }

  function FeedAll(m: Machine, items: seq<Item>): Machine
    decreases |items|
  {
    if items == [] then m else FeedAll(Feed(m, items[0]), items[1..])
  }

  lemma {:induction false} FeedConcat(m: Machine, a: seq<Item>, b: seq<Item>)
    ensures FeedAll(m, a + b) == FeedAll(FeedAll(m, a), b)
    decreases |a|
  {
    if a == [] {
      assert a + b == b;
    } else {
      assert (a + b)[1..] == a[1..] + b;
      FeedConcat(Feed(m, a[0]), a[1..], b);
    }
  }

  /** The loop over the search keys of one message. */
  method Evaluate(items: seq<Item>) returns (bMatch: bool)
    ensures bMatch == FeedAll(Start(), items).bMatch
  {
    var iOr, iNot := 0, 0;
    var bOr1, bOr2 := false, false;
    bMatch := true;
    assert items[0..] == items;
    for i := 0 to |items|
      invariant FeedAll(Machine(iOr, iNot, bOr1, bMatch), items[i..]) == FeedAll(Start(), items)
    {
      assert items[i..][1..] == items[i + 1..];
      match items[i] {
        case Or => iOr := 2;
        case Not => iNot := 1;
        case Key(bResult) =>
          if iOr == 2 {
            iOr := iOr - 1;
            if iNot == 1 {
              iNot := iNot - 1;
              bOr1 := !bResult;
            } else {
              bOr1 := bResult;
            }
          } else if iOr == 1 {
            iOr := iOr - 1;
            if iNot == 1 {
              iNot := iNot - 1;
              bOr2 := !bResult;
            } else {
              bOr2 := bResult;
            }
            if !(bOr1 || bOr2) {
              bMatch := false;
            }
          } else if iOr == 0 {
            if iNot == 1 {
              iNot := iNot - 1;
              if bResult {
                bMatch := false;
              }
            } else if !bResult {
              bMatch := false;
            }
          }
      }
    }
  }

  // ----- queries -----

  /** A search key of RFC 3501 in prefix form. A leaf is an atomic key; its outcome is the
      next value of the valuation. */
  datatype Query = Leaf | Neg(q: Query) | Alt(a: Query, b: Query)

  function Leaves(q: Query): nat {
    match q
    case Leaf => 1
    case Neg(p) => Leaves(p)
    case Alt(a, b) => Leaves(a) + Leaves(b)
  }

  predicate Fits(q: Query, v: seq<bool>) {
    |v| == Leaves(q)
  }

  function Items(q: Query, v: seq<bool>): seq<Item>
    requires Fits(q, v)
  {
    match q
    case Leaf => [Key(v[0])]
    case Neg(p) => [Not] + Items(p, v)
    case Alt(a, b) => [Or] + (Items(a, v[..Leaves(a)]) + Items(b, v[Leaves(a)..]))
  }

  function Meaning(q: Query, v: seq<bool>): bool
    requires Fits(q, v)
  {
    match q
    case Leaf => v[0]
    case Neg(p) => !Meaning(p, v)
    case Alt(a, b) => Meaning(a, v[..Leaves(a)]) || Meaning(b, v[Leaves(a)..])
  }

  // ----- what the machine makes of a query -----

  predicate HasOr(q: Query) {
    match q
    case Leaf => false
    case Neg(p) => HasOr(p)
    case Alt(_, _) => true
  }

  // neg: a NOT is pending. An OR keeps nothing of its operands unless both are literals.
  function Read(q: Query, neg: bool, v: seq<bool>): bool
    requires Fits(q, v)
  {
    match q
    case Leaf => v[0] != neg
    case Neg(p) => Read(p, true, v)
    case Alt(a, b) =>
      var l, r := Read(a, neg, v[..Leaves(a)]), Read(b, false, v[Leaves(a)..]);
      if !HasOr(a) && !HasOr(b) then l || r
      else if HasOr(a) then l && r
      else r
  }

  function Bit(b: bool): int {
    if b then 1 else 0
  }

  // A literal takes the place that the OR counter has for it.
  lemma {:induction false} FeedLiteral(m: Machine, q: Query, v: seq<bool>)
    requires Fits(q, v) && !HasOr(q) && 0 <= m.iOr <= 2 && 0 <= m.iNot <= 1
    ensures FeedAll(m, Items(q, v)) == Feed(m.(iNot := 0), Key(Read(q, m.iNot == 1, v)))
    decreases q
  {
    if q.Neg? {
      FeedLiteral(m.(iNot := 1), q.q, v);
      assert Items(q, v)[1..] == Items(q.q, v);
      assert m.(iNot := 1).(iNot := 0) == m.(iNot := 0);
    } else {
      assert Items(q, v)[1..] == [];
    }
  }

  // Anything containing an OR restarts the OR counter, and leaves both counters at zero.
  lemma {:induction false} FeedQuery(m: Machine, q: Query, v: seq<bool>)
    requires Fits(q, v) && 0 <= m.iOr <= 2 && 0 <= m.iNot <= 1
    requires HasOr(q) || m.iOr == 0
    ensures var r := FeedAll(m, Items(q, v));
      r.iOr == 0 && r.iNot == 0 && r.bMatch == (m.bMatch && Read(q, m.iNot == 1, v))
    decreases q
  {
    if !HasOr(q) {
      FeedLiteral(m, q, v);
    } else if q.Neg? {
      assert Items(q, v)[1..] == Items(q.q, v);
      FeedQuery(m.(iNot := 1), q.q, v);
    } else {
      var va, vb := v[..Leaves(q.a)], v[Leaves(q.a)..];
      var m2 := m.(iOr := 2);
      assert Items(q, v)[1..] == Items(q.a, va) + Items(q.b, vb);
      FeedConcat(m2, Items(q.a, va), Items(q.b, vb));
      var m1 := FeedAll(m2, Items(q.a, va));
      if HasOr(q.a) {
        FeedQuery(m2, q.a, va);
        FeedQuery(m1, q.b, vb);
      } else {
        FeedLiteral(m2, q.a, va);
        if HasOr(q.b) {
          FeedQuery(m1, q.b, vb);
        } else {
          FeedLiteral(m1, q.b, vb);
        }
      }
    }
  }

  // ----- when that is the meaning -----

  /** The machine reads q, with or without a pending NOT, as q itself (sign) or as its
      negation (!sign), whatever the keys say. */
  predicate Exact(q: Query, neg: bool, sign: bool) {
    match q
    case Leaf => neg != sign
    case Neg(p) => Exact(p, true, !sign)
    case Alt(a, b) =>
      if sign then !HasOr(a) && !HasOr(b) && Exact(a, neg, true) && Exact(b, false, true)
      else HasOr(a) && Exact(a, neg, false) && Exact(b, false, false)
  }

  lemma {:induction false} ExactReads(q: Query, neg: bool, sign: bool, v: seq<bool>)
    requires Fits(q, v) && Exact(q, neg, sign)
    ensures Read(q, neg, v) == (Meaning(q, v) == sign)
  {
    match q {
      case Leaf =>
      case Neg(p) => ExactReads(p, true, !sign, v);
      case Alt(a, b) =>
        ExactReads(a, neg, sign, v[..Leaves(a)]);
        ExactReads(b, false, sign, v[Leaves(a)..]);
    }
  }

  // Without OR there is one key, read either as it is or negated.
  lemma {:induction false} LiteralSign(q: Query, neg: bool)
    requires !HasOr(q)
    ensures Exact(q, neg, true) != Exact(q, neg, false)
  {
    if q.Neg? {
      LiteralSign(q.q, true);
    }
  }

  // The meaning and the machine's reading can each be made true or false.
  lemma {:induction false} Choose(q: Query, want: bool) returns (v: seq<bool>)
    ensures Fits(q, v) && Meaning(q, v) == want
  {
    match q {
      case Leaf => v := [want];
      case Neg(p) => v := Choose(p, !want);
      case Alt(a, b) =>
        var va := Choose(a, want);
        var vb := Choose(b, want);
        v := Join(q, va, vb);
    }
  }

  lemma {:induction false} ChooseRead(q: Query, neg: bool, want: bool) returns (v: seq<bool>)
    ensures Fits(q, v) && Read(q, neg, v) == want
  {
    match q {
      case Leaf => v := [want != neg];
      case Neg(p) => v := ChooseRead(p, true, want);
      case Alt(a, b) =>
        var va := ChooseRead(a, neg, want);
        var vb := ChooseRead(b, false, want);
        v := Join(q, va, vb);
    }
  }

  lemma Join(q: Query, va: seq<bool>, vb: seq<bool>) returns (v: seq<bool>)
    requires q.Alt? && Fits(q.a, va) && Fits(q.b, vb)
    ensures Fits(q, v) && v[..Leaves(q.a)] == va && v[Leaves(q.a)..] == vb
  {
    v := va + vb;
  }

  // A literal the machine does not read as sign is true where its reading is not sign.
  lemma MisreadLiteral(q: Query, neg: bool, v: seq<bool>)
    requires Fits(q, v) && !HasOr(q) && !Exact(q, neg, true)
    ensures Read(q, neg, v) != Meaning(q, v)
  {
    LiteralSign(q, neg);
    ExactReads(q, neg, false, v);
  }

  /** Wherever Exact fails, the keys can turn out such that the reading is wrong. */
  lemma {:induction false} Misread(q: Query, neg: bool, sign: bool) returns (v: seq<bool>)
    requires !Exact(q, neg, sign)
    ensures Fits(q, v) && Read(q, neg, v) != (Meaning(q, v) == sign)
  {
    match q {
      case Leaf => v := [true];
      case Neg(p) => v := Misread(p, true, !sign);
      case Alt(a, b) =>
        var va, vb;
        if sign {
          va, vb := MisreadOr(a, b, neg);
        } else {
          if HasOr(a) && !Exact(a, neg, false) {
            va := Misread(a, neg, false);
            if Meaning(a, va) {
              vb := ChooseRead(b, false, true);
            } else {
              vb := Choose(b, false);
            }
          } else if HasOr(a) {
            vb := Misread(b, false, false);
            if Meaning(b, vb) {
              va := ChooseRead(a, neg, true);
            } else {
              va := Choose(a, false);
            }
          } else {
            va := Choose(a, true);
            vb := ChooseRead(b, false, true);
          }
        }
        v := Join(q, va, vb);
    }
  }

  // An OR that is not read as such: true, but read as false.
  lemma MisreadOr(a: Query, b: Query, neg: bool) returns (va: seq<bool>, vb: seq<bool>)
    requires !Exact(Alt(a, b), neg, true)
    ensures Fits(a, va) && Fits(b, vb) && (Meaning(a, va) || Meaning(b, vb))
    ensures !Read(b, false, vb) && (!HasOr(a) && !HasOr(b) ==> !Read(a, neg, va))
  {
    if HasOr(a) || HasOr(b) {
      va := Choose(a, true);
      vb := ChooseRead(b, false, false);
    } else if !Exact(a, neg, true) {
      va := Choose(a, true);
      MisreadLiteral(a, neg, va);
      vb := ChooseRead(b, false, false);
    } else {
      va := ChooseRead(a, neg, false);
      vb := Choose(b, true);
      MisreadLiteral(b, false, vb);
    }
  }

  // ----- whole searches -----

  function AllLeaves(qs: seq<Query>): nat {
    if qs == [] then 0 else Leaves(qs[0]) + AllLeaves(qs[1..])
  }

  function AllItems(qs: seq<Query>, v: seq<bool>): seq<Item>
    requires |v| == AllLeaves(qs)
  {
    if qs == [] then []
    else Items(qs[0], v[..Leaves(qs[0])]) + AllItems(qs[1..], v[Leaves(qs[0])..])
  }

  // Several keys mean their conjunction.
  function AllHold(qs: seq<Query>, v: seq<bool>): bool
    requires |v| == AllLeaves(qs)
  {
    qs == [] || (Meaning(qs[0], v[..Leaves(qs[0])]) && AllHold(qs[1..], v[Leaves(qs[0])..]))
  }

  function AllRead(qs: seq<Query>, v: seq<bool>): bool
    requires |v| == AllLeaves(qs)
  {
    qs == [] || (Read(qs[0], false, v[..Leaves(qs[0])]) && AllRead(qs[1..], v[Leaves(qs[0])..]))
  }

  lemma {:induction false} FeedSearch(m: Machine, qs: seq<Query>, v: seq<bool>)
    requires |v| == AllLeaves(qs) && m.iOr == 0 && m.iNot == 0
    ensures FeedAll(m, AllItems(qs, v)).bMatch == (m.bMatch && AllRead(qs, v))
    decreases |qs|
  {
    if qs != [] {
      var va, vb := v[..Leaves(qs[0])], v[Leaves(qs[0])..];
      FeedConcat(m, Items(qs[0], va), AllItems(qs[1..], vb));
      FeedQuery(m, qs[0], va);
      FeedSearch(FeedAll(m, Items(qs[0], va)), qs[1..], vb);
    }
  }

  predicate AllExact(qs: seq<Query>) {
    forall i :: 0 <= i < |qs| ==> Exact(qs[i], false, true)
  }

  function Answer(qs: seq<Query>, v: seq<bool>): bool
    requires |v| == AllLeaves(qs)
  {
    FeedAll(Start(), AllItems(qs, v)).bMatch
  }

  lemma {:induction false} ExactSearch(qs: seq<Query>, v: seq<bool>)
    requires AllExact(qs) && |v| == AllLeaves(qs)
    ensures AllRead(qs, v) == AllHold(qs, v)
    decreases |qs|
  {
    if qs != [] {
      ExactReads(qs[0], false, true, v[..Leaves(qs[0])]);
      ExactSearch(qs[1..], v[Leaves(qs[0])..]);
    }
  }

  lemma {:induction false} ChooseAll(qs: seq<Query>, read: bool) returns (v: seq<bool>)
    ensures |v| == AllLeaves(qs) && (if read then AllRead(qs, v) else AllHold(qs, v))
    decreases |qs|
  {
    v := [];
    if qs != [] {
      var head;
      if read {
        head := ChooseRead(qs[0], false, true);
      } else {
        head := Choose(qs[0], true);
      }
      var tail := ChooseAll(qs[1..], read);
      v := head + tail;
      assert v[..|head|] == head && v[|head|..] == tail;
    }
  }

  lemma {:induction false} MisreadSearch(qs: seq<Query>, i: nat) returns (v: seq<bool>)
    requires i < |qs| && !Exact(qs[i], false, true)
    ensures |v| == AllLeaves(qs) && AllRead(qs, v) != AllHold(qs, v)
    decreases |qs|
  {
    var head, tail;
    if i == 0 {
      head := Misread(qs[0], false, true);
      tail := ChooseAll(qs[1..], Read(qs[0], false, head));
    } else {
      tail := MisreadSearch(qs[1..], i - 1);
      if AllRead(qs[1..], tail) {
        head := ChooseRead(qs[0], false, true);
      } else {
        head := Choose(qs[0], true);
      }
    }
    v := head + tail;
    assert v[..|head|] == head && v[|head|..] == tail;
  }

  /** A search is answered by the meaning of its keys for every outcome of the atomic keys if
      and only if each of its keys is Exact. */
  lemma SearchCorrectIffExact(qs: seq<Query>)
    ensures (forall v :: |v| == AllLeaves(qs) ==> Answer(qs, v) == AllHold(qs, v)) <==> AllExact(qs)
  {
    forall v | |v| == AllLeaves(qs)
      ensures Answer(qs, v) == AllRead(qs, v)
      ensures AllExact(qs) ==> Answer(qs, v) == AllHold(qs, v)
    {
      FeedSearch(Start(), qs, v);
      if AllExact(qs) {
        ExactSearch(qs, v);
      }
    }
    if !AllExact(qs) {
      var i :| 0 <= i < |qs| && !Exact(qs[i], false, true);
      var v := MisreadSearch(qs, i);
      assert Answer(qs, v) != AllHold(qs, v);
    }
  }

  /** What plain command lines find: a key, NOT key, OR of two keys, several keys together. */
  lemma PlainAnswers(x: bool, y: bool)
    ensures FeedAll(Start(), [Key(x)]).bMatch == x && FeedAll(Start(), [Not, Key(x)]).bMatch == !x
    ensures FeedAll(Start(), [Or, Key(x), Key(y)]).bMatch == (x || y)
    ensures FeedAll(Start(), [Or, Not, Key(x), Key(y)]).bMatch == (!x || y)
    ensures FeedAll(Start(), [Key(x), Key(y)]).bMatch == (x && y)
  {
    hide FeedAll;
    var m := Start();
    FeedFirst(m, Key(x), []);
    FeedFirst(m, Not, [Key(x)]);
    FeedFirst(Feed(m, Not), Key(x), []);
    FeedFirst(m, Key(x), [Key(y)]);
    FeedFirst(Feed(m, Key(x)), Key(y), []);
    FeedFirst(m, Or, [Key(x), Key(y)]);
    FeedFirst(Feed(m, Or), Key(x), [Key(y)]);
    FeedFirst(Feed(Feed(m, Or), Key(x)), Key(y), []);
    FeedFirst(m, Or, [Not, Key(x), Key(y)]);
    FeedFirst(Feed(m, Or), Not, [Key(x), Key(y)]);
    FeedFirst(Feed(Feed(m, Or), Not), Key(x), [Key(y)]);
    FeedFirst(Feed(Feed(Feed(m, Or), Not), Key(x)), Key(y), []);
    FeedNothing();
    assert [Not, Key(x)] == [Not] + [Key(x)] && [Key(x), Key(y)] == [Key(x)] + [Key(y)];
    assert [Not, Key(x), Key(y)] == [Not] + [Key(x), Key(y)] && [Or, Key(x), Key(y)] == [Or] + [Key(x), Key(y)];
    assert [Or, Not, Key(x), Key(y)] == [Or] + [Not, Key(x), Key(y)];
    assert [Key(x)] == [Key(x)] + [] && [Key(y)] == [Key(y)] + [];
  }

  lemma FeedFirst(m: Machine, item: Item, rest: seq<Item>)
    ensures FeedAll(m, [item] + rest) == FeedAll(Feed(m, item), rest)
    ensures rest == [] ==> [item] + rest == [item]
  {
    assert ([item] + rest)[1..] == rest;
  }

  lemma FeedNothing()
    ensures forall m :: FeedAll(m, []) == m
  {
  }

  predicate Literal(q: Query) {
    q == Leaf || q == Neg(Leaf)
  }

  /** Exact covers every key that is a literal or an OR of two literals, and neither a
      doubled NOT, nor NOT before OR, nor an OR inside an OR. */
  lemma PlainSearchesAreExact(q: Query, r: Query)
    requires Literal(q) && Literal(r)
    ensures Exact(q, false, true) && Exact(Alt(q, r), false, true)
    ensures !Exact(Neg(Neg(Leaf)), false, true) && !Exact(Neg(Alt(q, r)), false, true)
    ensures forall p :: !Exact(Alt(p, Alt(q, r)), false, true) && !Exact(Alt(Alt(q, r), p), false, true)
  {
  }
}
