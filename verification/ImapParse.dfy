/** Parenthesised lists on a command line. */
module ImapParse {

  // ParseList between two characters: the depth of brackets, the element being read, and
  // the elements read.
  datatype Parser = Parser(open: nat, elem: string, result: seq<string>)

  predicate Opens(c: char) {
    c == '(' || c == '['
  }

  predicate Closes(c: char) {
    c == ')' || c == ']'
  }

  function Push(p: Parser, open: nat): Parser {
    Parser(open, "", p.result + [p.elem])
  }

  function Feed(p: Parser, c: char): Parser {
    if Opens(c) then Parser(p.open + 1, if p.open > 0 then p.elem + [c] else p.elem, p.result)
    else if Closes(c) then
      if p.open == 0 then p.(elem := p.elem + [c])
      else if p.open > 1 then p.(open := p.open - 1, elem := p.elem + [c])
      else Push(p, 0)
    else if c == '\r' then p
    else if c == ' ' then if p.open > 1 then p.(elem := p.elem + [c]) else Push(p, p.open)
    else p.(elem := p.elem + [c])
  }

  function FeedAll(p: Parser, line: string): Parser
    decreases |line|
  {
    if line == "" then p else FeedAll(Feed(p, line[0]), line[1..])
  }

  function Parsed(line: string): seq<string> {
    FeedAll(Parser(0, "", []), line).result
  }

  // ----- lists of well-formed elements -----

  // d brackets are open: those that follow are balanced, with blanks only inside.
  predicate WellFrom(e: string, d: nat) {
    if e == "" then d == 0
    else if Opens(e[0]) then WellFrom(e[1..], d + 1)
    else if Closes(e[0]) then d > 0 && WellFrom(e[1..], d - 1)
    else e[0] != '\r' && (e[0] == ' ' ==> d > 0) && WellFrom(e[1..], d)
  }

  predicate Well(e: string) {
    WellFrom(e, 0)
  }

  function Spaced(es: seq<string>): string
    requires es != []
  {
    if |es| == 1 then es[0] else es[0] + " " + Spaced(es[1..])
  }

  function Listed(es: seq<string>): string
    requires es != []
  {
    "(" + Spaced(es) + ")"
  }

  lemma {:induction false} FeedSum(p: Parser, a: string, b: string)
    ensures FeedAll(p, a + b) == FeedAll(FeedAll(p, a), b)
    decreases |a|
  {
    if a == "" {
      assert a + b == b;
    } else {
      assert (a + b)[1..] == a[1..] + b;
      FeedSum(Feed(p, a[0]), a[1..], b);
    }
  }

  lemma FeedNone(p: Parser)
    ensures FeedAll(p, "") == p
  {
  }

  lemma FeedOne(p: Parser, c: char, rest: string)
    ensures FeedAll(p, [c] + rest) == FeedAll(Feed(p, c), rest)
  {
    assert ([c] + rest)[1..] == rest;
  }

  // A well-formed element is taken over as it is.
  lemma {:induction false} FeedWell(p: Parser, e: string, d: nat)
    requires WellFrom(e, d) && p.open == d + 1
    ensures FeedAll(p, e) == Parser(1, p.elem + e, p.result)
    decreases |e|
  {
    if e == "" {
      assert p.elem + e == p.elem;
    } else {
      var q := Feed(p, e[0]);
      FeedWell(q, e[1..], q.open - 1);
      assert p.elem + e == p.elem + [e[0]] + e[1..];
    }
  }

  // What has been read stays.
  lemma {:induction false} ResultGrows(p: Parser, line: string)
    ensures var r := FeedAll(p, line).result; |p.result| <= |r| && r[..|p.result|] == p.result
    decreases |line|
  {
    if line != "" {
      var q := Feed(p, line[0]);
      ResultGrows(q, line[1..]);
      var r := FeedAll(p, line).result;
      assert q.result[..|p.result|] == p.result;
      assert r[..|p.result|] == r[..|q.result|][..|p.result|];
    }
  }

  // The first element read from here is not target.
  predicate NextDiffers(p: Parser, line: string, target: string) {
    var r := FeedAll(p, line).result; |r| > |p.result| ==> r[|p.result|] != target
  }

  lemma {:induction false} LongerDiffers(p: Parser, line: string, target: string)
    requires |p.elem| > |target|
    ensures NextDiffers(p, line, target)
    decreases |line|
  {
    if line != "" {
      var q := Feed(p, line[0]);
      if q.result == p.result {
        LongerDiffers(q, line[1..], target);
      } else {
        PushedDiffers(p, q, line[1..], target);
      }
    }
  }

  lemma PushedDiffers(p: Parser, q: Parser, line: string, target: string)
    requires q.result == p.result + [p.elem] && p.elem != target
    ensures var r := FeedAll(q, line).result; |r| > |p.result| && r[|p.result|] != target
  {
    ResultGrows(q, line);
    var r := FeedAll(q, line).result;
    assert r[..|q.result|][|p.result|] == p.elem;
  }

  // An element that is not well-formed is cut short or runs on into what follows it.
  lemma {:induction false} FeedBad(p: Parser, e: string, d: nat, c: char, rest: string)
    requires !WellFrom(e, d) && p.open == d + 1 && '\r' !in e && (c == ' ' || c == ')')
    ensures NextDiffers(p, e + [c] + rest, p.elem + e)
    decreases |e|
  {
    var line := e + [c] + rest;
    var q := Feed(p, line[0]);
    if e == "" {
      assert line[1..] == rest;
      LongerDiffers(q, rest, p.elem + e);
    } else {
      assert line[1..] == e[1..] + [c] + rest;
      assert p.elem + e == p.elem + [e[0]] + e[1..];
      if q.result != p.result {
        PushedDiffers(p, q, line[1..], p.elem + e);
      } else {
        FeedBad(q, e[1..], q.open - 1, c, rest);
      }
    }
  }

  // No element read has a carriage return in it.
  lemma {:induction false} NoReturns(p: Parser, line: string)
    requires '\r' !in p.elem && forall x :: x in p.result ==> '\r' !in x
    ensures forall x :: x in FeedAll(p, line).result ==> '\r' !in x
    decreases |line|
  {
    if line != "" {
      NoReturns(Feed(p, line[0]), line[1..]);
    }
  }

  lemma GoodElement(done: seq<string>, e: string, c: char, rest: string)
    requires Well(e) && (c == ' ' || c == ')')
    ensures FeedAll(Parser(1, "", done), e + [c] + rest)
         == FeedAll(Parser(if c == ' ' then 1 else 0, "", done + [e]), rest)
    ensures rest == "" ==> FeedAll(Parser(1, "", done), e + [c] + rest).result == done + [e]
  {
    hide FeedAll, WellFrom;
    var p := Parser(1, "", done);
    FeedWell(p, e, 0);
    FeedSum(p, e, [c] + rest);
    FeedOne(Parser(1, e, done), c, rest);
    assert "" + e == e && e + ([c] + rest) == e + [c] + rest;
    FeedNone(Parser(if c == ' ' then 1 else 0, "", done + [e]));
  }

  lemma {:induction false} SpacedIff(done: seq<string>, es: seq<string>)
    requires es != [] && forall e :: e in es ==> '\r' !in e
    ensures FeedAll(Parser(1, "", done), Spaced(es) + ")").result == done + es <==> forall e :: e in es ==> Well(e)
    decreases |es|
  {
    hide FeedAll, WellFrom;
    var p, e := Parser(1, "", done), es[0];
    var c, rest := if |es| == 1 then ')' else ' ', if |es| == 1 then "" else Spaced(es[1..]) + ")";
    assert Spaced(es) + ")" == e + [c] + rest;
    if Well(e) {
      GoodElement(done, e, c, rest);
      if |es| == 1 {
        assert es == [e];
      } else {
        SpacedIff(done + [e], es[1..]);
        assert es == [e] + es[1..];
        assert done + [e] + es[1..] == done + es;
      }
    } else {
      FeedBad(p, e, 0, c, rest);
      assert "" + e == e && (done + es)[|done|] == e;
    }
  }

  /** The elements of a list come back exactly if each has balanced brackets, blanks only
      inside brackets, and no carriage return. */
  lemma ListBackIff(es: seq<string>)
    requires es != []
    ensures Parsed(Listed(es)) == es <==> forall e :: e in es ==> Well(e)
  {
    var p := Parser(0, "", []);
    assert Listed(es) == ['('] + (Spaced(es) + ")");
    FeedOne(p, '(', Spaced(es) + ")");
    if e :| e in es && '\r' in e {
      NoReturns(p, Listed(es));
      ReturnNotWell(e, 0);
    } else {
      SpacedIff([], es);
      assert [] + es == es;
    }
  }

  /** An empty list is read as a list of one empty element. */
  lemma EmptyList()
    ensures Parsed("()") == [""]
  {
    var p := Parser(0, "", []);
    assert "()" == ['('] + ")" && ")" == [')'] + "";
    FeedOne(p, '(', ")");
    FeedOne(Parser(1, "", []), ')', "");
  }

  /** Brackets inside an element keep what is between them together. */
  lemma NestedList()
    ensures Parsed("(a (b c) d)") == ["a", "(b c)", "d"]
  {
    var es := ["a", "(b c)", "d"];
    assert es[1..] == ["(b c)", "d"] && es[1..][1..] == ["d"];
    assert Spaced(es) == "a" + " " + ("(b c)" + " " + "d");
    assert Listed(es) == "(a (b c) d)";
    WellWord();
    WellBrackets();
    ListBackIff(es);
  }

  lemma WellWord()
    ensures Well("a") && Well("d")
  {
    assert "a"[1..] == "" && "d"[1..] == "";
  }

  lemma WellBrackets()
    ensures Well("(b c)")
  {
    assert "(b c)"[1..] == "b c)" && "b c)"[1..] == " c)" && " c)"[1..] == "c)" && "c)"[1..] == ")" && ")"[1..] == "";
    assert WellFrom("c)", 1) && WellFrom(" c)", 1) && WellFrom("b c)", 1);
  }

  lemma {:induction false} ReturnNotWell(e: string, d: nat)
    requires '\r' in e
    ensures !WellFrom(e, d)
    decreases |e|
  {
    if Opens(e[0]) {
      ReturnNotWell(e[1..], d + 1);
    } else if Closes(e[0]) {
      if d > 0 {
        ReturnNotWell(e[1..], d - 1);
      }
    } else if e[0] != '\r' {
      ReturnNotWell(e[1..], d);
    }
  }

  // ----- the procedure -----

  method ParseList(line: string) returns (result: seq<string>)
    ensures result == Parsed(line)
  {
    var elem, open := "", 0;
    result := [];
    assert line[0..] == line;
    for i := 0 to |line|
      invariant open >= 0 && FeedAll(Parser(open, elem, result), line[i..]).result == Parsed(line)
    {
      var c := line[i];
      assert line[i..][1..] == line[i + 1..];
      match c {
        case '[' | '(' =>
          if open > 0 {
            elem := elem + [c];
          }
          open := open + 1;
        case ']' | ')' =>
          if open == 0 {
            elem := elem + [c];
          } else {
            open := open - 1;
            if open != 0 {
              elem := elem + [c];
            } else {
              result := result + [elem];
              elem := "";
            }
          }
        case '\r' =>
        case ' ' =>
          if open > 1 {
            elem := elem + [c];
          } else {
            result := result + [elem];
            elem := "";
          }
        case _ =>
          elem := elem + [c];
      }
    }
  }
}
