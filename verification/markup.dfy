/**
  Removing inserted markup: the rules that wrap text in an element
  (`<abbr>`, `<sup>`) are undone by deleting the opening and closing tags,
  as long as the original text had no `<` of its own.
 */
module Markup {

  /** Delete every occurrence of the tags `open` and `close`, left to right. */
  function Unmark(open: string, close: string, t: string): string
    requires |open| > 0 && |close| > 0
    decreases |t|
  {
    if |t| == 0 then []
    else if |open| <= |t| && t[..|open|] == open then Unmark(open, close, t[|open|..])
    else if |close| <= |t| && t[..|close|] == close then Unmark(open, close, t[|close|..])
    else [t[0]] + Unmark(open, close, t[1..])
  }

  /** Both tags start with `<` and neither is a prefix of the other. */
  predicate TagPair(open: string, close: string) {
    && |open| > 0 && |close| > 0 && open[0] == '<' && close[0] == '<'
    && |open| <= |close| && close[..|open|] != open
  }

  predicate NoOpenBracket(t: string) {
    forall j :: 0 <= j < |t| ==> t[j] != '<'
  }

  /** Text without `<` passes through unchanged. */
  lemma {:induction false} UnmarkPlain(open: string, close: string, a: string, b: string)
    requires TagPair(open, close) && NoOpenBracket(a)
    ensures Unmark(open, close, a + b) == a + Unmark(open, close, b)
    decreases |a|
  {
    if |a| == 0 {
      assert a + b == b;
    } else {
      var t := a + b;
      assert t[0] == a[0] && t[1..] == a[1..] + b;
      assert |open| <= |t| ==> t[..|open|] != open by {
        if |open| <= |t| {
          assert t[..|open|][0] != open[0];
        }
      }
      assert |close| <= |t| ==> t[..|close|] != close by {
        if |close| <= |t| {
          assert t[..|close|][0] != close[0];
        }
      }
      UnmarkPlain(open, close, a[1..], b);
    }
  }

  lemma UnmarkOpen(open: string, close: string, b: string)
    requires TagPair(open, close)
    ensures Unmark(open, close, open + b) == Unmark(open, close, b)
  {
    var t := open + b;
    assert t[..|open|] == open && t[|open|..] == b;
  }

  lemma UnmarkClose(open: string, close: string, b: string)
    requires TagPair(open, close)
    ensures Unmark(open, close, close + b) == Unmark(open, close, b)
  {
    var t := close + b;
    assert t[..|close|] == close && t[|close|..] == b;
    assert t[..|open|] == close[..|open|];
  }

  /** `a<open>b<close>` loses its two tags. */
  lemma UnmarkWrapped(open: string, close: string, a: string, b: string, rest: string)
    requires TagPair(open, close) && NoOpenBracket(a) && NoOpenBracket(b)
    ensures Unmark(open, close, a + open + b + close + rest) == a + b + Unmark(open, close, rest)
  {
    assert a + open + b + close + rest == a + (open + (b + (close + rest)));
    UnmarkPlain(open, close, a, open + (b + (close + rest)));
    UnmarkOpen(open, close, b + (close + rest));
    UnmarkPlain(open, close, b, close + rest);
    UnmarkClose(open, close, rest);
  }
}
