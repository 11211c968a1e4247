/**
  `ellipses` (and the older `ellipsis` record, the same pattern without the
  tag guard): a run-by-run description of the output, idempotence, the
  absence of `..` outside tags afterwards, and the preservation of all
  other characters.
 */
module EllipsisProofs {
  import opened Chars
  import opened Patterns
  import opened Matchers
  import opened Replace
  import opened Views
  import CommonRules
  import LegacyRules

  /** The output run by run: every maximal run of dots that has at least two
      dots and does not start inside a tag (for the guarded rule) becomes one
      ellipsis, every other run and character is copied. `inTag` is the tag
      state at the head of t. */
  function Collapsed(guarded: bool, inTag: bool, t: string): string
    decreases |t|
  {
    if |t| == 0 then []
    else
      var n := DotRunEnd(t, 0);
      if n == 0 then [t[0]] + Collapsed(guarded, TagStep(inTag, t[0]), t[1..])
      else (if n >= 2 && !(guarded && inTag) then [ELLIPSIS] else t[..n]) + Collapsed(guarded, inTag, t[n..])
  }

  /** The dot run of a suffix is the dot run of the text from there. */
  lemma DotRunOfSuffix(s: string, i: nat)
    requires i <= |s|
    ensures DotRunEnd(s[i..], 0) == DotRunEnd(s, i) - i
  {
  }

  /** The matcher of `ellipses` on its own. */
  function Dots(g: bool): Matcher {
    (s: string, i: nat) => if i < |s| then EllipsisAt(g, s, i) else None
  }

  lemma ApplyIsDots(g: bool, s: string)
    ensures Apply(CollapseDots(g), s) == ScanWith(Dots(g), s, 0)
  {
    forall p | 0 <= p < |s|
      ensures MatcherOf(CollapseDots(g))(s, p) == Dots(g)(s, p)
    {
      assert MatchAt(CollapseDots(g), s, p) == EllipsisAt(g, s, p);
    }
    ScanWithAgree(MatcherOf(CollapseDots(g)), Dots(g), s, 0);
  }

  /** One step of the scan at i: a character that is not a dot is copied,
      a run of two or more dots outside a tag becomes an ellipsis, any other
      dot run is copied. */
  lemma DotsStep(g: bool, s: string, i: nat)
    requires i < |s|
    ensures var e := DotRunEnd(s, i);
            && (e == i ==> ScanWith(Dots(g), s, i) == [s[i]] + ScanWith(Dots(g), s, i + 1))
            && (e >= i + 2 && !Blocked(g, s, i) ==> ScanWith(Dots(g), s, i) == [ELLIPSIS] + ScanWith(Dots(g), s, e))
            && (e > i && !(e >= i + 2 && !Blocked(g, s, i)) ==> ScanWith(Dots(g), s, i) == s[i..e] + ScanWith(Dots(g), s, e))
  {
    var m := Dots(g);
    var e := DotRunEnd(s, i);
    if e > i && !(e >= i + 2 && !Blocked(g, s, i)) {
      forall p | i <= p < e
        ensures !Proper(m, s, p)
      {
        InTagAcrossPlainText(s, i, p);
      }
      ScanCopies(m, s, i, e);
    }
  }

  /** Collapsed after a first dot run of n dots. */
  lemma CollapsedRun(g: bool, st: bool, t: string, n: nat)
    requires 0 < n <= |t| && n == DotRunEnd(t, 0)
    ensures Collapsed(g, st, t) == (if n >= 2 && !(g && st) then [ELLIPSIS] else t[..n]) + Collapsed(g, st, t[n..])
  {
  }

  lemma {:induction false} ScanIsCollapsed(g: bool, s: string, i: nat)
    requires i <= |s|
    ensures ScanWith(Dots(g), s, i) == Collapsed(g, InTag(s, i), s[i..])
    decreases |s| - i
  {
    if i < |s| {
      var t := s[i..];
      var st := InTag(s, i);
      DotRunOfSuffix(s, i);
      DotsStep(g, s, i);
      var e := DotRunEnd(s, i);
      var n := e - i;
      if n == 0 {
        ScanIsCollapsed(g, s, i + 1);
        assert t[1..] == s[i + 1..];
        assert InTag(s, i + 1) == TagStep(st, t[0]);
        calc {
          ScanWith(Dots(g), s, i);
          [s[i]] + ScanWith(Dots(g), s, i + 1);
          [t[0]] + Collapsed(g, TagStep(st, t[0]), t[1..]);
          Collapsed(g, st, t);
        }
      } else {
        ScanIsCollapsed(g, s, e);
        assert t[n..] == s[e..];
        assert t[..n] == s[i..e];
        InTagAcrossPlainText(s, i, e);
        CollapsedRun(g, st, t, n);
      }
    }
  }

  /** `ellipses` is the run-by-run description above. */
  lemma ApplyIsCollapsed(g: bool, s: string)
    ensures Apply(CollapseDots(g), s) == Collapsed(g, false, s)
  {
    ApplyIsDots(g, s);
    ScanIsCollapsed(g, s, 0);
    assert s[0..] == s;
  }

  lemma CollapsedHead(g: bool, st: bool, t: string)
    requires |t| > 0 && t[0] != '.'
    ensures |Collapsed(g, st, t)| > 0 && Collapsed(g, st, t)[0] == t[0]
  {
  }

  lemma {:induction false} CollapsedIdempotent(g: bool, st: bool, t: string)
    ensures Collapsed(g, st, Collapsed(g, st, t)) == Collapsed(g, st, t)
    decreases |t|
  {
    if |t| > 0 {
      var n := DotRunEnd(t, 0);
      if n == 0 {
        var st' := TagStep(st, t[0]);
        var rest := Collapsed(g, st', t[1..]);
        CollapsedIdempotent(g, st', t[1..]);
        assert ([t[0]] + rest)[1..] == rest;
      } else {
        var rest := t[n..];
        var out := Collapsed(g, st, rest);
        CollapsedIdempotent(g, st, rest);
        if |rest| > 0 {
          CollapsedHead(g, st, rest);
        }
        if n >= 2 && !(g && st) {
          assert ([ELLIPSIS] + out)[1..] == out;
        } else {
          var x := t[..n] + out;
          assert DotRunEnd(x, 0) == n by {
            assert forall j :: 0 <= j < n ==> x[j] == '.';
            assert n == |x| || x[n] != '.';
          }
          assert x[..n] == t[..n] && x[n..] == out;
        }
      }
    }
  }

  /** Running the rule twice is the same as running it once. */
  lemma ApplyIdempotent(g: bool, s: string)
    ensures Apply(CollapseDots(g), Apply(CollapseDots(g), s)) == Apply(CollapseDots(g), s)
  {
    ApplyIsCollapsed(g, s);
    ApplyIsCollapsed(g, Collapsed(g, false, s));
    CollapsedIdempotent(g, false, s);
  }

  /** Two adjacent dots that can start a match outside a tag. */
  predicate DoubleDotAt(g: bool, o: string, j: nat)
    requires j < |o|
  {
    j + 1 < |o| && o[j] == '.' && o[j + 1] == '.' && !Blocked(g, o, j)
  }

  /** The texts the rule leaves alone are exactly those without `..` outside tags. */
  lemma FixedIffNoDoubleDots(g: bool, o: string)
    ensures Apply(CollapseDots(g), o) == o <==> forall j :: 0 <= j < |o| ==> !DoubleDotAt(g, o, j)
  {
    var m := Dots(g);
    ApplyIsDots(g, o);
    if forall j :: 0 <= j < |o| ==> !DoubleDotAt(g, o, j) {
      forall p | 0 <= p < |o|
        ensures !Proper(m, o, p)
      {
        assert !DoubleDotAt(g, o, p);
      }
      ScanUnchanged(m, o);
    } else {
      var j :| 0 <= j < |o| && DoubleDotAt(g, o, j);
      ChangesWhenHit(m, o, j);
    }
  }

  /** After the rule no `..` is left outside tags. */
  lemma NoDoubleDotsLeft(g: bool, s: string)
    ensures var o := Apply(CollapseDots(g), s);
            forall j :: 0 <= j < |o| ==> !DoubleDotAt(g, o, j)
  {
    ApplyIdempotent(g, s);
    FixedIffNoDoubleDots(g, Apply(CollapseDots(g), s));
  }

  /** The text without its dots and ellipses. */
  function NoDots(c: char): string {
    if c == '.' || c == ELLIPSIS then [] else [c]
  }

  lemma {:induction false} DotsProjectToNothing(t: string)
    requires forall j :: 0 <= j < |t| ==> t[j] == '.'
    ensures Project(NoDots, t) == []
    decreases |t|
  {
    if |t| > 0 {
      DotsProjectToNothing(t[1..]);
    }
  }

  /** Every character other than `.` and `…` is kept, in order. */
  lemma KeepsOtherCharacters(g: bool, s: string)
    ensures Project(NoDots, Apply(CollapseDots(g), s)) == Project(NoDots, s)
  {
    var m := Dots(g);
    forall p | 0 <= p < |s| && Proper(m, s, p)
      ensures Project(NoDots, m(s, p).value.out) == Project(NoDots, s[p..m(s, p).value.end])
    {
      DotsProjectToNothing(s[p..m(s, p).value.end]);
    }
    ApplyIsDots(g, s);
    ScanKeepsProjectionAll(m, NoDots, s);
  }

  /** A stretch without dots is copied and only moves the tag state on. */
  lemma {:induction false} CollapsedPlain(g: bool, st: bool, a: string, b: string)
    requires forall j :: 0 <= j < |a| ==> a[j] != '.'
    ensures Collapsed(g, st, a + b) == a + Collapsed(g, StateAfter(st, a), b)
    decreases |a|
  {
    if |a| > 0 {
      assert (a + b)[0] == a[0];
      assert (a + b)[1..] == a[1..] + b;
      CollapsedPlain(g, TagStep(st, a[0]), a[1..], b);
    } else {
      assert a + b == b;
    }
  }

  lemma YesHelloHead()
    ensures Collapsed(true, false, "Yes... Hello.") == "Yes" + Collapsed(true, false, "... Hello.")
  {
    assert "Yes... Hello." == "Yes" + "... Hello.";
    CollapsedPlain(true, false, "Yes", "... Hello.");
  }

  lemma YesHelloRun()
    ensures Collapsed(true, false, "... Hello.") == "…" + Collapsed(true, false, " Hello.")
  {
    assert DotRunEnd("... Hello.", 0) == 3;
    assert "... Hello."[3..] == " Hello.";
  }

  lemma YesHelloTail()
    ensures Collapsed(true, false, " Hello.") == " Hello."
  {
    assert " Hello." == " Hello" + ".";
    CollapsedPlain(true, false, " Hello", ".");
  }

  lemma YesHelloGlue()
    ensures "Yes" + ("…" + " Hello.") == "Yes… Hello."
  {
  }

  /** The three dots become an ellipsis, the lone final dot stays. */
  lemma YesHelloExample()
    ensures Apply(CommonRules.Ellipses, "Yes... Hello.") == "Yes… Hello."
  {
    YesHelloHead();
    YesHelloRun();
    YesHelloTail();
    YesHelloGlue();
    ApplyIsCollapsed(true, "Yes... Hello.");
  }

  /** Dots inside a tag's attribute are left alone. */
  lemma TagAttributeExample()
    ensures Apply(CommonRules.Ellipses, "<a title=\"..\">") == "<a title=\"..\">"
  {
    var o := "<a title=\"..\">";
    InsideTagIsInTag(o, 0, 10);
    forall j | 0 <= j < |o|
      ensures !DoubleDotAt(true, o, j)
    {
    }
    FixedIffNoDoubleDots(true, o);
  }
  /** Without the guard the tag state plays no part: the older record
      collapses dot runs inside tags as well as outside them. */
  lemma {:induction false} UnguardedIgnoresTags(st: bool, t: string)
    ensures Collapsed(false, st, t) == Collapsed(false, false, t)
    decreases |t|
  {
    if |t| > 0 {
      var n := DotRunEnd(t, 0);
      if n == 0 {
        UnguardedIgnoresTags(TagStep(st, t[0]), t[1..]);
        UnguardedIgnoresTags(TagStep(false, t[0]), t[1..]);
      } else {
        UnguardedIgnoresTags(st, t[n..]);
      }
    }
  }

  /** The older `ellipsis` record, at any position: a text starting inside
      a tag is collapsed exactly as one starting outside. */
  lemma LegacyEllipsisCollapses(s: string, i: nat)
    requires i <= |s|
    ensures Apply(LegacyRules.Ellipsis, s) == Collapsed(false, false, s)
    ensures ScanWith(Dots(false), s, i) == Collapsed(false, false, s[i..])
  {
    ApplyIsCollapsed(false, s);
    ScanIsCollapsed(false, s, i);
    UnguardedIgnoresTags(InTag(s, i), s[i..]);
  }
}
