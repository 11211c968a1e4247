/**
  `numberOrdinalsFactory` and the older ordinals record: which digit runs
  get a superscript suffix, the round trip through deleting the inserted
  `<sup>` tags, digits kept, and text without an ordinal left alone.
 */
module OrdinalProofs {
  import opened Chars
  import opened Patterns
  import opened Matchers
  import opened Replace
  import opened Views
  import opened Markup

  /** Every alternative is non-empty and starts with something other than a
      digit, as `st|nd|rd|th` does. */
  predicate LetterSuffixes(suffixes: seq<string>) {
    forall k :: 0 <= k < |suffixes| ==> |suffixes[k]| > 0 && !IsDigit(suffixes[k][0])
  }

  lemma NoSuffixAtDigit(suffixes: seq<string>, s: string, q: nat)
    requires LetterSuffixes(suffixes)
    requires q < |s| && IsDigit(s[q])
    ensures FirstSuffix(suffixes, s, q).None?
  {
    NonLetterAsciiHasNoPartner(s[q]);
    forall k | 0 <= k < |suffixes|
      ensures !SuffixAt(suffixes[k], s, q)
    {
      assert !FoldEq(s[q], suffixes[k][0]);
    }
  }

  /** Giving back digits never helps when no suffix starts with a digit. */
  lemma {:induction false} BacktrackingFindsNothing(suffixes: seq<string>, s: string, i: nat, q: nat)
    requires LetterSuffixes(suffixes)
    requires i < q <= |s|
    requires forall j :: i <= j < q ==> IsDigit(s[j])
    requires FirstSuffix(suffixes, s, q).None?
    ensures OrdinalBacktrack(suffixes, s, i, q).None?
    decreases q
  {
    if q > i + 1 {
      NoSuffixAtDigit(suffixes, s, q - 1);
      BacktrackingFindsNothing(suffixes, s, i, q - 1);
    }
  }

  /** A digit run followed by a suffix, where a match may start, is one hit:
      the digits, then the suffix wrapped in `<sup>`. */
  lemma OrdinalHit(g: bool, suffixes: seq<string>, s: string, i: nat)
    requires i < |s| && IsDigit(s[i]) && !Blocked(g, s, i)
    requires FirstSuffix(suffixes, s, DigitRunEnd(s, i)).Some?
    ensures var d := DigitRunEnd(s, i);
            var e := d + FirstSuffix(suffixes, s, d).value;
            OrdinalAt(g, suffixes, s, i) == Some(Hit(e, s[i..d] + "<sup>" + s[d..e] + "</sup>"))
  {
  }

  /** A match starts exactly at a digit, outside a tag when guarded, whose
      digit run is followed by a suffix. */
  lemma OrdinalMatchIff(g: bool, suffixes: seq<string>, s: string, i: nat)
    requires LetterSuffixes(suffixes)
    requires i < |s|
    ensures OrdinalAt(g, suffixes, s, i).Some? <==>
              IsDigit(s[i]) && !Blocked(g, s, i) && FirstSuffix(suffixes, s, DigitRunEnd(s, i)).Some?
  {
    if IsDigit(s[i]) && !Blocked(g, s, i) && FirstSuffix(suffixes, s, DigitRunEnd(s, i)).None? {
      BacktrackingFindsNothing(suffixes, s, i, DigitRunEnd(s, i));
    }
  }

  /** Any hit splits into digits s[i..q] and a suffix s[q..end], and its
      replacement is the digits followed by the suffix in `<sup>`. */
  lemma OrdinalSplitOf(g: bool, suffixes: seq<string>, s: string, i: nat) returns (q: nat)
    requires i < |s| && OrdinalAt(g, suffixes, s, i).Some?
    ensures var h := OrdinalAt(g, suffixes, s, i).value;
            && i < q <= h.end <= |s|
            && (forall j :: i <= j < q ==> IsDigit(s[j]))
            && FirstSuffix(suffixes, s, q) == Some(h.end - q)
            && h.out == s[i..q] + "<sup>" + s[q..h.end] + "</sup>"
  {
    q := OrdinalBacktrack(suffixes, s, i, DigitRunEnd(s, i)).value;
  }

  /** The output run by run: each maximal digit run followed by a suffix,
      where a match may start, becomes digits, `<sup>`, the suffix as
      written in the text, `</sup>`; everything else is copied. */
  function Superscripted(guarded: bool, suffixes: seq<string>, inTag: bool, s: string, i: nat): string
    requires i <= |s|
    decreases |s| - i
  {
    if i == |s| then []
    else
      var d := DigitRunEnd(s, i);
      if d == i then [s[i]] + Superscripted(guarded, suffixes, TagStep(inTag, s[i]), s, i + 1)
      else if !(guarded && inTag) && FirstSuffix(suffixes, s, d).Some? then
        var e := d + FirstSuffix(suffixes, s, d).value;
        s[i..d] + "<sup>" + s[d..e] + "</sup>" + Superscripted(guarded, suffixes, StateAfter(inTag, s[i..e]), s, e)
      else
        s[i..d] + Superscripted(guarded, suffixes, inTag, s, d)
  }

  /** The matcher of the ordinals rule on its own. */
  function Ords(g: bool, suffixes: seq<string>): Matcher {
    (s: string, i: nat) => if i < |s| then OrdinalAt(g, suffixes, s, i) else None
  }

  lemma ApplyIsOrds(g: bool, suffixes: seq<string>, s: string)
    ensures Apply(SupOrdinal(g, suffixes), s) == ScanWith(Ords(g, suffixes), s, 0)
  {
    forall p | 0 <= p < |s|
      ensures MatcherOf(SupOrdinal(g, suffixes))(s, p) == Ords(g, suffixes)(s, p)
    {
      assert MatchAt(SupOrdinal(g, suffixes), s, p) == OrdinalAt(g, suffixes, s, p);
    }
    ScanWithAgree(MatcherOf(SupOrdinal(g, suffixes)), Ords(g, suffixes), s, 0);
  }

  /** m behaves as the ordinals matcher on s from i to j. */
  predicate ActsAsOrds(m: Matcher, g: bool, suffixes: seq<string>, s: string, i: nat, j: nat) {
    forall p :: i <= p < j && p < |s| ==> m(s, p) == OrdinalAt(g, suffixes, s, p)
  }

  lemma OrdsActsAsOrds(g: bool, suffixes: seq<string>, s: string)
    ensures ActsAsOrds(Ords(g, suffixes), g, suffixes, s, 0, |s|)
  {
  }

  /** A digit run that does not start a match is copied whole. */
  lemma SupCopiesRun(m: Matcher, g: bool, suffixes: seq<string>, s: string, i: nat)
    requires LetterSuffixes(suffixes)
    requires i < |s| && IsDigit(s[i])
    requires ActsAsOrds(m, g, suffixes, s, i, DigitRunEnd(s, i))
    requires Blocked(g, s, i) || FirstSuffix(suffixes, s, DigitRunEnd(s, i)).None?
    ensures ScanWith(m, s, i) == s[i..DigitRunEnd(s, i)] + ScanWith(m, s, DigitRunEnd(s, i))
  {
    var d := DigitRunEnd(s, i);
    forall p | i <= p < d
      ensures !Proper(m, s, p)
    {
      DigitRunFromInside(s, i, p);
      InTagAcrossPlainText(s, i, p);
      OrdinalMatchIff(g, suffixes, s, p);
    }
    ScanCopies(m, s, i, d);
  }

  /** The scan at a character that is not a digit. */
  lemma SupStepPlain(m: Matcher, g: bool, suffixes: seq<string>, s: string, i: nat)
    requires i < |s| && DigitRunEnd(s, i) == i
    requires ActsAsOrds(m, g, suffixes, s, i, i + 1)
    requires ScanWith(m, s, i + 1) == Superscripted(g, suffixes, InTag(s, i + 1), s, i + 1)
    ensures ScanWith(m, s, i) == Superscripted(g, suffixes, InTag(s, i), s, i)
  {
    assert m(s, i) == OrdinalAt(g, suffixes, s, i) == None;
    ScanMiss(m, s, i);
    assert InTag(s, i + 1) == TagStep(InTag(s, i), s[i]);
  }

  /** The scan at a digit run followed by a suffix, where a match may start. */
  lemma SupStepHit(m: Matcher, g: bool, suffixes: seq<string>, s: string, i: nat, e: nat)
    requires i < |s| && IsDigit(s[i]) && !Blocked(g, s, i)
    requires FirstSuffix(suffixes, s, DigitRunEnd(s, i)).Some?
    requires e == DigitRunEnd(s, i) + FirstSuffix(suffixes, s, DigitRunEnd(s, i)).value
    requires ActsAsOrds(m, g, suffixes, s, i, i + 1)
    requires ScanWith(m, s, e) == Superscripted(g, suffixes, InTag(s, e), s, e)
    ensures ScanWith(m, s, i) == Superscripted(g, suffixes, InTag(s, i), s, i)
  {
    var d := DigitRunEnd(s, i);
    OrdinalHit(g, suffixes, s, i);
    assert m(s, i) == Some(Hit(e, s[i..d] + "<sup>" + s[d..e] + "</sup>"));
    ScanHit(m, s, i);
    InTagAdvance(s, i, e);
  }

  /** The scan at a digit run that is copied. */
  lemma SupStepCopy(m: Matcher, g: bool, suffixes: seq<string>, s: string, i: nat)
    requires LetterSuffixes(suffixes)
    requires i < |s| && IsDigit(s[i])
    requires Blocked(g, s, i) || FirstSuffix(suffixes, s, DigitRunEnd(s, i)).None?
    requires ActsAsOrds(m, g, suffixes, s, i, DigitRunEnd(s, i))
    requires ScanWith(m, s, DigitRunEnd(s, i)) == Superscripted(g, suffixes, InTag(s, DigitRunEnd(s, i)), s, DigitRunEnd(s, i))
    ensures ScanWith(m, s, i) == Superscripted(g, suffixes, InTag(s, i), s, i)
  {
    SupCopiesRun(m, g, suffixes, s, i);
    InTagAcrossPlainText(s, i, DigitRunEnd(s, i));
  }

  lemma {:induction false} ScanIsSuperscriptedBy(m: Matcher, g: bool, suffixes: seq<string>, s: string, i: nat)
    requires LetterSuffixes(suffixes) && ActsAsOrds(m, g, suffixes, s, 0, |s|)
    requires i <= |s|
    ensures ScanWith(m, s, i) == Superscripted(g, suffixes, InTag(s, i), s, i)
    decreases |s| - i
  {
    if i < |s| {
      var d := DigitRunEnd(s, i);
      if d == i {
        ScanIsSuperscriptedBy(m, g, suffixes, s, i + 1);
        SupStepPlain(m, g, suffixes, s, i);
      } else if !Blocked(g, s, i) && FirstSuffix(suffixes, s, d).Some? {
        var e := d + FirstSuffix(suffixes, s, d).value;
        ScanIsSuperscriptedBy(m, g, suffixes, s, e);
        assert ActsAsOrds(m, g, suffixes, s, i, i + 1);
        SupStepHit(m, g, suffixes, s, i, e);
      } else {
        ScanIsSuperscriptedBy(m, g, suffixes, s, d);
        SupStepCopy(m, g, suffixes, s, i);
      }
    }
  }

  lemma ScanIsSuperscripted(g: bool, suffixes: seq<string>, s: string, i: nat)
    requires LetterSuffixes(suffixes)
    requires i <= |s|
    ensures ScanWith(Ords(g, suffixes), s, i) == Superscripted(g, suffixes, InTag(s, i), s, i)
  {
    OrdsActsAsOrds(g, suffixes, s);
    ScanIsSuperscriptedBy(Ords(g, suffixes), g, suffixes, s, i);
  }

  /** The rule is the run-by-run description above. */
  lemma ApplyIsSuperscripted(g: bool, suffixes: seq<string>, s: string)
    requires LetterSuffixes(suffixes)
    ensures Apply(SupOrdinal(g, suffixes), s) == Superscripted(g, suffixes, false, s, 0)
  {
    ApplyIsOrds(g, suffixes, s);
    ScanIsSuperscripted(g, suffixes, s, 0);
  }

  lemma SupTags()
    ensures TagPair("<sup>", "</sup>")
  {
    assert "</sup>"[..5] != "<sup>" by {
      assert "</sup>"[..5][1] != "<sup>"[1];
    }
  }

  /** Deleting the tags from the scan at an ordinal hit. */
  lemma UnsupHitStep(m: Matcher, g: bool, suffixes: seq<string>, s: string, i: nat)
    requires NoOpenBracket(s)
    requires i < |s| && m(s, i) == OrdinalAt(g, suffixes, s, i) && m(s, i).Some?
    requires var e := m(s, i).value.end;
             Unmark("<sup>", "</sup>", ScanWith(m, s, e)) == s[e..]
    ensures Unmark("<sup>", "</sup>", ScanWith(m, s, i)) == s[i..]
  {
    SupTags();
    var e := m(s, i).value.end;
    var q := OrdinalSplitOf(g, suffixes, s, i);
    ScanHit(m, s, i);
    UnmarkWrapped("<sup>", "</sup>", s[i..q], s[q..e], ScanWith(m, s, e));
    SliceSplit(s, i, q, e);
  }

  /** Deleting the tags from the scan where it copies a character. */
  lemma UnsupMissStep(m: Matcher, s: string, i: nat)
    requires NoOpenBracket(s)
    requires i < |s| && m(s, i).None?
    requires Unmark("<sup>", "</sup>", ScanWith(m, s, i + 1)) == s[i + 1..]
    ensures Unmark("<sup>", "</sup>", ScanWith(m, s, i)) == s[i..]
  {
    SupTags();
    ScanMiss(m, s, i);
    UnmarkPlain("<sup>", "</sup>", [s[i]], ScanWith(m, s, i + 1));
    assert s[i..] == [s[i]] + s[i + 1..];
  }

  lemma {:induction false} ScanUnsupsWith(m: Matcher, g: bool, suffixes: seq<string>, s: string, i: nat)
    requires NoOpenBracket(s)
    requires i <= |s|
    requires ActsAsOrds(m, g, suffixes, s, i, |s|)
    ensures Unmark("<sup>", "</sup>", ScanWith(m, s, i)) == s[i..]
    decreases |s| - i
  {
    if i < |s| {
      assert m(s, i) == OrdinalAt(g, suffixes, s, i);
      if m(s, i).Some? {
        ScanUnsupsWith(m, g, suffixes, s, m(s, i).value.end);
        UnsupHitStep(m, g, suffixes, s, i);
      } else {
        ScanUnsupsWith(m, g, suffixes, s, i + 1);
        UnsupMissStep(m, s, i);
      }
    }
  }

  /** Deleting the inserted tags gives back a text that had no `<` of its own. */
  lemma UnsupRestores(g: bool, suffixes: seq<string>, s: string)
    requires NoOpenBracket(s)
    ensures Unmark("<sup>", "</sup>", Apply(SupOrdinal(g, suffixes), s)) == s
  {
    ApplyIsOrds(g, suffixes, s);
    OrdsActsAsOrds(g, suffixes, s);
    ScanUnsupsWith(Ords(g, suffixes), g, suffixes, s, 0);
    assert s[0..] == s;
  }

  function DigitsOnly(c: char): string {
    if IsDigit(c) then [c] else []
  }

  lemma {:induction false} MarkupHasNoDigits(t: string)
    requires forall j :: 0 <= j < |t| ==> !IsDigit(t[j])
    ensures Project(DigitsOnly, t) == []
    decreases |t|
  {
    if |t| > 0 {
      MarkupHasNoDigits(t[1..]);
    }
  }

  /** Wrapping s[q..e] in `<sup>` keeps the digits of s[p..e]. */
  lemma SupKeepsDigits(s: string, p: nat, q: nat, e: nat)
    requires p <= q <= e <= |s|
    ensures Project(DigitsOnly, s[p..q] + "<sup>" + s[q..e] + "</sup>") == Project(DigitsOnly, s[p..e])
  {
    MarkupHasNoDigits("<sup>");
    MarkupHasNoDigits("</sup>");
    ProjectAppend(DigitsOnly, s[p..q] + "<sup>" + s[q..e], "</sup>");
    ProjectAppend(DigitsOnly, s[p..q] + "<sup>", s[q..e]);
    ProjectAppend(DigitsOnly, s[p..q], "<sup>");
    SliceSplit(s, p, q, e);
    ProjectAppend(DigitsOnly, s[p..q], s[q..e]);
  }

  /** The digits of the text are kept, in order, whatever the text. */
  lemma KeepsDigits(g: bool, suffixes: seq<string>, s: string)
    ensures Project(DigitsOnly, Apply(SupOrdinal(g, suffixes), s)) == Project(DigitsOnly, s)
  {
    var m := Ords(g, suffixes);
    forall p | 0 <= p < |s| && Proper(m, s, p)
      ensures Project(DigitsOnly, m(s, p).value.out) == Project(DigitsOnly, s[p..m(s, p).value.end])
    {
      var q := OrdinalSplitOf(g, suffixes, s, p);
      SupKeepsDigits(s, p, q, m(s, p).value.end);
    }
    ApplyIsOrds(g, suffixes, s);
    ScanKeepsProjectionAll(m, DigitsOnly, s);
  }

  /** No digit followed by a suffix: the text is left as it was. */
  lemma NoOrdinalUnchanged(g: bool, suffixes: seq<string>, s: string)
    requires forall q :: 0 < q <= |s| && IsDigit(s[q - 1]) ==> FirstSuffix(suffixes, s, q).None?
    ensures Apply(SupOrdinal(g, suffixes), s) == s
  {
    var m := Ords(g, suffixes);
    forall p | 0 <= p < |s|
      ensures !Proper(m, s, p)
    {
      if OrdinalAt(g, suffixes, s, p).Some? {
        var q := OrdinalSplitOf(g, suffixes, s, p);
      }
    }
    ApplyIsOrds(g, suffixes, s);
    ScanUnchanged(m, s);
  }
}
