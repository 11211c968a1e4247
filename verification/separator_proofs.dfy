/**
  `numberSeparatorsFactory` and the second record of the older `numbers`:
  the global replace puts the thousands separator exactly where the usual
  right-to-left grouping by threes puts it, leaves digits after a decimal
  separator alone, and deleting the separator gives the text back.
 */
module SeparatorProofs {
  import opened Chars
  import opened Patterns
  import opened Matchers
  import opened Replace
  import opened Views
  import opened Inverse
  import CommonRules
  import LegacyRules

  /** The decimal separator class names no digit, so a digit run never
      contains one and the lookbehind has one answer along the whole run. */
  predicate NoDigitDecimals(decimals: CharClass) {
    forall c: char :: IsDigit(c) ==> !decimals.HasFolded(c)
  }

  /** The usual grouping of the digits s[p..d]: separators between groups
      of three, counted from the right end d. */
  function Grouped(sep: string, s: string, p: nat, d: nat): string
    requires p <= d <= |s|
    decreases d - p
  {
    if d - p <= 3 then s[p..d] else Grouped(sep, s, p, d - 3) + sep + s[d - 3..d]
  }

  /** The output of the scan across the digits s[p..d], a run that is not
      after a decimal separator: `\d{1,3}` takes as many digits as leave a
      positive multiple of three behind it. */
  function GroupFrom(sep: string, s: string, p: nat, d: nat): string
    requires p <= d <= |s|
    decreases d - p
  {
    if d - p >= 4 then
      var k := LeadingGroup(d - p);
      s[p..p + k] + sep + GroupFrom(sep, s, p + k, d)
    else s[p..d]
  }

  /** The output run by run: each maximal digit run is grouped unless a
      decimal separator comes right before it; everything else is copied. */
  function Separated(decimals: CharClass, sep: string, s: string, i: nat): string
    requires i <= |s|
    decreases |s| - i
  {
    if i == |s| then []
    else
      var d := DigitRunEnd(s, i);
      if d == i then [s[i]] + Separated(decimals, sep, s, i + 1)
      else if AfterDecimal(decimals, s, i) then s[i..d] + Separated(decimals, sep, s, d)
      else Grouped(sep, s, i, d) + Separated(decimals, sep, s, d)
  }

  /** The leading group does not change when three digits are dropped from
      the right of a run that stays longer than three. */
  lemma LeadingGroupDropThree(n: nat)
    requires n >= 7
    ensures LeadingGroup(n - 3) == LeadingGroup(n)
  {
  }

  /** Grouping from the right, read from the left: the leading group, a
      separator, then the rest grouped. */
  lemma {:induction false} GroupedFromLeft(sep: string, s: string, p: nat, d: nat)
    requires p <= d <= |s| && d - p >= 4
    ensures p + LeadingGroup(d - p) <= d
    ensures Grouped(sep, s, p, d)
            == s[p..p + LeadingGroup(d - p)] + sep + Grouped(sep, s, p + LeadingGroup(d - p), d)
    decreases d - p
  {
    if d - p >= 7 {
      LeadingGroupDropThree(d - p);
      GroupedFromLeft(sep, s, p, d - 3);
      GroupedFromLeftLong(sep, s, p, d, LeadingGroup(d - p));
    } else {
      assert p + LeadingGroup(d - p) == d - 3;
    }
  }

  /** The step of GroupedFromLeft for seven digits or more, given the claim
      without the last three. */
  lemma GroupedFromLeftLong(sep: string, s: string, p: nat, d: nat, k: nat)
    requires p <= d <= |s| && d - p >= 7 && k <= 3
    requires Grouped(sep, s, p, d - 3) == s[p..p + k] + sep + Grouped(sep, s, p + k, d - 3)
    ensures Grouped(sep, s, p, d) == s[p..p + k] + sep + Grouped(sep, s, p + k, d)
  {
    var a, g, b := s[p..p + k], Grouped(sep, s, p + k, d - 3), s[d - 3..d];
    assert Grouped(sep, s, p, d) == Grouped(sep, s, p, d - 3) + sep + b;
    assert Grouped(sep, s, p + k, d) == g + sep + b;
    assert a + sep + g + sep + b == a + sep + (g + sep + b);
  }

  /** The scan's left-to-right grouping is the usual one. */
  lemma {:induction false} GroupFromIsGrouped(sep: string, s: string, p: nat, d: nat)
    requires p <= d <= |s|
    ensures GroupFrom(sep, s, p, d) == Grouped(sep, s, p, d)
    decreases d - p
  {
    if d - p >= 4 {
      GroupFromIsGrouped(sep, s, p + LeadingGroup(d - p), d);
      GroupedFromLeft(sep, s, p, d);
    }
  }

  /** Along a digit run the decimal lookbehind keeps its answer. */
  lemma {:induction false} DecimalAcrossRun(decimals: CharClass, s: string, i: nat, p: nat)
    requires NoDigitDecimals(decimals)
    requires i <= |s| && i <= p <= DigitRunEnd(s, i)
    ensures AfterDecimal(decimals, s, p) == AfterDecimal(decimals, s, i)
    decreases p - i
  {
    if i < p {
      DecimalAcrossRun(decimals, s, i, p - 1);
      assert IsDigit(s[p - 1]);
    }
  }

  /** The matcher of the separators rule on its own. */
  function Seps(decimals: CharClass, sep: string): Matcher {
    (s: string, i: nat) => if i < |s| then SeparatorAt(decimals, sep, s, i) else None
  }

  lemma ApplyIsSeps(decimals: CharClass, sep: string, s: string)
    ensures Apply(GroupThousands(decimals, sep), s) == ScanWith(Seps(decimals, sep), s, 0)
  {
    forall p | 0 <= p < |s|
      ensures MatcherOf(GroupThousands(decimals, sep))(s, p) == Seps(decimals, sep)(s, p)
    {
      assert MatchAt(GroupThousands(decimals, sep), s, p) == SeparatorAt(decimals, sep, s, p);
    }
    ScanWithAgree(MatcherOf(GroupThousands(decimals, sep)), Seps(decimals, sep), s, 0);
  }

  /** m behaves as the separators matcher on s from i on. */
  predicate ActsAsSeps(m: Matcher, decimals: CharClass, sep: string, s: string, i: nat) {
    forall p :: i <= p < |s| ==> m(s, p) == SeparatorAt(decimals, sep, s, p)
  }

  /** A digit run after a decimal separator, or shorter than four from p,
      holds no hit and is copied. */
  lemma CopiesRun(m: Matcher, decimals: CharClass, sep: string, s: string, p: nat)
    requires NoDigitDecimals(decimals)
    requires p <= |s| && ActsAsSeps(m, decimals, sep, s, p)
    requires AfterDecimal(decimals, s, p) || DigitRunEnd(s, p) < p + 4
    ensures ScanWith(m, s, p) == s[p..DigitRunEnd(s, p)] + ScanWith(m, s, DigitRunEnd(s, p))
  {
    var d := DigitRunEnd(s, p);
    forall q | p <= q < d
      ensures !Proper(m, s, q)
    {
      DigitRunFromInside(s, p, q);
      DecimalAcrossRun(decimals, s, p, q);
      assert m(s, q) == SeparatorAt(decimals, sep, s, q);
    }
    ScanCopies(m, s, p, d);
  }

  /** The hit at p inside a run of at least four digits not after a decimal
      separator: the leading group and the separator. */
  lemma GroupHit(m: Matcher, decimals: CharClass, sep: string, s: string, p: nat) returns (k: nat)
    requires p < |s| && ActsAsSeps(m, decimals, sep, s, p)
    requires !AfterDecimal(decimals, s, p) && DigitRunEnd(s, p) >= p + 4
    ensures k == LeadingGroup(DigitRunEnd(s, p) - p) && 1 <= k <= 3
    ensures m(s, p) == Some(Hit(p + k, s[p..p + k] + sep))
  {
    k := LeadingGroup(DigitRunEnd(s, p) - p);
    assert m(s, p) == SeparatorAt(decimals, sep, s, p);
  }

  /** Across a digit run not after a decimal separator the scan emits the
      run grouped. */
  lemma {:induction false} ScanGroupsRun(m: Matcher, decimals: CharClass, sep: string, s: string, p: nat)
    requires NoDigitDecimals(decimals)
    requires p <= |s| && ActsAsSeps(m, decimals, sep, s, p)
    requires !AfterDecimal(decimals, s, p)
    ensures ScanWith(m, s, p) == GroupFrom(sep, s, p, DigitRunEnd(s, p)) + ScanWith(m, s, DigitRunEnd(s, p))
    decreases |s| - p
  {
    var d := DigitRunEnd(s, p);
    if d - p >= 4 {
      var k := GroupHit(m, decimals, sep, s, p);
      assert k == LeadingGroup(d - p);
      DigitRunFromInside(s, p, p + k);
      DecimalAcrossRun(decimals, s, p, p + k);
      ScanGroupsRun(m, decimals, sep, s, p + k);
      GroupRunStep(m, sep, s, p, d, k);
    } else {
      CopiesRun(m, decimals, sep, s, p);
    }
  }

  /** One step of ScanGroupsRun at a hit, given the claim after it. */
  lemma GroupRunStep(m: Matcher, sep: string, s: string, p: nat, d: nat, k: nat)
    requires p < d <= |s| && d - p >= 4 && k == LeadingGroup(d - p)
    requires m(s, p) == Some(Hit(p + k, s[p..p + k] + sep))
    requires ScanWith(m, s, p + k) == GroupFrom(sep, s, p + k, d) + ScanWith(m, s, d)
    ensures ScanWith(m, s, p) == GroupFrom(sep, s, p, d) + ScanWith(m, s, d)
  {
    var a, g, r := s[p..p + k], GroupFrom(sep, s, p + k, d), ScanWith(m, s, d);
    ScanHit(m, s, p);
    assert GroupFrom(sep, s, p, d) == a + sep + g;
    assert a + sep + (g + r) == a + sep + g + r;
  }

  /** The scan at a character that is not a digit. */
  lemma SepStepPlain(m: Matcher, decimals: CharClass, sep: string, s: string, i: nat)
    requires i < |s| && !IsDigit(s[i]) && ActsAsSeps(m, decimals, sep, s, i)
    ensures ScanWith(m, s, i) == [s[i]] + ScanWith(m, s, i + 1)
  {
    assert m(s, i) == SeparatorAt(decimals, sep, s, i) == None;
    ScanMiss(m, s, i);
  }

  lemma {:induction false} ScanIsSeparated(m: Matcher, decimals: CharClass, sep: string, s: string, i: nat)
    requires NoDigitDecimals(decimals)
    requires i <= |s| && ActsAsSeps(m, decimals, sep, s, i)
    ensures ScanWith(m, s, i) == Separated(decimals, sep, s, i)
    decreases |s| - i
  {
    if i < |s| {
      var d := DigitRunEnd(s, i);
      if d == i {
        ScanIsSeparated(m, decimals, sep, s, i + 1);
        SepStepPlain(m, decimals, sep, s, i);
      } else if AfterDecimal(decimals, s, i) {
        ScanIsSeparated(m, decimals, sep, s, d);
        CopiesRun(m, decimals, sep, s, i);
      } else {
        ScanIsSeparated(m, decimals, sep, s, d);
        ScanGroupsRun(m, decimals, sep, s, i);
        GroupFromIsGrouped(sep, s, i, d);
      }
    }
  }

  /** The rule is the run-by-run grouping above. */
  lemma ApplyIsSeparated(decimals: CharClass, sep: string, s: string)
    requires NoDigitDecimals(decimals)
    ensures Apply(GroupThousands(decimals, sep), s) == Separated(decimals, sep, s, 0)
  {
    ApplyIsSeps(decimals, sep, s);
    ScanIsSeparated(Seps(decimals, sep), decimals, sep, s, 0);
  }

  /** A text of digits only is grouped whole. */
  lemma DigitsOnlyGrouped(decimals: CharClass, sep: string, s: string)
    requires NoDigitDecimals(decimals)
    requires |s| > 0 && forall j :: 0 <= j < |s| ==> IsDigit(s[j])
    ensures Apply(GroupThousands(decimals, sep), s) == Grouped(sep, s, 0, |s|)
  {
    ApplyIsSeparated(decimals, sep, s);
    assert DigitRunEnd(s, 0) == |s| by {
      DigitRunAll(s, 0);
    }
  }

  lemma {:induction false} DigitRunAll(s: string, i: nat)
    requires i <= |s| && forall j :: i <= j < |s| ==> IsDigit(s[j])
    ensures DigitRunEnd(s, i) == |s|
    decreases |s| - i
  {
    if i < |s| {
      DigitRunAll(s, i + 1);
    }
  }

  /** With a locale whose separator is `,`, seven digits come out as
      1,234,567. */
  lemma SevenDigits(l: CommonRules.Locale, s: string)
    requires NoDigitDecimals(l.decimalsSeparator) && l.thousandsSeparator == ","
    requires s == "1234567"
    ensures Apply(CommonRules.NumberSeparatorsFactory(l), s) == "1,234,567"
  {
    DigitsOnlyGrouped(l.decimalsSeparator, ",", s);
    assert Grouped(",", s, 0, 1) == "1";
    assert Grouped(",", s, 0, 4) == "1" + "," + "234";
    assert Grouped(",", s, 0, 7) == "1,234" + "," + "567";
  }

  /** Shows a character as itself, and any character of the separator as
      nothing. */
  function Without(sep: string): char -> string {
    x => if x in sep then [] else [x]
  }

  lemma {:induction false} WithoutAbsent(sep: string, t: string)
    requires forall j :: 0 <= j < |t| ==> t[j] !in sep
    ensures Project(Without(sep), t) == t
    decreases |t|
  {
    if |t| > 0 {
      WithoutAbsent(sep, t[1..]);
      assert t == [t[0]] + t[1..];
    }
  }

  lemma {:induction false} WithoutHides(sep: string, t: string)
    requires forall j :: 0 <= j < |t| ==> t[j] in sep
    ensures Project(Without(sep), t) == []
    decreases |t|
  {
    if |t| > 0 {
      WithoutHides(sep, t[1..]);
    }
  }

  /** With the separator's characters hidden, output and input read the
      same: the rule inserts the separator and changes nothing else. */
  lemma KeepsAllButSeparator(decimals: CharClass, sep: string, s: string)
    ensures Project(Without(sep), Apply(GroupThousands(decimals, sep), s)) == Project(Without(sep), s)
  {
    var m := Seps(decimals, sep);
    forall p | 0 <= p < |s| && Proper(m, s, p)
      ensures Project(Without(sep), m(s, p).value.out) == Project(Without(sep), s[p..m(s, p).value.end])
    {
      var e := m(s, p).value.end;
      assert m(s, p).value.out == s[p..e] + sep;
      ProjectAppend(Without(sep), s[p..e], sep);
      WithoutHides(sep, sep);
    }
    ApplyIsSeps(decimals, sep, s);
    ScanKeepsProjectionAll(m, Without(sep), s);
  }

  /** The empty pattern puts nothing back. */
  lemma {:induction false} UnreplaceNothing(orig: string, t: string)
    ensures Unreplace([], orig, t) == t
    decreases |t|
  {
    if |t| > 0 {
      UnreplaceNothing(orig, t[1..]);
      assert t == [t[0]] + t[1..];
    }
  }

  /** Copied text, the separator, then more: the separator goes away. */
  lemma UnseparateAfter(sep: string, x: string, rest: string)
    requires |sep| == 0 || Lacks(x, sep[0])
    ensures Unreplace(sep, [], x + sep + rest) == x + Unreplace(sep, [], rest)
  {
    if |sep| == 0 {
      UnreplaceNothing([], x + sep + rest);
      UnreplaceNothing([], rest);
      assert x + sep + rest == x + rest;
    } else {
      assert x + sep + rest == x + (sep + rest);
      UnreplacePlain(sep, [], x, sep + rest);
      UnreplaceHead(sep, [], rest);
      assert [] + Unreplace(sep, [], rest) == Unreplace(sep, [], rest);
    }
  }

  /** The scan step at a hit, given the claim after it. */
  lemma SeparatorHitUndone(decimals: CharClass, sep: string, s: string, i: nat)
    requires |sep| == 0 || Lacks(s, sep[0])
    requires i < |s| && Proper(Seps(decimals, sep), s, i)
    requires var e := Seps(decimals, sep)(s, i).value.end;
             Unreplace(sep, [], ScanWith(Seps(decimals, sep), s, e)) == s[e..]
    ensures Unreplace(sep, [], ScanWith(Seps(decimals, sep), s, i)) == s[i..]
  {
    var m := Seps(decimals, sep);
    var e := m(s, i).value.end;
    var x := s[i..e];
    ScanHit(m, s, i);
    assert m(s, i).value.out == x + sep;
    assert |sep| == 0 || Lacks(x, sep[0]);
    UnseparateAfter(sep, x, ScanWith(m, s, e));
    assert s[i..] == x + s[e..];
  }

  lemma {:induction false} ScanUnseparated(decimals: CharClass, sep: string, s: string, i: nat)
    requires i <= |s| && (|sep| == 0 || Lacks(s, sep[0]))
    ensures Unreplace(sep, [], ScanWith(Seps(decimals, sep), s, i)) == s[i..]
    decreases |s| - i
  {
    if i < |s| {
      var m := Seps(decimals, sep);
      if Proper(m, s, i) {
        ScanUnseparated(decimals, sep, s, m(s, i).value.end);
        SeparatorHitUndone(decimals, sep, s, i);
      } else {
        ScanUnseparated(decimals, sep, s, i + 1);
        ScanMiss(m, s, i);
        if |sep| == 0 {
          UnreplaceNothing([], ScanWith(m, s, i));
          UnreplaceNothing([], ScanWith(m, s, i + 1));
        } else {
          UnreplacePlain(sep, [], [s[i]], ScanWith(m, s, i + 1));
        }
        assert s[i..] == [s[i]] + s[i + 1..];
      }
    }
  }

  /** Deleting every occurrence of the separator, left to right, gives the
      input back, for any separator string whose first character the input
      does not contain (an empty separator inserts nothing). */
  lemma RemovingSeparatorRestores(decimals: CharClass, sep: string, s: string)
    requires |sep| == 0 || Lacks(s, sep[0])
    ensures Unreplace(sep, [], Apply(GroupThousands(decimals, sep), s)) == s
  {
    ApplyIsSeps(decimals, sep, s);
    ScanUnseparated(decimals, sep, s, 0);
    assert s[0..] == s;
  }

  /** A text without any of the separator's characters is given back once
      they are hidden. */
  lemma HidingSeparatorRestores(decimals: CharClass, sep: string, s: string)
    requires forall j :: 0 <= j < |s| ==> s[j] !in sep
    ensures Project(Without(sep), Apply(GroupThousands(decimals, sep), s)) == s
  {
    KeepsAllButSeparator(decimals, sep, s);
    WithoutAbsent(sep, s);
  }

  /** The older bundle's `.` names no digit. */
  lemma LegacyDecimalsHaveNoDigit()
    ensures NoDigitDecimals(LegacyRules.DefaultDefs.decimalsSeparator)
  {
    forall c: char | IsDigit(c)
      ensures !LegacyRules.DefaultDefs.decimalsSeparator.HasFolded(c)
    {
      NonLetterAsciiHasNoPartner(c);
    }
  }
}
