/**
  The older `numbers` list: ordinals first, then thousands separators, with
  the bundle's defaults `st|nd|rd|th`, `,` and `[.]`. The list is the
  composition of the two run-by-run descriptions, and `1000th` ends as
  `1,000<sup>th</sup>`.
 */
module NumbersProofs {
  import opened Chars
  import opened Patterns
  import opened Replace
  import opened Matchers
  import opened Pipeline
  import opened OrdinalProofs
  import opened SeparatorProofs
  import LegacyRules

  lemma LegacySuffixesAreLetters()
    ensures LetterSuffixes(LegacyRules.DefaultDefs.ordinals)
  {
    var o := LegacyRules.DefaultDefs.ordinals;
    assert o == ["st", "nd", "rd", "th"];
    forall k | 0 <= k < |o|
      ensures |o[k]| > 0 && !IsDigit(o[k][0])
    {
    }
  }

  /** Ordinals, then separators: the second rule groups the digit runs of
      the first one's result, whatever the suffixes (none starting with a
      digit) and the decimal separator class (no digit in it). */
  lemma OrdinalsThenSeparators(suffixes: seq<string>, decimals: CharClass, sep: string, s: string)
    requires LetterSuffixes(suffixes) && NoDigitDecimals(decimals)
    ensures RunRules([SupOrdinal(false, suffixes), GroupThousands(decimals, sep)], s)
              == Separated(decimals, sep, Superscripted(false, suffixes, false, s, 0), 0)
  {
    RunPair(SupOrdinal(false, suffixes), GroupThousands(decimals, sep), s);
    ApplyIsSuperscripted(false, suffixes, s);
    ApplyIsSeparated(decimals, sep, Apply(SupOrdinal(false, suffixes), s));
  }

  /** The older `numbers` list with the bundle's defaults. */
  lemma NumbersComposes(s: string)
    ensures var d := LegacyRules.DefaultDefs;
            RunRules(LegacyRules.Numbers(d), s)
              == Separated(d.decimalsSeparator, ",", Superscripted(false, d.ordinals, false, s, 0), 0)
  {
    var d := LegacyRules.DefaultDefs;
    LegacySuffixesAreLetters();
    LegacyDecimalsHaveNoDigit();
    OrdinalsThenSeparators(d.ordinals, d.decimalsSeparator, ",", s);
  }

  /** A text without digits from i on is copied by the grouping. */
  lemma {:induction false} SeparatedNoDigits(decimals: CharClass, sep: string, s: string, i: nat)
    requires i <= |s| && forall j :: i <= j < |s| ==> !IsDigit(s[j])
    ensures Separated(decimals, sep, s, i) == s[i..]
    decreases |s| - i
  {
    if i < |s| {
      SeparatedNoDigits(decimals, sep, s, i + 1);
      assert s[i..] == [s[i]] + s[i + 1..];
    }
  }

  /** Digits from i to e and no digit at e: the run ends at e. */
  lemma {:induction false} DigitRunIs(s: string, i: nat, e: nat)
    requires i <= e <= |s| && forall j :: i <= j < e ==> IsDigit(s[j])
    requires e == |s| || !IsDigit(s[e])
    ensures DigitRunEnd(s, i) == e
    decreases e - i
  {
    if i < e {
      DigitRunIs(s, i + 1, e);
    }
  }

  /** A digit run from 0 to q followed by a suffix that ends the text is
      superscripted whole. */
  lemma SupWhole(suffixes: seq<string>, s: string, q: nat, n: nat)
    requires 0 < q < |s| && forall j :: 0 <= j < q ==> IsDigit(s[j])
    requires !IsDigit(s[q]) && FirstSuffix(suffixes, s, q) == Some(n) && q + n == |s|
    ensures Superscripted(false, suffixes, false, s, 0) == s[..q] + "<sup>" + s[q..] + "</sup>"
  {
    DigitRunIs(s, 0, q);
    assert s[0..q] == s[..q] && s[q..q + n] == s[q..];
  }

  /** A run of four digits at the start of a text with no other digit
      gains one separator after its first digit. */
  lemma GroupFour(decimals: CharClass, sep: string, t: string)
    requires |t| >= 4 && forall j :: 0 <= j < 4 ==> IsDigit(t[j])
    requires forall j :: 4 <= j < |t| ==> !IsDigit(t[j])
    ensures Separated(decimals, sep, t, 0) == [t[0]] + sep + t[1..4] + t[4..]
  {
    DigitRunIs(t, 0, 4);
    assert !AfterDecimal(decimals, t, 0);
    assert Grouped(sep, t, 0, 4) == [t[0]] + sep + t[1..4] by {
      assert Grouped(sep, t, 0, 1) == t[0..1] == [t[0]];
    }
    SeparatedNoDigits(decimals, sep, t, 4);
  }

  /** Of `st|nd|rd|th`, only `th` occurs before a `th`. */
  lemma ThSuffix(s: string, q: nat)
    requires q + 2 <= |s| && s[q] == 't' && s[q + 1] == 'h'
    ensures FirstSuffix(LegacyRules.DefaultDefs.ordinals, s, q) == Some(2)
  {
    var o := LegacyRules.DefaultDefs.ordinals;
    assert o == ["st", "nd", "rd", "th"];
    assert SuffixAt("th", s, q) by {
      assert FoldEq(s[q], 't') && FoldEq(s[q + 1], 'h');
      assert SuffixAt("h", s, q + 1) by {
        assert "h"[1..] == [];
      }
      assert "th"[1..] == "h";
    }
    assert !SuffixAt("st", s, q) by {
      assert !FoldEq('t', 's');
    }
    assert !SuffixAt("nd", s, q) by {
      assert !FoldEq('t', 'n');
    }
    assert !SuffixAt("rd", s, q) by {
      assert !FoldEq('t', 'r');
    }
    assert o[1..] == ["nd", "rd", "th"];
    assert o[1..][1..] == ["rd", "th"];
    assert o[1..][1..][1..] == ["th"];
  }

  predicate DigitFree(t: string) {
    forall j :: 0 <= j < |t| ==> !IsDigit(t[j])
  }

  /** The superscript markup around a digit-free suffix holds no digit. */
  lemma SupMarkupDigitFree(x: string)
    requires DigitFree(x)
    ensures DigitFree("<sup>" + x + "</sup>")
  {
    assert DigitFree("<sup>") && DigitFree("</sup>");
    var t := "<sup>" + x + "</sup>";
    forall j | 0 <= j < |t|
      ensures !IsDigit(t[j])
    {
      if j < 5 {
        assert t[j] == "<sup>"[j];
      } else if j < 5 + |x| {
        assert t[j] == x[j - 5];
      } else {
        assert t[j] == "</sup>"[j - 5 - |x|];
      }
    }
  }

  /** Four digits and a two-letter suffix: superscripting, then grouping. */
  lemma SupThenGroupFour(suffixes: seq<string>, decimals: CharClass, sep: string, s: string)
    requires |s| == 6 && forall j :: 0 <= j < 4 ==> IsDigit(s[j])
    requires DigitFree(s[4..]) && FirstSuffix(suffixes, s, 4) == Some(2)
    ensures Separated(decimals, sep, Superscripted(false, suffixes, false, s, 0), 0)
              == [s[0]] + sep + s[1..4] + "<sup>" + s[4..] + "</sup>"
  {
    assert !IsDigit(s[4]) by {
      assert s[4] == s[4..][0];
    }
    SupWhole(suffixes, s, 4, 2);
    var x := "<sup>" + s[4..] + "</sup>";
    var u := s[..4] + x;
    assert s[..4] + "<sup>" + s[4..] + "</sup>" == u;
    SupMarkupDigitFree(s[4..]);
    forall j | 4 <= j < |u|
      ensures !IsDigit(u[j])
    {
      assert u[j] == x[j - 4];
    }
    GroupFour(decimals, sep, u);
    assert u[1..4] == s[1..4] && u[4..] == x;
  }

  /** Under any bundle whose suffixes start with no digit and whose
      decimal separator is no digit, a four-digit number followed by a
      two-letter suffix gains one thousands separator and a superscript. */
  lemma FourDigitOrdinal(d: LegacyRules.Defs, s: string)
    requires LetterSuffixes(d.ordinals) && NoDigitDecimals(d.decimalsSeparator)
    requires |s| == 6 && forall j :: 0 <= j < 4 ==> IsDigit(s[j])
    requires DigitFree(s[4..]) && FirstSuffix(d.ordinals, s, 4) == Some(2)
    ensures RunRules(LegacyRules.Numbers(d), s) == [s[0]] + d.thousandsSeparator + s[1..4] + "<sup>" + s[4..] + "</sup>"
  {
    assert LegacyRules.Numbers(d) == [SupOrdinal(false, d.ordinals), GroupThousands(d.decimalsSeparator, d.thousandsSeparator)];
    OrdinalsThenSeparators(d.ordinals, d.decimalsSeparator, d.thousandsSeparator, s);
    SupThenGroupFour(d.ordinals, d.decimalsSeparator, d.thousandsSeparator, s);
  }

  lemma ThousandthParts(s: string)
    requires s == "1000th"
    ensures [s[0]] + "," + s[1..4] + "<sup>" + s[4..] + "</sup>" == "1,000<sup>th</sup>"
  {
    assert s[1..4] == "000" && s[4..] == "th";
  }

  /** `1000th` ends as `1,000<sup>th</sup>`. */
  lemma ThousandthExample(s: string)
    requires s == "1000th"
    ensures RunRules(LegacyRules.Numbers(LegacyRules.DefaultDefs), s) == "1,000<sup>th</sup>"
  {
    ThSuffix(s, 4);
    assert DigitFree(s[4..]) by {
      assert s[4..] == "th";
    }
    LegacySuffixesAreLetters();
    LegacyDecimalsHaveNoDigit();
    FourDigitOrdinal(LegacyRules.DefaultDefs, s);
    ThousandthParts(s);
  }
}
