/**
  `abbrs` and the older `abbr` record: the output run by run, the round
  trip through deleting the inserted `<abbr>` tags, and the class as written
  (case-sensitive, with the stray `d` in the newer class and digits and `-`
  in the older one).
 */
module AbbrProofs {
  import opened Chars
  import opened Patterns
  import opened Replace
  import opened Markup
  import opened Matchers
  import opened CommonDefinitions
  import CommonRules
  import LegacyRules

  /** A class that names neither `<` nor `>`: runs of it never cross a tag boundary. */
  predicate BracketFree(k: CharClass) {
    !k.Has('<') && !k.Has('>')
  }

  /** The output run by run: each maximal run of three or more members of
      `upper`, where a match may start, is wrapped in `<abbr>`; every other
      run and character is copied. `inTag` is the tag state at the head of t. */
  function Wrapped(guarded: bool, upper: CharClass, inTag: bool, t: string): string
    decreases |t|
  {
    if |t| == 0 then []
    else
      var n := ClassRunEnd(upper, t, 0);
      if n == 0 then [t[0]] + Wrapped(guarded, upper, TagStep(inTag, t[0]), t[1..])
      else (if n >= 3 && !(guarded && inTag) then "<abbr>" + t[..n] + "</abbr>" else t[..n])
           + Wrapped(guarded, upper, inTag, t[n..])
  }

  lemma ClassRunOfSuffix(k: CharClass, s: string, i: nat)
    requires i <= |s|
    ensures ClassRunEnd(k, s[i..], 0) == ClassRunEnd(k, s, i) - i
  {
  }

  lemma ClassRunFromInside(k: CharClass, s: string, i: nat, p: nat)
    requires i <= |s| && i <= p <= ClassRunEnd(k, s, i)
    ensures ClassRunEnd(k, s, p) == ClassRunEnd(k, s, i)
  {
  }

  /** The matcher of `abbrs` on its own. */
  function Abbrs(g: bool, upper: CharClass): Matcher {
    (s: string, i: nat) => if i < |s| then AbbrAt(g, upper, s, i) else None
  }

  lemma ApplyIsAbbrs(g: bool, upper: CharClass, s: string)
    ensures Apply(WrapAbbr(g, upper), s) == ScanWith(Abbrs(g, upper), s, 0)
  {
    forall p | 0 <= p < |s|
      ensures MatcherOf(WrapAbbr(g, upper))(s, p) == Abbrs(g, upper)(s, p)
    {
      assert MatchAt(WrapAbbr(g, upper), s, p) == AbbrAt(g, upper, s, p);
    }
    ScanWithAgree(MatcherOf(WrapAbbr(g, upper)), Abbrs(g, upper), s, 0);
  }

  /** One step of the scan at i: a character outside the class is copied, a
      run of three or more that may start a match is wrapped, any other run
      is copied. */
  lemma AbbrStep(g: bool, upper: CharClass, s: string, i: nat)
    requires BracketFree(upper)
    requires i < |s|
    ensures var e := ClassRunEnd(upper, s, i);
            var m := Abbrs(g, upper);
            && (e == i ==> ScanWith(m, s, i) == [s[i]] + ScanWith(m, s, i + 1))
            && (e >= i + 3 && !Blocked(g, s, i) ==> ScanWith(m, s, i) == "<abbr>" + s[i..e] + "</abbr>" + ScanWith(m, s, e))
            && (e > i && !(e >= i + 3 && !Blocked(g, s, i)) ==> ScanWith(m, s, i) == s[i..e] + ScanWith(m, s, e))
  {
    var m := Abbrs(g, upper);
    var e := ClassRunEnd(upper, s, i);
    if e > i && !(e >= i + 3 && !Blocked(g, s, i)) {
      forall p | i <= p < e
        ensures !Proper(m, s, p)
      {
        ClassRunFromInside(upper, s, i, p);
        InTagAcrossPlainText(s, i, p);
      }
      ScanCopies(m, s, i, e);
    }
  }

  /** Wrapped after a first class run of n characters. */
  lemma WrappedRun(g: bool, upper: CharClass, st: bool, t: string, n: nat)
    requires 0 < n <= |t| && n == ClassRunEnd(upper, t, 0)
    ensures Wrapped(g, upper, st, t)
            == (if n >= 3 && !(g && st) then "<abbr>" + t[..n] + "</abbr>" else t[..n]) + Wrapped(g, upper, st, t[n..])
  {
  }

  lemma {:induction false} ScanIsWrapped(g: bool, upper: CharClass, s: string, i: nat)
    requires BracketFree(upper)
    requires i <= |s|
    ensures ScanWith(Abbrs(g, upper), s, i) == Wrapped(g, upper, InTag(s, i), s[i..])
    decreases |s| - i
  {
    if i < |s| {
      var t := s[i..];
      var st := InTag(s, i);
      ClassRunOfSuffix(upper, s, i);
      AbbrStep(g, upper, s, i);
      var e := ClassRunEnd(upper, s, i);
      var n := e - i;
      if n == 0 {
        ScanIsWrapped(g, upper, s, i + 1);
        assert t[1..] == s[i + 1..];
        assert InTag(s, i + 1) == TagStep(st, t[0]);
        calc {
          ScanWith(Abbrs(g, upper), s, i);
          [s[i]] + ScanWith(Abbrs(g, upper), s, i + 1);
          [t[0]] + Wrapped(g, upper, TagStep(st, t[0]), t[1..]);
          Wrapped(g, upper, st, t);
        }
      } else {
        ScanIsWrapped(g, upper, s, e);
        assert t[n..] == s[e..] && t[..n] == s[i..e];
        InTagAcrossPlainText(s, i, e);
        WrappedRun(g, upper, st, t, n);
      }
    }
  }

  /** The rule is the run-by-run description above. */
  lemma ApplyIsWrapped(g: bool, upper: CharClass, s: string)
    requires BracketFree(upper)
    ensures Apply(WrapAbbr(g, upper), s) == Wrapped(g, upper, false, s)
  {
    ApplyIsAbbrs(g, upper, s);
    ScanIsWrapped(g, upper, s, 0);
    assert s[0..] == s;
  }

  lemma AbbrTags()
    ensures TagPair("<abbr>", "</abbr>")
  {
    assert "</abbr>"[..6] != "<abbr>" by {
      assert "</abbr>"[..6][1] != "<abbr>"[1];
    }
  }

  /** One step of the scan at i, by the match found there. */
  lemma AbbrHitStep(g: bool, upper: CharClass, s: string, i: nat)
    requires i < |s|
    ensures var h := AbbrAt(g, upper, s, i);
            var m := Abbrs(g, upper);
            && (h.Some? ==> ScanWith(m, s, i) == "<abbr>" + s[i..h.value.end] + "</abbr>" + ScanWith(m, s, h.value.end))
            && (h.None? ==> ScanWith(m, s, i) == [s[i]] + ScanWith(m, s, i + 1))
  {
  }

  /** Deleting the tags around a hit s[i..e] whose rest is already undone. */
  lemma UnwrapHitStep(s: string, i: nat, e: nat, rest: string)
    requires NoOpenBracket(s) && i <= e <= |s|
    requires Unmark("<abbr>", "</abbr>", rest) == s[e..]
    ensures Unmark("<abbr>", "</abbr>", "<abbr>" + s[i..e] + "</abbr>" + rest) == s[i..]
  {
    AbbrTags();
    assert NoOpenBracket(s[i..e]) by {
      forall j | 0 <= j < e - i
        ensures s[i..e][j] != '<'
      {
        assert s[i..e][j] == s[i + j];
      }
    }
    assert [] + "<abbr>" + s[i..e] + "</abbr>" + rest == "<abbr>" + s[i..e] + "</abbr>" + rest;
    UnmarkWrapped("<abbr>", "</abbr>", [], s[i..e], rest);
    assert [] + s[i..e] == s[i..e];
    assert s[i..] == s[i..e] + s[e..];
  }

  /** A copied character passes through the deletion. */
  lemma UnwrapMissStep(s: string, i: nat, rest: string)
    requires NoOpenBracket(s) && i < |s|
    requires Unmark("<abbr>", "</abbr>", rest) == s[i + 1..]
    ensures Unmark("<abbr>", "</abbr>", [s[i]] + rest) == s[i..]
  {
    AbbrTags();
    UnmarkPlain("<abbr>", "</abbr>", [s[i]], rest);
    assert s[i..] == [s[i]] + s[i + 1..];
  }

  lemma {:induction false} ScanUnwraps(g: bool, upper: CharClass, s: string, i: nat)
    requires NoOpenBracket(s)
    requires i <= |s|
    ensures Unmark("<abbr>", "</abbr>", ScanWith(Abbrs(g, upper), s, i)) == s[i..]
    decreases |s| - i
  {
    var m := Abbrs(g, upper);
    if i < |s| {
      var h := AbbrAt(g, upper, s, i);
      AbbrHitStep(g, upper, s, i);
      if h.Some? {
        ScanUnwraps(g, upper, s, h.value.end);
        UnwrapHitStep(s, i, h.value.end, ScanWith(m, s, h.value.end));
      } else {
        ScanUnwraps(g, upper, s, i + 1);
        UnwrapMissStep(s, i, ScanWith(m, s, i + 1));
      }
    }
  }

  /** Deleting the inserted tags gives back a text that had no `<` of its own. */
  lemma UnwrapRestores(g: bool, upper: CharClass, s: string)
    requires NoOpenBracket(s)
    ensures Unmark("<abbr>", "</abbr>", Apply(WrapAbbr(g, upper), s)) == s
  {
    ApplyIsAbbrs(g, upper, s);
    ScanUnwraps(g, upper, s, 0);
    assert s[0..] == s;
  }

  /** Both classes as written name no bracket. */
  lemma ClassesAreBracketFree()
    ensures BracketFree(UpperLetter)
    ensures BracketFree(LegacyRules.DefaultDefs.upperletters)
  {
  }

  /** A text that is one run of three or more class members is wrapped whole. */
  lemma WholeRunWrapped(g: bool, upper: CharClass, t: string)
    requires BracketFree(upper)
    requires |t| >= 3 && forall j :: 0 <= j < |t| ==> upper.Has(t[j])
    ensures Apply(WrapAbbr(g, upper), t) == "<abbr>" + t + "</abbr>"
  {
    ApplyIsWrapped(g, upper, t);
    assert ClassRunEnd(upper, t, 0) == |t|;
    assert t[..|t|] == t && t[|t|..] == [];
    assert Wrapped(g, upper, false, []) == [];
  }

  /** Under the newer class a capital followed by lower-case `d`s is wrapped,
      as "Odd" is. */
  lemma StrayDWrapped(t: string)
    requires |t| >= 3 && 'A' <= t[0] <= 'Z' && forall j :: 1 <= j < |t| ==> t[j] == 'd'
    ensures Apply(CommonRules.Abbrs, t) == "<abbr>" + t + "</abbr>"
  {
    ClassesAreBracketFree();
    assert forall j :: 0 <= j < |t| ==> UpperLetter.Has(t[j]) by {
      forall j | 0 <= j < |t|
        ensures UpperLetter.Has(t[j])
      {
        if j > 0 {
          assert t[j] == 'd';
        }
      }
    }
    WholeRunWrapped(true, UpperLetter, t);
  }

  /** The rule is case-sensitive: ASCII lower-case text other than `d` is
      left alone. */
  lemma LowerCaseUntouched(t: string)
    requires forall j :: 0 <= j < |t| ==> 'a' <= t[j] <= 'z' && t[j] != 'd'
    ensures Apply(CommonRules.Abbrs, t) == t
  {
    var m := Abbrs(true, UpperLetter);
    forall p | 0 <= p < |t|
      ensures !Proper(m, t, p)
    {
      assert !UpperLetter.Has(t[p]);
    }
    ApplyIsAbbrs(true, UpperLetter, t);
    ScanUnchanged(m, t);
  }

  /** The range `À-Ž` runs from U+00C0 to U+017D and so holds the Latin-1
      lower-case letters `à`-`ÿ` and the lower-case letters of Latin
      Extended-A as well: "éèà" is wrapped like a capital run. */
  lemma AccentedRunWrapped(t: string)
    requires |t| >= 3 && forall j :: 0 <= j < |t| ==> 'À' <= t[j] <= 'Ž'
    ensures Apply(CommonRules.Abbrs, t) == "<abbr>" + t + "</abbr>"
  {
    ClassesAreBracketFree();
    assert forall j :: 0 <= j < |t| ==> UpperLetter.Has(t[j]);
    WholeRunWrapped(true, UpperLetter, t);
  }

  /** The older class takes digits and hyphens: "100" and "---" are wrapped. */
  lemma LegacyDigitsWrapped(t: string)
    requires |t| >= 3 && forall j :: 0 <= j < |t| ==> IsDigit(t[j]) || t[j] == '-'
    ensures Apply(LegacyRules.Abbr(LegacyRules.DefaultDefs), t) == "<abbr>" + t + "</abbr>"
  {
    var u := LegacyRules.DefaultDefs.upperletters;
    ClassesAreBracketFree();
    assert forall j :: 0 <= j < |t| ==> u.Has(t[j]);
    WholeRunWrapped(false, u, t);
  }
}
