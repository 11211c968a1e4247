/**
  `amps` and the older `amp` record: which ampersands are wrapped, that no
  ampersand is lost or added, and the round trip that puts ` & ` back in
  place of the inserted markup.
 */
module AmpProofs {
  import opened Chars
  import opened Patterns
  import opened Replace
  import opened Views
  import opened Matchers
  import opened Inverse
  import opened CommonDefinitions
  import CommonRules
  import LegacyRules

  /** The matcher of `amps` on its own. */
  function Amps(g: bool, space: CharClass, nbsp: char): Matcher {
    (s: string, i: nat) => if i < |s| then AmpAt(g, space, nbsp, s, i) else None
  }

  lemma ApplyIsAmps(g: bool, space: CharClass, nbsp: char, s: string)
    ensures Apply(WrapAmp(g, space, nbsp), s) == ScanWith(Amps(g, space, nbsp), s, 0)
  {
    forall p | 0 <= p < |s|
      ensures MatcherOf(WrapAmp(g, space, nbsp))(s, p) == Amps(g, space, nbsp)(s, p)
    {
      assert MatchAt(WrapAmp(g, space, nbsp), s, p) == AmpAt(g, space, nbsp, s, p);
    }
    ScanWithAgree(MatcherOf(WrapAmp(g, space, nbsp)), Amps(g, space, nbsp), s, 0);
  }

  /** The text the rule puts in place of ` & `. */
  function Wrapping(nbsp: char): (w: string)
    ensures |w| > 0 && w[0] == nbsp
  {
    [nbsp] + AmpMarkup + [nbsp]
  }

  // ---------------------------------------------------------------------
  // The output run by run

  /** t starts with a free ` & `: a class space, an ampersand that starts
      no entity, another class space, at a place where a match may start
      (`inTag` is the tag state at the head of t). */
  predicate FreeAmp(g: bool, space: CharClass, inTag: bool, t: string) {
    && |t| >= 3 && !(g && inTag)
    && space.HasFolded(t[0]) && t[1] == '&' && space.HasFolded(t[2])
    && !EntityAhead(t, 2)
  }

  /** The output from the head of t on: each free ` & ` becomes the wrapped
      ampersand and the reading goes on after its second space, so in
      ` & & ` only the first ampersand is wrapped; every other character is
      copied. */
  function AmpWrapped(g: bool, space: CharClass, nbsp: char, inTag: bool, t: string): string
    decreases |t|
  {
    if |t| == 0 then []
    else if FreeAmp(g, space, inTag, t) then
      Wrapping(nbsp) + AmpWrapped(g, space, nbsp, StateAfter(inTag, t[..3]), t[3..])
    else
      [t[0]] + AmpWrapped(g, space, nbsp, TagStep(inTag, t[0]), t[1..])
  }

  /** The entity lookahead reads the same in a suffix of the text. */
  lemma {:induction false} EntityAheadInSuffix(s: string, i: nat, q: nat)
    requires i + q <= |s|
    ensures EntityAhead(s[i..], q) == EntityAhead(s, i + q)
    decreases |s| - (i + q)
  {
    if i + q < |s| {
      EntityAheadInSuffix(s, i, q + 1);
      assert s[i..][q] == s[i + q];
    }
  }

  /** The match at i is the free ` & ` at the head of the rest of the text. */
  lemma AmpAtIsFree(g: bool, space: CharClass, nbsp: char, s: string, i: nat)
    requires i < |s|
    ensures AmpAt(g, space, nbsp, s, i).Some? <==> FreeAmp(g, space, InTag(s, i), s[i..])
  {
    if i + 2 < |s| {
      EntityAheadInSuffix(s, i, 2);
    }
  }

  lemma {:induction false} ScanIsAmpWrapped(g: bool, space: CharClass, nbsp: char, s: string, i: nat)
    requires i <= |s|
    ensures ScanWith(Amps(g, space, nbsp), s, i) == AmpWrapped(g, space, nbsp, InTag(s, i), s[i..])
    decreases |s| - i
  {
    if i < |s| {
      var m := Amps(g, space, nbsp);
      var t := s[i..];
      var st := InTag(s, i);
      AmpAtIsFree(g, space, nbsp, s, i);
      if Proper(m, s, i) {
        ScanIsAmpWrapped(g, space, nbsp, s, i + 3);
        ScanHit(m, s, i);
        InTagAdvance(s, i, i + 3);
        assert t[..3] == s[i..i + 3] && t[3..] == s[i + 3..];
      } else {
        ScanIsAmpWrapped(g, space, nbsp, s, i + 1);
        ScanMiss(m, s, i);
        assert t[1..] == s[i + 1..];
      }
    }
  }

  /** `amps` is the run-by-run description above. */
  lemma ApplyIsAmpWrapped(g: bool, space: CharClass, nbsp: char, s: string)
    ensures Apply(WrapAmp(g, space, nbsp), s) == AmpWrapped(g, space, nbsp, false, s)
  {
    ApplyIsAmps(g, space, nbsp, s);
    ScanIsAmpWrapped(g, space, nbsp, s, 0);
    assert s[0..] == s;
  }

  /** Characters between `A` and `z` are neither spaces nor brackets. */
  predicate Wordy(a: string) {
    forall j :: 0 <= j < |a| ==> 'A' <= a[j] <= 'z'
  }

  /** `amps` copies a word and keeps the tag state. */
  lemma {:induction false} AmpWrappedCopiesWord(st: bool, a: string, rest: string)
    requires Wordy(a)
    ensures AmpWrapped(true, Space, NBSP, st, a + rest) == a + AmpWrapped(true, Space, NBSP, st, rest)
    decreases |a|
  {
    if |a| > 0 {
      var t := a + rest;
      assert t[0] == a[0] && t[1..] == a[1..] + rest;
      SpaceMembers(a[0]);
      assert !FreeAmp(true, Space, st, t);
      AmpWrappedCopiesWord(st, a[1..], rest);
    } else {
      assert a + rest == rest;
    }
  }

  /** Between two words, as in the test sentence `Dessi & Tsiri`, the
      ampersand is wrapped and its spaces become no-break spaces. */
  /** A leading ` & ` is free: the second space leaves no room for an entity. */
  lemma FreeAmpHead(rest: string)
    ensures AmpWrapped(true, Space, NBSP, false, " & " + rest) == Wrapping(NBSP) + AmpWrapped(true, Space, NBSP, false, rest)
  {
    var t := " & " + rest;
    SpaceMembers(' ');
    assert FreeAmp(true, Space, false, t);
    assert t[..3] == " & " && t[3..] == rest;
    assert StateAfter(false, " & ") == false;
  }

  /** `& ` before a word is copied: the `&` has no space before it, and the
      space has no `&` after it. */
  lemma AmpSpaceCopied(b: string)
    requires Wordy(b) && |b| > 0
    ensures AmpWrapped(true, Space, NBSP, false, "& " + b) == "& " + b
  {
    var u := "& " + b;
    var v := " " + b;
    SpaceMembers('&');
    assert !FreeAmp(true, Space, false, u);
    assert u[1..] == v && TagStep(false, u[0]) == false;
    assert !FreeAmp(true, Space, false, v) by {
      assert v[1] == b[0];
    }
    assert v[1..] == b && TagStep(false, v[0]) == false;
    AmpWrappedCopiesWord(false, b, []);
    assert b + [] == b;
    calc {
      AmpWrapped(true, Space, NBSP, false, u);
      [u[0]] + AmpWrapped(true, Space, NBSP, false, v);
      [u[0]] + ([v[0]] + AmpWrapped(true, Space, NBSP, false, b));
      "& " + b;
    }
  }

  lemma WordsAroundAmp(a: string, b: string)
    requires Wordy(a) && Wordy(b)
    ensures Apply(CommonRules.Amps, a + " & " + b) == a + Wrapping(NBSP) + b
  {
    var t := " & " + b;
    assert a + " & " + b == a + t;
    ApplyIsAmpWrapped(true, Space, NBSP, a + t);
    AmpWrappedCopiesWord(false, a, t);
    FreeAmpHead(b);
    AmpWrappedCopiesWord(false, b, []);
    assert b + [] == b;
  }

  /** In `a & & b` the match takes the space between the two ampersands,
      so the second one is copied as it is. */
  lemma SecondAmpCopied(a: string, b: string)
    requires Wordy(a) && Wordy(b) && |b| > 0
    ensures Apply(CommonRules.Amps, a + " & & " + b) == a + Wrapping(NBSP) + "& " + b
  {
    var t := " & " + ("& " + b);
    assert a + " & & " + b == a + t;
    ApplyIsAmpWrapped(true, Space, NBSP, a + t);
    AmpWrappedCopiesWord(false, a, t);
    FreeAmpHead("& " + b);
    AmpSpaceCopied(b);
  }

  // ---------------------------------------------------------------------
  // Ampersands are neither lost nor added

  function AmpOnly(c: char): string {
    if c == '&' then "&" else []
  }

  lemma ProjectNoAmp(t: string)
    requires '&' !in t
    ensures Project(AmpOnly, t) == []
  {
  }

  /** Text around a single ampersand that holds no other one shows just it. */
  lemma ProjectOneAmp(x: char, a: string, b: string, y: char)
    requires x != '&' && y != '&' && '&' !in a && '&' !in b
    ensures Project(AmpOnly, [x] + a + "&" + b + [y]) == "&"
  {
    ProjectNoAmp(a);
    ProjectNoAmp(b);
    ProjectAppend(AmpOnly, [x] + a + "&" + b, [y]);
    ProjectAppend(AmpOnly, [x] + a + "&", b);
    ProjectAppend(AmpOnly, [x] + a, "&");
    ProjectAppend(AmpOnly, [x], a);
  }

  /** The inserted markup shows exactly one ampersand. */
  lemma WrappingShowsOneAmp(nbsp: char)
    requires nbsp != '&'
    ensures Project(AmpOnly, Wrapping(nbsp)) == "&"
  {
    assert '&' !in AmpOpen && '&' !in AmpClose;
    assert Wrapping(nbsp) == [nbsp] + AmpOpen + "&" + AmpClose + [nbsp];
    ProjectOneAmp(nbsp, AmpOpen, AmpClose, nbsp);
  }

  lemma AmpHitsKeep(g: bool, space: CharClass, nbsp: char, s: string)
    requires nbsp != '&' && !space.HasFolded('&')
    ensures HitsKeep(Amps(g, space, nbsp), AmpOnly, s)
  {
    var m := Amps(g, space, nbsp);
    forall p | 0 <= p < |s| && Proper(m, s, p)
      ensures Project(AmpOnly, m(s, p).value.out) == Project(AmpOnly, s[p..m(s, p).value.end])
    {
      WrappingShowsOneAmp(nbsp);
      assert s[p] != '&' && s[p + 2] != '&';
      assert s[p..p + 3] == [s[p]] + [s[p + 1]] + [s[p + 2]];
      ProjectAppend(AmpOnly, [s[p]] + [s[p + 1]], [s[p + 2]]);
      ProjectAppend(AmpOnly, [s[p]], [s[p + 1]]);
    }
  }

  /** The rule keeps every ampersand and adds none: listing the ampersands
      of the output gives those of the input. */
  lemma KeepsAmpersands(g: bool, space: CharClass, nbsp: char, s: string)
    requires nbsp != '&' && !space.HasFolded('&')
    ensures Project(AmpOnly, Apply(WrapAmp(g, space, nbsp), s)) == Project(AmpOnly, s)
  {
    ApplyIsAmps(g, space, nbsp, s);
    AmpHitsKeep(g, space, nbsp, s);
    ScanKeepsProjectionAll(Amps(g, space, nbsp), AmpOnly, s);
  }

  lemma CommonAmpsKeepAmpersands(s: string)
    ensures Project(AmpOnly, Apply(CommonRules.Amps, s)) == Project(AmpOnly, s)
  {
    SpaceMembers('&');
    KeepsAmpersands(true, Space, NBSP, s);
  }

  lemma LegacyAmpKeepsAmpersands(s: string)
    ensures Project(AmpOnly, Apply(LegacyRules.Amp(LegacyRules.DefaultDefs), s)) == Project(AmpOnly, s)
  {
    LegacyRules.DefaultSpaceMembers('&');
    KeepsAmpersands(false, LegacyRules.DefaultDefs.space, NBSP, s);
  }

  // ---------------------------------------------------------------------
  // Round trip

  /** Every character of s that the class holds is a plain space. */
  predicate OnlyPlainSpaces(space: CharClass, s: string) {
    forall j :: 0 <= j < |s| && space.HasFolded(s[j]) ==> s[j] == ' '
  }

  lemma AmpHitsSwap(g: bool, space: CharClass, nbsp: char, s: string)
    requires OnlyPlainSpaces(space, s)
    ensures HitsSwap(Amps(g, space, nbsp), Wrapping(nbsp), " & ", s)
  {
    var m := Amps(g, space, nbsp);
    forall p | 0 <= p < |s| && Proper(m, s, p)
      ensures && p + 3 <= m(s, p).value.end
              && s[p..p + 3] == " & "
              && m(s, p).value.out == Wrapping(nbsp) + s[p + 3..m(s, p).value.end]
    {
      assert s[p] == ' ' && s[p + 2] == ' ';
      assert s[p + 3..p + 3] == [];
    }
  }

  /** Putting ` & ` back wherever the output holds the inserted markup gives
      the input again, for a text whose only spaces of the class are plain
      spaces and which has no no-break space of its own. */
  lemma UnwrapRestores(g: bool, space: CharClass, nbsp: char, s: string)
    requires OnlyPlainSpaces(space, s) && Lacks(s, nbsp)
    ensures Unreplace(Wrapping(nbsp), " & ", Apply(WrapAmp(g, space, nbsp), s)) == s
  {
    ApplyIsAmps(g, space, nbsp, s);
    AmpHitsSwap(g, space, nbsp, s);
    UnreplaceRestores(Amps(g, space, nbsp), Wrapping(nbsp), " & ", s);
  }

  /** No tab, no-break space or hair space: `amps` is undone exactly. */
  lemma CommonAmpsRestore(s: string)
    requires Lacks(s, '\t') && Lacks(s, NBSP) && Lacks(s, HAIRSPACE)
    ensures Unreplace(Wrapping(NBSP), " & ", Apply(CommonRules.Amps, s)) == s
  {
    forall j | 0 <= j < |s| && Space.HasFolded(s[j])
      ensures s[j] == ' '
    {
      SpaceMembers(s[j]);
    }
    UnwrapRestores(true, Space, NBSP, s);
  }

  /** No tab and no no-break space: the older `amp` record is undone exactly. */
  lemma LegacyAmpRestores(s: string)
    requires Lacks(s, '\t') && Lacks(s, NBSP)
    ensures Unreplace(Wrapping(NBSP), " & ", Apply(LegacyRules.Amp(LegacyRules.DefaultDefs), s)) == s
  {
    forall j | 0 <= j < |s| && LegacyRules.DefaultDefs.space.HasFolded(s[j])
      ensures s[j] == ' '
    {
      LegacyRules.DefaultSpaceMembers(s[j]);
    }
    UnwrapRestores(false, LegacyRules.DefaultDefs.space, NBSP, s);
  }

  // ---------------------------------------------------------------------
  // Where nothing happens

  /** An ampersand that is not both preceded and followed by a class space,
      or sits inside a tag under the guard, is left alone: a text with no
      such ` & ` comes out unchanged. */
  lemma NoFreeAmpUnchanged(g: bool, space: CharClass, nbsp: char, s: string)
    requires forall p :: 0 <= p && p + 2 < |s| && s[p + 1] == '&' ==>
               !space.HasFolded(s[p]) || !space.HasFolded(s[p + 2]) || Blocked(g, s, p) || EntityAhead(s, p + 2)
    ensures Apply(WrapAmp(g, space, nbsp), s) == s
  {
    var m := Amps(g, space, nbsp);
    forall p | 0 <= p < |s|
      ensures !Proper(m, s, p)
    {
      assert m(s, p) == AmpAt(g, space, nbsp, s, p);
    }
    ApplyIsAmps(g, space, nbsp, s);
    ScanUnchanged(m, s);
  }
}
