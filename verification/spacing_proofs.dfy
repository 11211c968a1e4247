/**
  The spacing rules — `shortWords` and the older `shortWordsBreak`,
  `orphans` in both versions, `numberUnits` and `degreeSigns` — only change
  spaces. The length-keeping ones turn some class spaces into no-break
  spaces and keep every other character in place; all of them keep the
  text as it reads once spaces are dropped (`Squash`).
 */
module SpacingProofs {
  import opened Chars
  import opened Patterns
  import opened Replace
  import opened Matchers
  import opened Views
  import opened Pointwise
  import opened Pipeline
  import opened CommonDefinitions
  import CommonRules
  import LegacyRules

  /** The text as it reads with every kind of space dropped and hyphens
      read as dashes. */
  function Squash(c: char): string {
    if c == ' ' || c == '\t' || c == NBSP || c == HAIRSPACE then []
    else if c == '-' then [EMDASH]
    else [c]
  }

  /** Every member of the class is dropped by `Squash`. */
  predicate Squashed(space: CharClass) {
    forall c :: space.HasFolded(c) ==> Squash(c) == []
  }

  lemma SpaceSquashed()
    ensures Squashed(Space)
  {
    forall c | Space.HasFolded(c)
      ensures Squash(c) == []
    {
      SpaceMembers(c);
    }
  }

  lemma LegacySpaceSquashed()
    ensures Squashed(LegacyRules.DefaultDefs.space)
  {
    forall c | LegacyRules.DefaultDefs.space.HasFolded(c)
      ensures Squash(c) == []
    {
      LegacyRules.DefaultSpaceMembers(c);
    }
  }

  /** A character is kept, or a class space becomes `nbsp`. */
  function Respace(space: CharClass, nbsp: char): (char, char) -> bool {
    (a: char, b: char) => a == b || (space.HasFolded(a) && b == nbsp)
  }

  /** Texts related position by position, by a relation under which
      related characters squash alike, squash alike. */
  lemma {:induction false} RelatedSquash(r: (char, char) -> bool, a: string, b: string)
    requires Related(r, a, b)
    requires forall x, y :: r(x, y) ==> Squash(x) == Squash(y)
    ensures Project(Squash, a) == Project(Squash, b)
    decreases |a|
  {
    if |a| > 0 {
      assert r(a[0], b[0]);
      assert Related(r, a[1..], b[1..]) by {
        forall k | 0 <= k < |a| - 1
          ensures r(a[1..][k], b[1..][k])
        {
          assert r(a[k + 1], b[k + 1]);
        }
      }
      RelatedSquash(r, a[1..], b[1..]);
    }
  }

  lemma RespaceSquashes(space: CharClass, nbsp: char)
    requires Squashed(space) && Squash(nbsp) == []
    ensures forall x, y :: Respace(space, nbsp)(x, y) ==> Squash(x) == Squash(y)
  {
  }

  // ---------------------------------------------------------------------
  // Shapes of length-keeping hits

  /** A hit that keeps the text up to its last `|tail|` characters and
      rewrites those to `tail`, each related to the one it replaces. */
  lemma TailRelates(r: (char, char) -> bool, s: string, i: nat, e: nat, out: string, tail: string)
    requires i + |tail| <= e <= |s|
    requires out == s[i..e - |tail|] + tail
    requires forall j :: 0 <= j < |tail| ==> r(s[e - |tail| + j], tail[j])
    requires forall c :: r(c, c)
    ensures |out| == e - i && forall j :: 0 <= j < |out| ==> r(s[i + j], out[j])
  {
    forall j | 0 <= j < |out|
      ensures r(s[i + j], out[j])
    {
      if j < e - |tail| - i {
        assert out[j] == s[i + j];
      } else {
        assert out[j] == tail[j - (e - |tail| - i)];
      }
    }
  }

  /** A hit that rewrites its first character to `x` and keeps the rest. */
  lemma HeadRelates(r: (char, char) -> bool, s: string, i: nat, e: nat, out: string, x: char)
    requires i < e <= |s|
    requires out == [x] + s[i + 1..e]
    requires r(s[i], x)
    requires forall c :: r(c, c)
    ensures |out| == e - i && forall j :: 0 <= j < |out| ==> r(s[i + j], out[j])
  {
    forall j | 0 <= j < |out|
      ensures r(s[i + j], out[j])
    {
      if j > 0 {
        assert out[j] == s[i + j];
      }
    }
  }

  // ---------------------------------------------------------------------
  // shortWords

  lemma ShortWordsHitsRelate(s: string)
    ensures HitsRelate(MatcherOf(ShortWordsAfterGap), Respace(Space, NBSP), s)
  {
    var m := MatcherOf(ShortWordsAfterGap);
    var r := Respace(Space, NBSP);
    forall p | 0 <= p < |s| && Proper(m, s, p)
      ensures && |m(s, p).value.out| == m(s, p).value.end - p
              && forall j :: 0 <= j < |m(s, p).value.out| ==> r(s[p + j], m(s, p).value.out[j])
    {
      var h := ShortWordsAt(s, p).value;
      TailRelates(r, s, p, h.end, h.out, [NBSP]);
    }
  }

  /** `shortWords` keeps the length and every character, except spaces it
      turns into no-break spaces. */
  lemma ShortWordsRespace(s: string)
    ensures Related(Respace(Space, NBSP), s, Apply(CommonRules.ShortWords, s))
  {
    ShortWordsHitsRelate(s);
    ScanRelatesAll(MatcherOf(ShortWordsAfterGap), Respace(Space, NBSP), s);
  }

  lemma ShortWordsSquash(s: string)
    ensures Project(Squash, Apply(CommonRules.ShortWords, s)) == Project(Squash, s)
  {
    ShortWordsRespace(s);
    SpaceSquashed();
    RespaceSquashes(Space, NBSP);
    RelatedSquash(Respace(Space, NBSP), s, Apply(CommonRules.ShortWords, s));
  }

  // ---------------------------------------------------------------------
  // shortWordsBreak (older)

  lemma BoundedHitsRelate(w: ShortWordPattern, space: CharClass, nbsp: char, s: string)
    ensures HitsRelate(MatcherOf(ShortWordsBounded(w, space, nbsp)), Respace(space, nbsp), s)
  {
    var m := MatcherOf(ShortWordsBounded(w, space, nbsp));
    var r := Respace(space, nbsp);
    forall p | 0 <= p < |s| && Proper(m, s, p)
      ensures && |m(s, p).value.out| == m(s, p).value.end - p
              && forall j :: 0 <= j < |m(s, p).value.out| ==> r(s[p + j], m(s, p).value.out[j])
    {
      var h := ShortWordsBoundedAt(w, space, nbsp, s, p).value;
      TailRelates(r, s, p, h.end, h.out, [nbsp]);
    }
  }

  /** `shortWordsBreak` keeps the length and every character, except spaces
      it turns into no-break spaces. */
  lemma ShortWordsBreakRespace(s: string)
    ensures var d := LegacyRules.DefaultDefs;
            Related(Respace(d.space, d.nbsp), s, Apply(LegacyRules.ShortWordsBreak(d), s))
  {
    var d := LegacyRules.DefaultDefs;
    BoundedHitsRelate(LegacyRules.ShortWord(d), d.space, d.nbsp, s);
    ScanRelatesAll(MatcherOf(LegacyRules.ShortWordsBreak(d)), Respace(d.space, d.nbsp), s);
  }

  // ---------------------------------------------------------------------
  // orphans (both versions)

  lemma OrphanHitsRelate(g: bool, space: CharClass, nbsp: char, s: string)
    ensures HitsRelate(MatcherOf(OrphanBind(g, space, nbsp)), Respace(space, nbsp), s)
  {
    var m := MatcherOf(OrphanBind(g, space, nbsp));
    var r := Respace(space, nbsp);
    forall p | 0 <= p < |s| && Proper(m, s, p)
      ensures && |m(s, p).value.out| == m(s, p).value.end - p
              && forall j :: 0 <= j < |m(s, p).value.out| ==> r(s[p + j], m(s, p).value.out[j])
    {
      var h := OrphanAt(g, space, nbsp, s, p).value;
      HeadRelates(r, s, p, h.end, h.out, nbsp);
    }
  }

  /** `orphans` keeps the length and every character, except spaces it
      turns into no-break spaces. */
  lemma OrphansRespace(g: bool, space: CharClass, nbsp: char, s: string)
    ensures Related(Respace(space, nbsp), s, Apply(OrphanBind(g, space, nbsp), s))
  {
    OrphanHitsRelate(g, space, nbsp, s);
    ScanRelatesAll(MatcherOf(OrphanBind(g, space, nbsp)), Respace(space, nbsp), s);
  }

  lemma CommonOrphansSquash(s: string)
    ensures Project(Squash, Apply(CommonRules.Orphans, s)) == Project(Squash, s)
  {
    OrphansRespace(true, Space, NBSP, s);
    SpaceSquashed();
    RespaceSquashes(Space, NBSP);
    RelatedSquash(Respace(Space, NBSP), s, Apply(CommonRules.Orphans, s));
  }

  /** `{1,10}` counts UTF-16 code units, the patterns having no `u` flag:
      after a space, five characters above U+FFFF (ten units) still make a
      short last word, six do not. */
  lemma OrphanCountsCodeUnits(s: string)
    requires s == " \U{1F600}\U{1F600}\U{1F600}\U{1F600}\U{1F600}\U{1F600}"
    ensures OrphanAt(true, Space, NBSP, s[..6], 0).Some?
    ensures OrphanAt(true, Space, NBSP, s, 0).None?
  {
    SpaceMembers(' ');
    var t := s[..6];
    assert NonSpaceRunEnd(t, 1) == 6;
    assert UnitsIn(t, 1, 6) == 10;
    assert OrphanEndAt(t, 1, 5);
    forall n | 1 <= n <= 6
      ensures !OrphanEndAt(s, 1, n)
    {
      if n == 6 {
        assert UnitsIn(s, 1, 7) == 12;
      } else {
        assert !IsLineTerminator(s[1 + n]);
      }
    }
    assert NonSpaceRunEnd(s, 1) == 7;
  }

  /** The older `spaces` list (short words, then orphans) keeps the length
      and every character, except spaces it turns into no-break spaces. */
  lemma LegacySpacesRespace(s: string)
    ensures var d := LegacyRules.DefaultDefs;
            Related(Respace(d.space, d.nbsp), s, RunRules(LegacyRules.Spaces(d), s))
  {
    var d := LegacyRules.DefaultDefs;
    var r := Respace(d.space, d.nbsp);
    RunPair(LegacyRules.ShortWordsBreak(d), LegacyRules.Orphans(d), s);
    var t1 := Apply(LegacyRules.ShortWordsBreak(d), s);
    var t2 := Apply(LegacyRules.Orphans(d), t1);
    ShortWordsBreakRespace(s);
    OrphansRespace(false, d.space, d.nbsp, t1);
    forall k | 0 <= k < |s|
      ensures r(s[k], t2[k])
    {
      assert r(s[k], t1[k]) && r(t1[k], t2[k]);
      LegacyRules.DefaultSpaceMembers(t1[k]);
    }
  }

  // ---------------------------------------------------------------------
  // numberUnits

  lemma NumberUnitHitsRelate(s: string)
    ensures HitsRelate(MatcherOf(NumberUnitBind), Respace(Space, NBSP), s)
  {
    var m := MatcherOf(NumberUnitBind);
    var r := Respace(Space, NBSP);
    forall p | 0 <= p < |s| && Proper(m, s, p)
      ensures && |m(s, p).value.out| == m(s, p).value.end - p
              && forall j :: 0 <= j < |m(s, p).value.out| ==> r(s[p + j], m(s, p).value.out[j])
    {
      var h := NumberUnitAt(s, p).value;
      TailRelates(r, s, p, h.end, h.out, [NBSP, s[h.end - 1]]);
    }
  }

  /** `numberUnits` keeps the length and every character, except spaces it
      turns into no-break spaces. */
  lemma NumberUnitsRespace(s: string)
    ensures Related(Respace(Space, NBSP), s, Apply(CommonRules.NumberUnits, s))
  {
    NumberUnitHitsRelate(s);
    ScanRelatesAll(MatcherOf(NumberUnitBind), Respace(Space, NBSP), s);
  }

  // ---------------------------------------------------------------------
  // degreeSigns

  /** Dropped characters between a text and a degree sign do not show. */
  lemma {:induction false} SquashBeforeDegree(a: string, mid: string)
    requires forall k :: 0 <= k < |mid| ==> Squash(mid[k]) == []
    ensures Project(Squash, a + mid + [DEGREE]) == Project(Squash, a) + [DEGREE]
  {
    ProjectAppend(Squash, a + mid, [DEGREE]);
    ProjectAppend(Squash, a, mid);
    ProjectOne(Squash, DEGREE);
    assert Project(Squash, mid) == [] by {
      ProjectNothing(mid);
    }
  }

  lemma {:induction false} ProjectNothing(t: string)
    requires forall k :: 0 <= k < |t| ==> Squash(t[k]) == []
    ensures Project(Squash, t) == []
    decreases |t|
  {
    if |t| > 0 {
      ProjectNothing(t[1..]);
    }
  }

  lemma DegreeSplitKeeps(s: string, p: nat, t: nat, h: Hit)
    requires DegreeSplit(s, p, t, h)
    ensures Project(Squash, h.out) == Project(Squash, s[p..h.end])
  {
    assert h.out == s[p..t] + [HAIRSPACE] + [DEGREE];
    SquashBeforeDegree(s[p..t], [HAIRSPACE]);
    if h.end == t + 2 {
      SpaceMembers(s[t]);
      assert s[p..h.end] == s[p..t] + [s[t]] + [DEGREE];
      SquashBeforeDegree(s[p..t], [s[t]]);
    } else {
      assert s[p..h.end] == s[p..t] + [] + [DEGREE];
      SquashBeforeDegree(s[p..t], []);
    }
  }

  /** `degreeSigns` changes nothing but spacing: it only puts a hair space
      (in place of an optional space) before a degree sign. */
  lemma DegreeSignsSquash(s: string)
    ensures Project(Squash, Apply(CommonRules.DegreeSigns, s)) == Project(Squash, s)
  {
    var m := MatcherOf(DegreeBind);
    forall p | 0 <= p < |s| && Proper(m, s, p)
      ensures Project(Squash, m(s, p).value.out) == Project(Squash, s[p..m(s, p).value.end])
    {
      var t: nat :| DegreeSplit(s, p, t, m(s, p).value);
      DegreeSplitKeeps(s, p, t, m(s, p).value);
    }
    ScanKeepsProjectionAll(m, Squash, s);
  }
}
