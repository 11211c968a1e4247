/**
  The four `dashes` steps and the older `emdash` records: each step only
  moves spaces around a dash and turns a dash into `—`, so the text as it
  reads without spaces (hyphens read as dashes) is kept by every step and
  by the whole list. Steps 3 and 4 also keep the length. The guard of step
  4 covers only its `^` alternative: after punctuation it replaces inside
  tags too.
 */
module DashProofs {
  import opened Chars
  import opened Patterns
  import opened Replace
  import opened Matchers
  import opened Views
  import opened Pointwise
  import opened Pipeline
  import opened CommonDefinitions
  import opened SpacingProofs
  import CommonRules
  import LegacyRules

  /** Every member of the class reads as an em dash. */
  predicate DashLike(dash: CharClass) {
    forall c :: dash.HasFolded(c) ==> Squash(c) == [EMDASH]
  }

  lemma DashIsDashLike()
    ensures DashLike(Dash)
  {
    forall c | Dash.HasFolded(c)
      ensures Squash(c) == [EMDASH]
    {
      DashMembers(c);
    }
  }

  lemma LegacyDashIsDashLike()
    ensures DashLike(LegacyRules.DefaultDefs.dash)
  {
    forall c | LegacyRules.DefaultDefs.dash.HasFolded(c)
      ensures Squash(c) == [EMDASH]
    {
      LegacyRules.DefaultDashMembers(c);
    }
  }

  /** The spacing conditions every step needs: class spaces and `nbsp`
      are dropped, class dashes read as `—`. */
  predicate Spacing(space: CharClass, dash: CharClass, nbsp: char) {
    Squashed(space) && Squash(nbsp) == [] && DashLike(dash)
  }

  lemma CommonSpacing()
    ensures Spacing(Space, Dash, NBSP)
  {
    SpaceSquashed();
    DashIsDashLike();
  }

  lemma LegacySpacing()
    ensures var d := LegacyRules.DefaultDefs; Spacing(d.space, d.dash, d.nbsp)
  {
    LegacySpaceSquashed();
    LegacyDashIsDashLike();
  }

  /** Dropped characters around a kept text do not show. */
  lemma {:induction false} SquashAround(pre: string, a: string, post: string)
    requires forall k :: 0 <= k < |pre| ==> Squash(pre[k]) == []
    requires forall k :: 0 <= k < |post| ==> Squash(post[k]) == []
    ensures Project(Squash, pre + a + post) == Project(Squash, a)
  {
    ProjectAppend(Squash, pre + a, post);
    ProjectAppend(Squash, pre, a);
    ProjectNothing(pre);
    ProjectNothing(post);
  }

  // ---------------------------------------------------------------------
  // Step 1: `(\S)space?—` -> `$1nbsp—`

  lemma JoinHitKeeps(g: bool, space: CharClass, nbsp: char, s: string, p: nat)
    requires Squashed(space) && Squash(nbsp) == []
    requires p < |s| && DashJoinAt(g, space, nbsp, s, p).Some?
    ensures var h := DashJoinAt(g, space, nbsp, s, p).value;
            Project(Squash, h.out) == Project(Squash, s[p..h.end])
  {
    var h := DashJoinAt(g, space, nbsp, s, p).value;
    assert h.out == [s[p]] + ([nbsp] + [EMDASH]);
    ProjectAppend(Squash, [s[p]], [nbsp] + [EMDASH]);
    SquashAround([nbsp], [EMDASH], []);
    assert [nbsp] + [EMDASH] + [] == [nbsp] + [EMDASH];
    if h.end == p + 3 {
      assert s[p..h.end] == [s[p]] + ([s[p + 1]] + [EMDASH] + []);
      ProjectAppend(Squash, [s[p]], [s[p + 1]] + [EMDASH] + []);
      SquashAround([s[p + 1]], [EMDASH], []);
    } else {
      assert s[p..h.end] == [s[p]] + ([] + [EMDASH] + []);
      ProjectAppend(Squash, [s[p]], [] + [EMDASH] + []);
      SquashAround([], [EMDASH], []);
    }
  }

  /** Step 1 only puts a no-break space (in place of an optional space)
      before an em dash. */
  lemma JoinSquash(g: bool, space: CharClass, nbsp: char, s: string)
    requires Squashed(space) && Squash(nbsp) == []
    ensures Project(Squash, Apply(DashJoin(g, space, nbsp), s)) == Project(Squash, s)
  {
    var m := MatcherOf(DashJoin(g, space, nbsp));
    forall p | 0 <= p < |s| && Proper(m, s, p)
      ensures Project(Squash, m(s, p).value.out) == Project(Squash, s[p..m(s, p).value.end])
    {
      JoinHitKeeps(g, space, nbsp, s, p);
    }
    ScanKeepsProjectionAll(m, Squash, s);
  }

  // ---------------------------------------------------------------------
  // Step 2: `—(\S)` -> `— $1`

  /** Step 2 only puts a space after an em dash. */
  lemma SpaceAfterSquash(g: bool, s: string)
    ensures Project(Squash, Apply(DashSpaceAfter(g), s)) == Project(Squash, s)
  {
    var m := MatcherOf(DashSpaceAfter(g));
    forall p | 0 <= p < |s| && Proper(m, s, p)
      ensures Project(Squash, m(s, p).value.out) == Project(Squash, s[p..m(s, p).value.end])
    {
      var h := DashSpaceAfterAt(g, s, p).value;
      assert h.out == [EMDASH] + [' '] + [s[p + 1]];
      assert s[p..h.end] == [EMDASH] + [] + [s[p + 1]];
      ProjectAppend(Squash, [EMDASH] + [' '], [s[p + 1]]);
      ProjectAppend(Squash, [EMDASH] + [], [s[p + 1]]);
      SquashAround([], [EMDASH], [' ']);
      SquashAround([], [EMDASH], []);
      assert [] + [EMDASH] + [' '] == [EMDASH] + [' '];
      assert [] + [EMDASH] + [] == [EMDASH] + [];
    }
    ScanKeepsProjectionAll(m, Squash, s);
  }

  /** The matcher of step 2 on its own. */
  function SpacesAfter(g: bool): Matcher {
    (s: string, i: nat) => if i < |s| then DashSpaceAfterAt(g, s, i) else None
  }

  lemma ApplyIsSpacesAfter(g: bool, s: string)
    ensures Apply(DashSpaceAfter(g), s) == ScanWith(SpacesAfter(g), s, 0)
  {
    forall p | 0 <= p < |s|
      ensures MatcherOf(DashSpaceAfter(g))(s, p) == SpacesAfter(g)(s, p)
    {
      assert MatchAt(DashSpaceAfter(g), s, p) == DashSpaceAfterAt(g, s, p);
    }
    ScanWithAgree(MatcherOf(DashSpaceAfter(g)), SpacesAfter(g), s, 0);
  }

  /** The output of step 2 from the head of t on (`inTag` is the tag state
      there): an em dash followed by a character that is not a space, at a
      place where a match may start, gets a space between the two, and the
      reading goes on after that character, so of three em dashes in a row
      only the first is spaced; every other character is copied. */
  function SpacedAfter(g: bool, inTag: bool, t: string): string
    decreases |t|
  {
    if |t| == 0 then []
    else if |t| >= 2 && t[0] == EMDASH && !(g && inTag) && !IsSpace(t[1]) then
      [EMDASH, ' ', t[1]] + SpacedAfter(g, StateAfter(inTag, t[..2]), t[2..])
    else
      [t[0]] + SpacedAfter(g, TagStep(inTag, t[0]), t[1..])
  }

  lemma {:induction false} ScanIsSpacedAfter(g: bool, s: string, i: nat)
    requires i <= |s|
    ensures ScanWith(SpacesAfter(g), s, i) == SpacedAfter(g, InTag(s, i), s[i..])
    decreases |s| - i
  {
    if i < |s| {
      var m := SpacesAfter(g);
      var t := s[i..];
      if Proper(m, s, i) {
        ScanIsSpacedAfter(g, s, i + 2);
        ScanHit(m, s, i);
        InTagAdvance(s, i, i + 2);
        assert t[..2] == s[i..i + 2] && t[2..] == s[i + 2..];
      } else {
        ScanIsSpacedAfter(g, s, i + 1);
        ScanMiss(m, s, i);
        assert t[1..] == s[i + 1..];
      }
    }
  }

  /** Step 2 is the run-by-run description above. */
  lemma ApplyIsSpacedAfter(g: bool, s: string)
    ensures Apply(DashSpaceAfter(g), s) == SpacedAfter(g, false, s)
  {
    ApplyIsSpacesAfter(g, s);
    ScanIsSpacedAfter(g, s, 0);
    assert s[0..] == s;
  }

  /** Of `———` only the first dash is spaced: the match takes the second one
      with it. */
  lemma ThreeDashes(g: bool, s: string)
    requires s == [EMDASH, EMDASH, EMDASH]
    ensures Apply(DashSpaceAfter(g), s) == [EMDASH, ' ', EMDASH, EMDASH]
  {
    ApplyIsSpacedAfter(g, s);
    assert s[..2] == [EMDASH, EMDASH] && s[2..] == [EMDASH];
    var st := StateAfter(false, s[..2]);
    assert s[..2][1..] == [EMDASH] && [EMDASH][1..] == [];
    assert StateAfter(false, [EMDASH]) == StateAfter(false, []) == false;
    assert st == false;
    assert SpacedAfter(g, st, [EMDASH]) == [EMDASH] + SpacedAfter(g, TagStep(st, EMDASH), []);
  }

  // ---------------------------------------------------------------------
  // Steps 3 and 4: length-keeping

  /** A character is kept, a class space becomes `nbsp`, or a class dash
      becomes `—`. */
  function Redash(space: CharClass, dash: CharClass, nbsp: char): (char, char) -> bool {
    (a: char, b: char) => a == b || (space.HasFolded(a) && b == nbsp) || (dash.HasFolded(a) && b == EMDASH)
  }

  lemma RedashSquashes(space: CharClass, dash: CharClass, nbsp: char)
    requires Spacing(space, dash, nbsp)
    ensures forall x, y :: Redash(space, dash, nbsp)(x, y) ==> Squash(x) == Squash(y)
  {
  }

  /** The matcher of step 3 on its own. */
  function AfterWords(g: bool, word: CharClass, tag: TagShape, space: CharClass, dash: CharClass, nbsp: char): Matcher {
    (s: string, i: nat) => if i < |s| then DashAfterWordAt(g, word, tag, space, dash, nbsp, s, i) else None
  }

  lemma ApplyIsAfterWords(g: bool, word: CharClass, tag: TagShape, space: CharClass, dash: CharClass, nbsp: char, s: string)
    ensures Apply(DashAfterWord(g, word, tag, space, dash, nbsp), s) == ScanWith(AfterWords(g, word, tag, space, dash, nbsp), s, 0)
  {
    var m := AfterWords(g, word, tag, space, dash, nbsp);
    forall p | 0 <= p < |s|
      ensures MatcherOf(DashAfterWord(g, word, tag, space, dash, nbsp))(s, p) == m(s, p)
    {
      assert MatchAt(DashAfterWord(g, word, tag, space, dash, nbsp), s, p) == DashAfterWordAt(g, word, tag, space, dash, nbsp, s, p);
    }
    ScanWithAgree(MatcherOf(DashAfterWord(g, word, tag, space, dash, nbsp)), m, s, 0);
  }

  /** The matcher of step 4 on its own. */
  function Leadings(g: bool, punct: PunctuationPattern, space: CharClass, dash: CharClass, nbsp: char): Matcher {
    (s: string, i: nat) => if i < |s| then DashLeadingAt(g, punct, space, dash, nbsp, s, i) else None
  }

  lemma ApplyIsLeadings(g: bool, punct: PunctuationPattern, space: CharClass, dash: CharClass, nbsp: char, s: string)
    ensures Apply(DashLeading(g, punct, space, dash, nbsp), s) == ScanWith(Leadings(g, punct, space, dash, nbsp), s, 0)
  {
    var m := Leadings(g, punct, space, dash, nbsp);
    forall p | 0 <= p < |s|
      ensures MatcherOf(DashLeading(g, punct, space, dash, nbsp))(s, p) == m(s, p)
    {
      assert MatchAt(DashLeading(g, punct, space, dash, nbsp), s, p) == DashLeadingAt(g, punct, space, dash, nbsp, s, p);
    }
    ScanWithAgree(MatcherOf(DashLeading(g, punct, space, dash, nbsp)), m, s, 0);
  }

  /** A hit that keeps its text but for the last two characters, each
      rewritten as Redash allows. */
  lemma RedashTail(space: CharClass, dash: CharClass, nbsp: char, s: string, p: nat, e: nat, out: string, x: char, y: char)
    requires p + 2 <= e <= |s| && out == s[p..e - 2] + [x, y]
    requires Redash(space, dash, nbsp)(s[e - 2], x) && Redash(space, dash, nbsp)(s[e - 1], y)
    ensures |out| == e - p && forall j :: 0 <= j < |out| ==> Redash(space, dash, nbsp)(s[p + j], out[j])
  {
    var r := Redash(space, dash, nbsp);
    var tail := [x, y];
    assert e - |tail| == e - 2;
    forall j | 0 <= j < |tail|
      ensures r(s[e - |tail| + j], tail[j])
    {
      if j == 1 {
        assert s[e - |tail| + j] == s[e - 1];
      }
    }
    TailRelates(r, s, p, e, out, tail);
  }

  lemma AfterWordHitsRelate(g: bool, word: CharClass, tag: TagShape, space: CharClass, dash: CharClass, nbsp: char, s: string)
    ensures HitsRelate(AfterWords(g, word, tag, space, dash, nbsp), Redash(space, dash, nbsp), s)
  {
    var m := AfterWords(g, word, tag, space, dash, nbsp);
    forall p | 0 <= p < |s| && Proper(m, s, p)
      ensures && |m(s, p).value.out| == m(s, p).value.end - p
              && forall j :: 0 <= j < |m(s, p).value.out| ==> Redash(space, dash, nbsp)(s[p + j], m(s, p).value.out[j])
    {
      AfterWordHit(g, word, tag, space, dash, nbsp, s, p, m(s, p).value);
    }
  }

  lemma AfterWordHit(g: bool, word: CharClass, tag: TagShape, space: CharClass, dash: CharClass, nbsp: char,
                     s: string, p: nat, h: Hit)
    requires p < |s| && DashAfterWordAt(g, word, tag, space, dash, nbsp, s, p) == Some(h)
    ensures |h.out| == h.end - p && forall j :: 0 <= j < |h.out| ==> Redash(space, dash, nbsp)(s[p + j], h.out[j])
  {
    RedashTail(space, dash, nbsp, s, p, h.end, h.out, nbsp, EMDASH);
  }

  /** Step 3 keeps the length: before a dash that follows a word and a
      space, the space becomes `nbsp` and the dash `—`. */
  lemma AfterWordRedash(g: bool, word: CharClass, tag: TagShape, space: CharClass, dash: CharClass, nbsp: char, s: string)
    ensures Related(Redash(space, dash, nbsp), s, Apply(DashAfterWord(g, word, tag, space, dash, nbsp), s))
  {
    AfterWordHitsRelate(g, word, tag, space, dash, nbsp, s);
    ApplyIsAfterWords(g, word, tag, space, dash, nbsp, s);
    ScanRelatesAll(AfterWords(g, word, tag, space, dash, nbsp), Redash(space, dash, nbsp), s);
  }

  lemma LeadingHitsRelate(g: bool, punct: PunctuationPattern, space: CharClass, dash: CharClass, nbsp: char, s: string)
    ensures HitsRelate(Leadings(g, punct, space, dash, nbsp), Redash(space, dash, nbsp), s)
  {
    var m := Leadings(g, punct, space, dash, nbsp);
    forall p | 0 <= p < |s| && Proper(m, s, p)
      ensures && |m(s, p).value.out| == m(s, p).value.end - p
              && forall j :: 0 <= j < |m(s, p).value.out| ==> Redash(space, dash, nbsp)(s[p + j], m(s, p).value.out[j])
    {
      LeadingHit(g, punct, space, dash, nbsp, s, p, m(s, p).value);
    }
  }

  lemma LeadingHit(g: bool, punct: PunctuationPattern, space: CharClass, dash: CharClass, nbsp: char,
                   s: string, p: nat, h: Hit)
    requires p < |s| && DashLeadingAt(g, punct, space, dash, nbsp, s, p) == Some(h)
    ensures |h.out| == h.end - p && forall j :: 0 <= j < |h.out| ==> Redash(space, dash, nbsp)(s[p + j], h.out[j])
  {
    RedashTail(space, dash, nbsp, s, p, h.end, h.out, EMDASH, nbsp);
  }

  /** Step 4 keeps the length: a dash and space at a line start or after
      punctuation become `—` and `nbsp`. */
  lemma LeadingRedash(g: bool, punct: PunctuationPattern, space: CharClass, dash: CharClass, nbsp: char, s: string)
    ensures Related(Redash(space, dash, nbsp), s, Apply(DashLeading(g, punct, space, dash, nbsp), s))
  {
    LeadingHitsRelate(g, punct, space, dash, nbsp, s);
    ApplyIsLeadings(g, punct, space, dash, nbsp, s);
    ScanRelatesAll(Leadings(g, punct, space, dash, nbsp), Redash(space, dash, nbsp), s);
  }

  /** After punctuation, step 4 replaces whether or not the position is
      inside a tag: `notInTag` guards only the `^` alternative. */
  lemma LeadingAfterPunctuationIgnoresTags(g: bool, punct: PunctuationPattern, space: CharClass, dash: CharClass,
                                           nbsp: char, s: string, i: nat)
    requires i + 3 < |s| && PunctuationAt(punct, s, i)
    requires space.HasFolded(s[i + 1]) && dash.HasFolded(s[i + 2]) && space.HasFolded(s[i + 3])
    ensures DashLeadingAt(g, punct, space, dash, nbsp, s, i).Some?
  {
  }

  /** For instance inside an attribute value: `<a b=", - c">`. */
  lemma LeadingInsideTagExample()
    ensures var s := "<a b=\", - c\">";
            && InTag(s, 6)
            && DashLeadingAt(true, CommonRules.LeadPunctuation, Space, Dash, NBSP, s, 6).Some?
  {
    var s := "<a b=\", - c\">";
    InsideTagIsInTag(s, 0, 6);
    SpaceMembers(' ');
    DashMembers('-');
    LeadingAfterPunctuationIgnoresTags(true, CommonRules.LeadPunctuation, Space, Dash, NBSP, s, 6);
  }

  // ---------------------------------------------------------------------
  // The whole list

  lemma RedashSquash(space: CharClass, dash: CharClass, nbsp: char, a: string, b: string)
    requires Spacing(space, dash, nbsp) && Related(Redash(space, dash, nbsp), a, b)
    ensures Project(Squash, a) == Project(Squash, b)
  {
    RedashSquashes(space, dash, nbsp);
    RelatedSquash(Redash(space, dash, nbsp), a, b);
  }

  /** The four steps in order, for any spacing classes. */
  lemma StepsSquash(g: bool, word: CharClass, tag: TagShape, punct: PunctuationPattern,
                    space: CharClass, dash: CharClass, nbsp: char, s: string)
    requires Spacing(space, dash, nbsp)
    ensures var rules := [DashJoin(g, space, nbsp), DashSpaceAfter(g),
                          DashAfterWord(g, word, tag, space, dash, nbsp), DashLeading(g, punct, space, dash, nbsp)];
            Project(Squash, RunRules(rules, s)) == Project(Squash, s)
  {
    var t1 := Apply(DashJoin(g, space, nbsp), s);
    var t2 := Apply(DashSpaceAfter(g), t1);
    var t3 := Apply(DashAfterWord(g, word, tag, space, dash, nbsp), t2);
    var t4 := Apply(DashLeading(g, punct, space, dash, nbsp), t3);
    RunFour(DashJoin(g, space, nbsp), DashSpaceAfter(g),
            DashAfterWord(g, word, tag, space, dash, nbsp), DashLeading(g, punct, space, dash, nbsp), s);
    JoinSquash(g, space, nbsp, s);
    SpaceAfterSquash(g, t1);
    AfterWordRedash(g, word, tag, space, dash, nbsp, t2);
    RedashSquash(space, dash, nbsp, t2, t3);
    LeadingRedash(g, punct, space, dash, nbsp, t3);
    RedashSquash(space, dash, nbsp, t3, t4);
  }

  /** `dashes` changes only spacing and the shape of dashes. */
  lemma DashesSquash(s: string)
    ensures Project(Squash, RunRules(CommonRules.Dashes, s)) == Project(Squash, s)
  {
    CommonSpacing();
    StepsSquash(true, LetterOrQuote, Tag, CommonRules.LeadPunctuation, Space, Dash, NBSP, s);
  }

  /** The older `emdash` records change only spacing and the shape of dashes. */
  lemma EmdashSquash(s: string)
    ensures Project(Squash, RunRules(LegacyRules.Emdash(LegacyRules.DefaultDefs), s)) == Project(Squash, s)
  {
    var d := LegacyRules.DefaultDefs;
    LegacySpacing();
    StepsSquash(false, d.letterswithquotes, d.tag, LegacyRules.Punctuation(d), d.space, d.dash, d.nbsp, s);
  }
}
