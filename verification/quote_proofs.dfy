/**
  `quotesFactory` and the older `quotes` records: two passes, the first
  turning a straight quote before a (tag and) word into the opening glyph,
  the second turning every remaining straight quote into the closing glyph.
  Proved: which quotes each pass turns, the closing pass character by
  character, and the round trip that puts the straight quotes back.
 */
module QuoteProofs {
  import opened Chars
  import opened Patterns
  import opened Replace
  import opened Matchers
  import opened Inverse
  import opened Pointwise
  import opened Pipeline
  import opened CommonDefinitions
  import CommonRules
  import LegacyRules

  /** The matcher of the opening pass on its own. */
  function Opens(g: bool, tag: TagShape, prefix: Option<DashSpace>, letters: CharClass, glyph: string): Matcher {
    (s: string, i: nat) => if i < |s| then QuoteOpenAt(g, tag, prefix, letters, glyph, s, i) else None
  }

  /** The matcher of the closing pass on its own. */
  function Closes(g: bool, glyph: string): Matcher {
    (s: string, i: nat) => if i < |s| then QuoteCloseAt(g, glyph, s, i) else None
  }

  lemma ApplyIsOpens(g: bool, tag: TagShape, prefix: Option<DashSpace>, letters: CharClass, glyph: string, s: string)
    ensures Apply(OpenQuote(g, tag, prefix, letters, glyph), s) == ScanWith(Opens(g, tag, prefix, letters, glyph), s, 0)
  {
    var r := OpenQuote(g, tag, prefix, letters, glyph);
    forall p | 0 <= p < |s|
      ensures MatcherOf(r)(s, p) == Opens(g, tag, prefix, letters, glyph)(s, p)
    {
      assert MatchAt(r, s, p) == QuoteOpenAt(g, tag, prefix, letters, glyph, s, p);
    }
    ScanWithAgree(MatcherOf(r), Opens(g, tag, prefix, letters, glyph), s, 0);
  }

  lemma ApplyIsCloses(g: bool, glyph: string, s: string)
    ensures Apply(CloseQuote(g, glyph), s) == ScanWith(Closes(g, glyph), s, 0)
  {
    forall p | 0 <= p < |s|
      ensures MatcherOf(CloseQuote(g, glyph))(s, p) == Closes(g, glyph)(s, p)
    {
      assert MatchAt(CloseQuote(g, glyph), s, p) == QuoteCloseAt(g, glyph, s, p);
    }
    ScanWithAgree(MatcherOf(CloseQuote(g, glyph)), Closes(g, glyph), s, 0);
  }

  // ---------------------------------------------------------------------
  // The closing pass, character by character

  /** Each straight quote outside a tag (or anywhere, unguarded) becomes
      the glyph; every other character is kept. */
  function Closed(g: bool, glyph: string, s: string, i: nat): string
    requires i <= |s|
    decreases |s| - i
  {
    if i == |s| then []
    else (if s[i] == '"' && !Blocked(g, s, i) then glyph else [s[i]]) + Closed(g, glyph, s, i + 1)
  }

  lemma {:induction false} ScanIsClosed(g: bool, glyph: string, s: string, i: nat)
    requires i <= |s|
    ensures ScanWith(Closes(g, glyph), s, i) == Closed(g, glyph, s, i)
    decreases |s| - i
  {
    if i < |s| {
      ScanIsClosed(g, glyph, s, i + 1);
      var m := Closes(g, glyph);
      if Proper(m, s, i) {
        ScanHit(m, s, i);
      } else {
        ScanMiss(m, s, i);
      }
    }
  }

  /** The closing pass turns each straight quote that is not inside a tag
      into the glyph and keeps everything else. */
  lemma CloseIsClosed(g: bool, glyph: string, s: string)
    ensures Apply(CloseQuote(g, glyph), s) == Closed(g, glyph, s, 0)
  {
    ApplyIsCloses(g, glyph, s);
    ScanIsClosed(g, glyph, s, 0);
  }

  /** Straight quotes that `Closed` leaves from position i on are all in tags. */
  lemma {:induction false} ClosedKeepsOnlyTagQuotes(g: bool, glyph: string, s: string, i: nat)
    requires i <= |s| && Lacks(glyph, '"')
    requires forall p :: i <= p < |s| && s[p] == '"' ==> !Blocked(g, s, p)
    ensures Lacks(Closed(g, glyph, s, i), '"')
    decreases |s| - i
  {
    if i < |s| {
      ClosedKeepsOnlyTagQuotes(g, glyph, s, i + 1);
    }
  }

  /** Unguarded (the older record), no straight quote survives the closing pass. */
  lemma UnguardedCloseLeavesNoStraightQuote(glyph: string, s: string)
    requires Lacks(glyph, '"')
    ensures Lacks(Apply(CloseQuote(false, glyph), s), '"')
  {
    CloseIsClosed(false, glyph, s);
    ClosedKeepsOnlyTagQuotes(false, glyph, s, 0);
  }

  /** Guarded, no straight quote survives in a text without tags. */
  lemma GuardedCloseWithoutTags(glyph: string, s: string)
    requires Lacks(glyph, '"') && Lacks(s, '<')
    ensures Lacks(Apply(CloseQuote(true, glyph), s), '"')
  {
    forall p | 0 <= p < |s|
      ensures !InTag(s, p)
    {
      NoOpenBracketNoTag(s, p);
    }
    CloseIsClosed(true, glyph, s);
    ClosedKeepsOnlyTagQuotes(true, glyph, s, 0);
  }

  /** Inside a tag the guarded closing pass keeps the straight quote. */
  lemma GuardedCloseKeepsTagQuote(glyph: string, s: string, q: nat, j: nat)
    requires q < j < |s| && s[q] == '<' && s[j] == '"'
    requires forall k :: q < k < j ==> s[k] != '>'
    ensures !QuoteCloseAt(true, glyph, s, j).Some?
  {
    InsideTagIsInTag(s, q, j);
  }

  // ---------------------------------------------------------------------
  // Round trip

  lemma OpenHitsSwap(g: bool, tag: TagShape, prefix: Option<DashSpace>, letters: CharClass, glyph: string, s: string)
    ensures HitsSwap(Opens(g, tag, prefix, letters, glyph), glyph, "\"", s)
  {
    var m := Opens(g, tag, prefix, letters, glyph);
    forall p | 0 <= p < |s| && Proper(m, s, p)
      ensures && p + 1 <= m(s, p).value.end
              && s[p..p + 1] == "\""
              && m(s, p).value.out == glyph + s[p + 1..m(s, p).value.end]
    {
    }
  }

  lemma CloseHitsSwap(g: bool, glyph: string, s: string)
    ensures HitsSwap(Closes(g, glyph), glyph, "\"", s)
  {
    var m := Closes(g, glyph);
    forall p | 0 <= p < |s| && Proper(m, s, p)
      ensures && p + 1 <= m(s, p).value.end
              && s[p..p + 1] == "\""
              && m(s, p).value.out == glyph + s[p + 1..m(s, p).value.end]
    {
      assert s[p + 1..p + 1] == [];
    }
  }

  /** The opening pass is undone by turning its glyph back into `"`. */
  lemma OpenRestores(g: bool, tag: TagShape, prefix: Option<DashSpace>, letters: CharClass, glyph: string, s: string)
    requires |glyph| > 0 && Lacks(s, glyph[0])
    ensures Unreplace(glyph, "\"", Apply(OpenQuote(g, tag, prefix, letters, glyph), s)) == s
  {
    ApplyIsOpens(g, tag, prefix, letters, glyph, s);
    OpenHitsSwap(g, tag, prefix, letters, glyph, s);
    UnreplaceRestores(Opens(g, tag, prefix, letters, glyph), glyph, "\"", s);
  }

  /** The opening pass adds no character that neither the text nor its glyph has. */
  lemma OpenLacks(g: bool, tag: TagShape, prefix: Option<DashSpace>, letters: CharClass, glyph: string, s: string, c: char)
    requires Lacks(s, c) && Lacks(glyph, c)
    ensures Lacks(Apply(OpenQuote(g, tag, prefix, letters, glyph), s), c)
  {
    var m := Opens(g, tag, prefix, letters, glyph);
    forall p | 0 <= p < |s| && Proper(m, s, p)
      ensures Lacks(m(s, p).value.out, c)
    {
      var e := m(s, p).value.end;
      assert m(s, p).value.out == glyph + s[p + 1..e];
    }
    ApplyIsOpens(g, tag, prefix, letters, glyph, s);
    ScanLacks(m, s, c, 0);
  }

  /** Both passes are undone by turning the closing glyph, then the opening
      glyph, back into `"`, when the text holds neither glyph's first
      character and the opening glyph does not hold the closing one's. */
  lemma QuotesRestore(g: bool, tag: TagShape, prefix: Option<DashSpace>, letters: CharClass,
                      open: string, close: string, s: string)
    requires |open| > 0 && |close| > 0
    requires Lacks(s, open[0]) && Lacks(s, close[0]) && Lacks(open, close[0])
    ensures var t := RunRules([OpenQuote(g, tag, prefix, letters, open), CloseQuote(g, close)], s);
            Unreplace(open, "\"", Unreplace(close, "\"", t)) == s
  {
    var t1 := Apply(OpenQuote(g, tag, prefix, letters, open), s);
    RunPair(OpenQuote(g, tag, prefix, letters, open), CloseQuote(g, close), s);
    OpenLacks(g, tag, prefix, letters, open, s, close[0]);
    ApplyIsCloses(g, close, t1);
    CloseHitsSwap(g, close, t1);
    UnreplaceRestores(Closes(g, close), close, "\"", t1);
    OpenRestores(g, tag, prefix, letters, open, s);
  }

  /** `quotesFactory` for a locale whose glyphs are non-empty and distinct
      in their first characters. */
  lemma CommonQuotesRestore(l: CommonRules.Locale, s: string)
    requires |l.openingQuote| > 0 && |l.closingQuote| > 0
    requires Lacks(s, l.openingQuote[0]) && Lacks(s, l.closingQuote[0]) && Lacks(l.openingQuote, l.closingQuote[0])
    ensures Unreplace(l.openingQuote, "\"", Unreplace(l.closingQuote, "\"", RunRules(CommonRules.QuotesFactory(l), s))) == s
  {
    QuotesRestore(true, Tag, Some(DashSpace(Dash, Space)), Letter, l.openingQuote, l.closingQuote, s);
  }

  /** The older `quotes` records with the default `“` and `”`. */
  lemma LegacyQuotesRestore(s: string)
    requires Lacks(s, '“') && Lacks(s, '”')
    ensures Unreplace("“", "\"", Unreplace("”", "\"", RunRules(LegacyRules.Quotes(LegacyRules.DefaultDefs), s))) == s
  {
    var d := LegacyRules.DefaultDefs;
    QuotesRestore(false, d.tag, None, d.letters, d.openingQuote, d.closingQuote, s);
  }

  /** After the older records, no straight quote is left. */
  lemma LegacyQuotesLeaveNoStraightQuote(s: string)
    ensures Lacks(RunRules(LegacyRules.Quotes(LegacyRules.DefaultDefs), s), '"')
  {
    var d := LegacyRules.DefaultDefs;
    RunPair(OpenQuote(false, d.tag, None, d.letters, d.openingQuote), CloseQuote(false, d.closingQuote), s);
    UnguardedCloseLeavesNoStraightQuote(d.closingQuote, Apply(OpenQuote(false, d.tag, None, d.letters, d.openingQuote), s));
  }

  // ---------------------------------------------------------------------
  // Both passes, position by position, for one-character glyphs

  /** None of the classes that may follow an opening quote holds `"`. */
  predicate QuoteFree(prefix: Option<DashSpace>, letters: CharClass) {
    && !letters.HasFolded('"')
    && (prefix.Some? ==> !prefix.value.dash.HasFolded('"') && !prefix.value.space.HasFolded('"'))
  }

  /** The glyph the two passes give the character at k: a straight quote
      outside a tag opens when a word follows (after an optional tag, and an
      optional dash and space) and closes otherwise; anything else stays. */
  function QuoteResult(g: bool, tag: TagShape, prefix: Option<DashSpace>, letters: CharClass,
                       o: char, c: char, s: string, k: nat): char
    requires k < |s|
  {
    if s[k] == '"' && !Blocked(g, s, k) then
      if OpensWord(tag, prefix, letters, s, k + 1) then o else c
    else
      s[k]
  }

  /** The opening pass, position by position. */
  function OpenedAt(g: bool, tag: TagShape, prefix: Option<DashSpace>, letters: CharClass, o: char): (string, nat) -> char {
    (s: string, k: nat) =>
      if k < |s| && s[k] == '"' && !Blocked(g, s, k) && OpensWord(tag, prefix, letters, s, k + 1) then o
      else if k < |s| then s[k]
      else ' '
  }

  /** The closing pass, position by position. */
  function ClosedAt(g: bool, c: char): (string, nat) -> char {
    (t: string, k: nat) =>
      if k < |t| && t[k] == '"' && !Blocked(g, t, k) then c
      else if k < |t| then t[k]
      else ' '
  }

  /** What an opening hit copies after the quote (tag, dash, space, letter)
      holds no straight quote that the pass could still turn. */
  lemma TailHasNoFreeQuote(g: bool, tag: TagShape, prefix: Option<DashSpace>, letters: CharClass, s: string, q: nat, k: nat)
    requires QuoteFree(prefix, letters) && (g || tag == WordTag)
    requires q <= |s| && OpeningTailEnd(tag, prefix, letters, s, q).Some?
    requires q <= k < OpeningTailEnd(tag, prefix, letters, s, q).value
    ensures s[k] != '"' || Blocked(g, s, k)
  {
    var viaTag := TagEnd(tag, s, q);
    if viaTag.Some? && WordStartEnd(prefix, letters, s, viaTag.value).Some? && k < viaTag.value {
      if q < k < viaTag.value - 1 && s[k] == '"' {
        assert tag == AnyTag;
        InsideTagIsInTag(s, q, k);
      }
    }
  }

  /** The opening pass keeps every character an opening hit copies. */
  lemma OpenTailKept(g: bool, tag: TagShape, prefix: Option<DashSpace>, letters: CharClass, o: char, s: string, q: nat)
    requires QuoteFree(prefix, letters) && (g || tag == WordTag)
    requires q <= |s| && OpeningTailEnd(tag, prefix, letters, s, q).Some?
    ensures forall k :: q <= k < OpeningTailEnd(tag, prefix, letters, s, q).value ==>
              OpenedAt(g, tag, prefix, letters, o)(s, k) == s[k]
  {
    forall k | q <= k < OpeningTailEnd(tag, prefix, letters, s, q).value
      ensures OpenedAt(g, tag, prefix, letters, o)(s, k) == s[k]
    {
      TailHasNoFreeQuote(g, tag, prefix, letters, s, q, k);
    }
  }

  /** An opening hit writes the glyph and then what the pass keeps. */
  lemma OpenHitFollows(g: bool, tag: TagShape, prefix: Option<DashSpace>, letters: CharClass, o: char,
                       s: string, p: nat, h: Hit)
    requires QuoteFree(prefix, letters) && (g || tag == WordTag)
    requires p < |s| && QuoteOpenAt(g, tag, prefix, letters, [o], s, p) == Some(h)
    ensures |h.out| == h.end - p
    ensures forall j :: 0 <= j < |h.out| ==> h.out[j] == OpenedAt(g, tag, prefix, letters, o)(s, p + j)
  {
    var f := OpenedAt(g, tag, prefix, letters, o);
    OpenTailKept(g, tag, prefix, letters, o, s, p + 1);
    assert h.out == [o] + s[p + 1..h.end];
    forall j | 0 <= j < |h.out|
      ensures h.out[j] == f(s, p + j)
    {
      if j > 0 {
        assert h.out[j] == s[p + j];
      }
    }
  }

  lemma OpenFollowsAt(g: bool, tag: TagShape, prefix: Option<DashSpace>, letters: CharClass, o: char, s: string, p: nat)
    requires QuoteFree(prefix, letters) && (g || tag == WordTag)
    requires p < |s|
    ensures FollowsAt(Opens(g, tag, prefix, letters, [o]), OpenedAt(g, tag, prefix, letters, o), s, p)
  {
    var m := Opens(g, tag, prefix, letters, [o]);
    assert m(s, p) == QuoteOpenAt(g, tag, prefix, letters, [o], s, p);
    if Proper(m, s, p) {
      OpenHitFollows(g, tag, prefix, letters, o, s, p, m(s, p).value);
    }
  }

  lemma OpenHitsFollow(g: bool, tag: TagShape, prefix: Option<DashSpace>, letters: CharClass, o: char, s: string)
    requires QuoteFree(prefix, letters) && (g || tag == WordTag)
    ensures HitsFollow(Opens(g, tag, prefix, letters, [o]), OpenedAt(g, tag, prefix, letters, o), s)
  {
    forall p | 0 <= p < |s|
      ensures FollowsAt(Opens(g, tag, prefix, letters, [o]), OpenedAt(g, tag, prefix, letters, o), s, p)
    {
      OpenFollowsAt(g, tag, prefix, letters, o, s, p);
    }
  }

  lemma CloseHitsFollow(g: bool, c: char, t: string)
    ensures HitsFollow(Closes(g, [c]), ClosedAt(g, c), t)
  {
    var m := Closes(g, [c]);
    forall p | 0 <= p < |t|
      ensures FollowsAt(m, ClosedAt(g, c), t, p)
    {
    }
  }

  /** The opening pass alone, position by position. */
  lemma OpenPassPointwise(g: bool, tag: TagShape, prefix: Option<DashSpace>, letters: CharClass, o: char, s: string)
    requires QuoteFree(prefix, letters) && (g || tag == WordTag)
    ensures var t := Apply(OpenQuote(g, tag, prefix, letters, [o]), s);
            |t| == |s| && forall k :: 0 <= k < |s| ==> t[k] == OpenedAt(g, tag, prefix, letters, o)(s, k)
  {
    ApplyIsOpens(g, tag, prefix, letters, [o], s);
    OpenHitsFollow(g, tag, prefix, letters, o, s);
    ScanFollows(Opens(g, tag, prefix, letters, [o]), OpenedAt(g, tag, prefix, letters, o), s, 0);
  }

  /** The closing pass alone, position by position. */
  lemma ClosePassPointwise(g: bool, c: char, t: string)
    ensures var u := Apply(CloseQuote(g, [c]), t);
            |u| == |t| && forall k :: 0 <= k < |t| ==> u[k] == ClosedAt(g, c)(t, k)
  {
    ApplyIsCloses(g, [c], t);
    CloseHitsFollow(g, c, t);
    ScanFollows(Closes(g, [c]), ClosedAt(g, c), t, 0);
  }

  /** One position of the composed passes. */
  lemma BothPassesAt(g: bool, tag: TagShape, prefix: Option<DashSpace>, letters: CharClass,
                     o: char, c: char, s: string, t1: string, t2: string, k: nat)
    requires o != '"' && o != '<' && o != '>'
    requires |t1| == |s| && forall j :: 0 <= j < |s| ==> t1[j] == OpenedAt(g, tag, prefix, letters, o)(s, j)
    requires |t2| == |t1| && forall j :: 0 <= j < |t1| ==> t2[j] == ClosedAt(g, c)(t1, j)
    requires k < |s|
    ensures t2[k] == QuoteResult(g, tag, prefix, letters, o, c, s, k)
  {
    forall j | 0 <= j < k
      ensures (s[j] == '<' <==> t1[j] == '<') && (s[j] == '>' <==> t1[j] == '>')
    {
      assert t1[j] == OpenedAt(g, tag, prefix, letters, o)(s, j);
    }
    InTagSameBrackets(s, t1, k);
    assert t1[k] == OpenedAt(g, tag, prefix, letters, o)(s, k);
    assert t2[k] == ClosedAt(g, c)(t1, k);
  }

  /** The two passes with one-character glyphs keep the length and give
      each position its `QuoteResult`. */
  lemma QuotesPointwise(g: bool, tag: TagShape, prefix: Option<DashSpace>, letters: CharClass,
                        o: char, c: char, s: string)
    requires QuoteFree(prefix, letters) && (g || tag == WordTag)
    requires o != '"' && o != '<' && o != '>'
    ensures var t := RunRules([OpenQuote(g, tag, prefix, letters, [o]), CloseQuote(g, [c])], s);
            && |t| == |s|
            && forall k :: 0 <= k < |s| ==> t[k] == QuoteResult(g, tag, prefix, letters, o, c, s, k)
  {
    RunPair(OpenQuote(g, tag, prefix, letters, [o]), CloseQuote(g, [c]), s);
    var t1 := Apply(OpenQuote(g, tag, prefix, letters, [o]), s);
    var t2 := Apply(CloseQuote(g, [c]), t1);
    OpenPassPointwise(g, tag, prefix, letters, o, s);
    ClosePassPointwise(g, c, t1);
    forall k | 0 <= k < |s|
      ensures t2[k] == QuoteResult(g, tag, prefix, letters, o, c, s, k)
    {
      BothPassesAt(g, tag, prefix, letters, o, c, s, t1, t2, k);
    }
  }

  /** No straight quote is left outside tags by the two passes. */
  lemma QuotesLeaveOnlyTagQuotes(g: bool, tag: TagShape, prefix: Option<DashSpace>, letters: CharClass,
                                 o: char, c: char, s: string, k: nat)
    requires QuoteFree(prefix, letters) && (g || tag == WordTag)
    requires o != '"' && o != '<' && o != '>' && c != '"'
    requires k < |s|
    ensures var t := RunRules([OpenQuote(g, tag, prefix, letters, [o]), CloseQuote(g, [c])], s);
            k < |t| && (t[k] == '"' ==> s[k] == '"' && Blocked(g, s, k))
  {
    QuotesPointwise(g, tag, prefix, letters, o, c, s);
  }

  lemma CommonClassesQuoteFree()
    ensures QuoteFree(Some(DashSpace(Dash, Space)), Letter)
  {
    SpaceMembers('"');
    DashMembers('"');
  }

  /** `quotesFactory` with one-character glyphs, position by position. */
  lemma CommonQuotesPointwise(l: CommonRules.Locale, s: string)
    requires |l.openingQuote| == 1 && |l.closingQuote| == 1
    requires l.openingQuote[0] !in "\"<>"
    ensures var t := RunRules(CommonRules.QuotesFactory(l), s);
            && |t| == |s|
            && forall k :: 0 <= k < |s| ==>
                 t[k] == QuoteResult(true, Tag, Some(DashSpace(Dash, Space)), Letter,
                                     l.openingQuote[0], l.closingQuote[0], s, k)
  {
    CommonClassesQuoteFree();
    assert l.openingQuote == [l.openingQuote[0]] && l.closingQuote == [l.closingQuote[0]];
    QuotesPointwise(true, Tag, Some(DashSpace(Dash, Space)), Letter, l.openingQuote[0], l.closingQuote[0], s);
  }

  /** The older `quotes` records, position by position. */
  lemma LegacyQuotesPointwise(s: string)
    ensures var t := RunRules(LegacyRules.Quotes(LegacyRules.DefaultDefs), s);
            && |t| == |s|
            && forall k :: 0 <= k < |s| ==>
                 t[k] == QuoteResult(false, WordTag, None, LegacyRules.DefaultDefs.letters, '“', '”', s, k)
  {
    var d := LegacyRules.DefaultDefs;
    assert QuoteFree(None, d.letters);
    QuotesPointwise(false, WordTag, None, d.letters, '“', '”', s);
  }
}
