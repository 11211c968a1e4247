/**
  A rule is a pattern with its replacement; applying it is
  `text.replace(regexp, replacement)` with the `g` flag: scan left to right,
  at each position try the pattern, on a match emit the replacement and
  resume after the match, otherwise copy one character. Every pattern of the
  library matches at least one character, so the scan always advances.
 */
module Replace {
  import opened Chars
  import opened Patterns
  import opened Matchers

  /** The rule patterns of the library, with the definitions each one is
      built from. `guarded` says whether the pattern starts with `notInTag`. */
  datatype Rule =
    | ShortWordsAfterGap
    | ShortWordsBounded(shortWord: ShortWordPattern, space: CharClass, nbsp: char)
    | OrphanBind(guarded: bool, space: CharClass, nbsp: char)
    | NumberUnitBind
    | DegreeBind
    | DashJoin(guarded: bool, space: CharClass, nbsp: char)
    | DashSpaceAfter(guarded: bool)
    | DashAfterWord(guarded: bool, letters: CharClass, tag: TagShape, space: CharClass, dash: CharClass, nbsp: char)
    | DashLeading(guarded: bool, punctuation: PunctuationPattern, space: CharClass, dash: CharClass, nbsp: char)
    | CollapseDots(guarded: bool)
    | WrapAmp(guarded: bool, space: CharClass, nbsp: char)
    | WrapAbbr(guarded: bool, upper: CharClass)
    | SupOrdinal(guarded: bool, suffixes: seq<string>)
    | GroupThousands(decimals: CharClass, thousands: string)
    | OpenQuote(guarded: bool, tag: TagShape, prefix: Option<DashSpace>, letters: CharClass, glyph: string)
    | CloseQuote(guarded: bool, glyph: string)

  /** The match of rule r tried at position i. */
  function MatchAt(r: Rule, s: string, i: nat): (m: Option<Hit>)
    requires i < |s|
    ensures m.Some? ==> i < m.value.end <= |s|
  {
    match r
    case ShortWordsAfterGap => ShortWordsAt(s, i)
    case ShortWordsBounded(w, space, nbsp) => ShortWordsBoundedAt(w, space, nbsp, s, i)
    case OrphanBind(g, space, nbsp) => OrphanAt(g, space, nbsp, s, i)
    case NumberUnitBind => NumberUnitAt(s, i)
    case DegreeBind => DegreeSignAt(s, i)
    case DashJoin(g, space, nbsp) => DashJoinAt(g, space, nbsp, s, i)
    case DashSpaceAfter(g) => DashSpaceAfterAt(g, s, i)
    case DashAfterWord(g, word, tag, space, dash, nbsp) => DashAfterWordAt(g, word, tag, space, dash, nbsp, s, i)
    case DashLeading(g, punct, space, dash, nbsp) => DashLeadingAt(g, punct, space, dash, nbsp, s, i)
    case CollapseDots(g) => EllipsisAt(g, s, i)
    case WrapAmp(g, space, nbsp) => AmpAt(g, space, nbsp, s, i)
    case WrapAbbr(g, upper) => AbbrAt(g, upper, s, i)
    case SupOrdinal(g, suffixes) => OrdinalAt(g, suffixes, s, i)
    case GroupThousands(decimals, thousands) => SeparatorAt(decimals, thousands, s, i)
    case OpenQuote(g, tag, prefix, letters, glyph) => QuoteOpenAt(g, tag, prefix, letters, glyph, s, i)
    case CloseQuote(g, glyph) => QuoteCloseAt(g, glyph, s, i)
  }

  /** A pattern tried at a position of a text: the hit that starts there, if any. */
  type Matcher = (string, nat) -> Option<Hit>

  /** The matcher of rule r. */
  function MatcherOf(r: Rule): Matcher {
    (s: string, i: nat) => if i < |s| then MatchAt(r, s, i) else None
  }

  /** m has a hit at i that consumes at least one character of s. Every
      rule's matcher has only such hits (the contract of `MatchAt`); the
      scan below relies on it to advance. */
  predicate Proper(m: Matcher, s: string, i: nat) {
    m(s, i).Some? && i < m(s, i).value.end <= |s|
  }

  /** The output of the global replace for the suffix of s from i on. */
  function ScanWith(m: Matcher, s: string, i: nat): string
    requires i <= |s|
    decreases |s| - i
  {
    if i == |s| then []
    else if Proper(m, s, i) then m(s, i).value.out + ScanWith(m, s, m(s, i).value.end)
    else [s[i]] + ScanWith(m, s, i + 1)
  }

  /** `s.replace(pattern, replacement)` for the rule's global pattern. */
  function Apply(r: Rule, s: string): string {
    ScanWith(MatcherOf(r), s, 0)
  }

  /** A rule's hits are exactly the proper hits of its matcher. */
  lemma RuleHitsAreProper(r: Rule, s: string, i: nat)
    requires i < |s|
    ensures Proper(MatcherOf(r), s, i) <==> MatchAt(r, s, i).Some?
    ensures MatcherOf(r)(s, i) == MatchAt(r, s, i)
  {
  }

  /** Two matchers that agree on s from i on scan it alike. */
  lemma {:induction false} ScanWithAgree(m1: Matcher, m2: Matcher, s: string, i: nat)
    requires i <= |s|
    requires forall p :: i <= p < |s| ==> m1(s, p) == m2(s, p)
    ensures ScanWith(m1, s, i) == ScanWith(m2, s, i)
    decreases |s| - i
  {
    if i < |s| {
      if Proper(m1, s, i) {
        ScanWithAgree(m1, m2, s, m1(s, i).value.end);
      } else {
        ScanWithAgree(m1, m2, s, i + 1);
      }
    }
  }

  /** A proper hit at i is replaced and the scan resumes after it. */
  lemma ScanHit(m: Matcher, s: string, i: nat)
    requires i < |s| && Proper(m, s, i)
    ensures ScanWith(m, s, i) == m(s, i).value.out + ScanWith(m, s, m(s, i).value.end)
  {
  }

  /** Without a hit at i, the character there is copied. */
  lemma ScanMiss(m: Matcher, s: string, i: nat)
    requires i < |s| && !Proper(m, s, i)
    ensures ScanWith(m, s, i) == [s[i]] + ScanWith(m, s, i + 1)
  {
  }

  /** No hit in s[i..e]: the scan copies that stretch verbatim. */
  lemma {:induction false} ScanCopies(m: Matcher, s: string, i: nat, e: nat)
    requires i <= e <= |s|
    requires forall p :: i <= p < e ==> !Proper(m, s, p)
    ensures ScanWith(m, s, i) == s[i..e] + ScanWith(m, s, e)
    decreases e - i
  {
    if i < e {
      ScanCopies(m, s, i + 1, e);
      calc {
        ScanWith(m, s, i);
        [s[i]] + ScanWith(m, s, i + 1);
        [s[i]] + (s[i + 1..e] + ScanWith(m, s, e));
        { assert s[i..e] == [s[i]] + s[i + 1..e]; }
        s[i..e] + ScanWith(m, s, e);
      }
    }
  }

  /** A matcher that hits nowhere leaves the text as it was. */
  lemma ScanUnchanged(m: Matcher, s: string)
    requires forall p :: 0 <= p < |s| ==> !Proper(m, s, p)
    ensures ScanWith(m, s, 0) == s
  {
    ScanCopies(m, s, 0, |s|);
  }

  /** The first position from i on where m hits, or |s| if it hits nowhere. */
  function NextMatch(m: Matcher, s: string, i: nat): (p: nat)
    requires i <= |s|
    ensures i <= p <= |s|
    ensures p < |s| ==> Proper(m, s, p)
    ensures forall q :: i <= q < p ==> !Proper(m, s, q)
    decreases |s| - i
  {
    if i == |s| || Proper(m, s, i) then i else NextMatch(m, s, i + 1)
  }

  /** A matcher that hits somewhere, and whose replacements never start with
      the character they replace, changes the text. */
  lemma ChangesWhenHit(m: Matcher, s: string, j: nat)
    requires j < |s| && Proper(m, s, j)
    requires forall p :: 0 <= p < |s| && Proper(m, s, p) ==>
               |m(s, p).value.out| > 0 && m(s, p).value.out[0] != s[p]
    ensures ScanWith(m, s, 0) != s
  {
    var p := NextMatch(m, s, 0);
    ScanCopies(m, s, 0, p);
    var h := m(s, p).value;
    assert ScanWith(m, s, 0) == s[0..p] + (h.out + ScanWith(m, s, h.end));
    assert ScanWith(m, s, 0)[p] == h.out[0];
  }
}
