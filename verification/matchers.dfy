/**
  One function per rule pattern: given the whole input `s` and a start
  position `i`, the match a JavaScript regular expression with the `g` flag
  finds when it is tried at `i` (greedy quantifiers, alternatives in order,
  backtracking written out where it can change the outcome), together with
  the expanded replacement template. Lookbehinds read `s`, the original
  string, as they do in `String.prototype.replace`.
 */
module Matchers {
  import opened Chars
  import opened Patterns
  import opened CommonDefinitions

  // ---------------------------------------------------------------------
  // ellipses / ellipsis: `\.{2,}` -> `…`

  function EllipsisAt(guarded: bool, s: string, i: nat): (m: Option<Hit>)
    requires i < |s|
    ensures m.Some? <==> i + 1 < |s| && s[i] == '.' && s[i + 1] == '.' && !Blocked(guarded, s, i)
    ensures m.Some? ==> && m.value.out == [ELLIPSIS]
                        && i + 2 <= m.value.end <= |s|
                        && (forall j :: i <= j < m.value.end ==> s[j] == '.')
                        && (m.value.end == |s| || s[m.value.end] != '.')
  {
    if i + 1 < |s| && s[i] == '.' && s[i + 1] == '.' && !Blocked(guarded, s, i) then
      Some(Hit(DotRunEnd(s, i), [ELLIPSIS]))
    else
      None
  }

  // ---------------------------------------------------------------------
  // abbrs / abbr: `(upper{3,})` -> `<abbr>$1</abbr>`, flags `gm`

  function AbbrAt(guarded: bool, upper: CharClass, s: string, i: nat): (m: Option<Hit>)
    requires i < |s|
    ensures m.Some? <==> !Blocked(guarded, s, i) && ClassRunEnd(upper, s, i) >= i + 3
    ensures m.Some? ==> var e := m.value.end;
                        && i + 3 <= e <= |s|
                        && (forall j :: i <= j < e ==> upper.Has(s[j]))
                        && (e == |s| || !upper.Has(s[e]))
                        && m.value.out == "<abbr>" + s[i..e] + "</abbr>"
  {
    var e := ClassRunEnd(upper, s, i);
    if !Blocked(guarded, s, i) && e >= i + 3 then
      Some(Hit(e, "<abbr>" + s[i..e] + "</abbr>"))
    else
      None
  }

  // ---------------------------------------------------------------------
  // numberOrdinals / numbers[0]: `(\d+)(ordinals)` -> `$1<sup>$2</sup>`

  /** One literal alternative of `ordinals` occurs at q under the `i` flag. */
  predicate SuffixAt(suffix: string, s: string, q: nat): (b: bool)
    requires q <= |s|
    ensures b ==> q + |suffix| <= |s|
    decreases |suffix|
  {
    |suffix| == 0 || (q < |s| && FoldEq(s[q], suffix[0]) && SuffixAt(suffix[1..], s, q + 1))
  }

  /** Length of the first alternative of `(?:a|b|...)` that occurs at q. */
  function FirstSuffix(suffixes: seq<string>, s: string, q: nat): (n: Option<nat>)
    requires q <= |s|
    ensures n.Some? ==> q + n.value <= |s|
    ensures n.None? <==> forall k :: 0 <= k < |suffixes| ==> !SuffixAt(suffixes[k], s, q)
    decreases |suffixes|
  {
    if |suffixes| == 0 then None
    else if SuffixAt(suffixes[0], s, q) then
      assert SuffixAt(suffixes[0], s, q);
      Some(|suffixes[0]|)
    else
      var rest := FirstSuffix(suffixes[1..], s, q);
      assert forall k :: 1 <= k < |suffixes| ==> suffixes[k] == suffixes[1..][k - 1];
      rest
  }

  /** `(\d+)(ordinals)` once `\d+` has taken s[i..q]: try the alternatives,
      then give back one digit at a time. The result is where the digits
      end and the suffix starts. */
  function OrdinalBacktrack(suffixes: seq<string>, s: string, i: nat, q: nat): (r: Option<nat>)
    requires i < q <= |s|
    ensures r.Some? ==> i < r.value <= q && FirstSuffix(suffixes, s, r.value).Some?
    ensures r.Some? ==> forall p :: r.value < p <= q ==> FirstSuffix(suffixes, s, p).None?
    ensures r.None? <==> forall p :: i < p <= q ==> FirstSuffix(suffixes, s, p).None?
    decreases q
  {
    if FirstSuffix(suffixes, s, q).Some? then Some(q)
    else if q > i + 1 then OrdinalBacktrack(suffixes, s, i, q - 1)
    else None
  }

  function OrdinalAt(guarded: bool, suffixes: seq<string>, s: string, i: nat): (m: Option<Hit>)
    requires i < |s|
    ensures m.Some? <==> && IsDigit(s[i]) && !Blocked(guarded, s, i)
                         && exists q :: i < q <= DigitRunEnd(s, i) && FirstSuffix(suffixes, s, q).Some?
    ensures m.Some? ==> i < m.value.end <= |s|
  {
    if IsDigit(s[i]) && !Blocked(guarded, s, i) then
      match OrdinalBacktrack(suffixes, s, i, DigitRunEnd(s, i))
      case Some(q) =>
        assert i < q <= DigitRunEnd(s, i) && FirstSuffix(suffixes, s, q).Some?;
        var e := q + FirstSuffix(suffixes, s, q).value;
        Some(Hit(e, s[i..q] + "<sup>" + s[q..e] + "</sup>"))
      case None => None
    else None
  }

  // ---------------------------------------------------------------------
  // numberSeparators / numbers[1]:
  //   `(?<!D\d*)\d{1,3}(?=(\d{3})+(?!\d))` -> `$&sep`

  /** How many digits `\d{1,3}` takes, trying 3, 2, 1, when the lookahead
      needs the rest of the n-digit run to be a positive multiple of three. */
  function LeadingGroup(n: nat): (k: nat)
    ensures k == 0 <==> n < 4
    ensures k > 0 ==> 1 <= k <= 3 && n - k >= 3 && (n - k) % 3 == 0
  {
    if n >= 3 && n - 3 >= 3 && (n - 3) % 3 == 0 then 3
    else if n >= 2 && n - 2 >= 3 && (n - 2) % 3 == 0 then 2
    else if n >= 1 && n - 1 >= 3 && (n - 1) % 3 == 0 then 1
    else 0
  }

  function SeparatorAt(decimals: CharClass, thousands: string, s: string, i: nat): (m: Option<Hit>)
    requires i < |s|
    ensures m.Some? <==> IsDigit(s[i]) && !AfterDecimal(decimals, s, i) && DigitRunEnd(s, i) >= i + 4
    ensures m.Some? ==> var e := m.value.end;
                        && i < e <= i + 3
                        && e + 3 <= DigitRunEnd(s, i)
                        && (DigitRunEnd(s, i) - e) % 3 == 0
                        && m.value.out == s[i..e] + thousands
  {
    if IsDigit(s[i]) && !AfterDecimal(decimals, s, i) then
      var k := LeadingGroup(DigitRunEnd(s, i) - i);
      if k > 0 then Some(Hit(i + k, s[i..i + k] + thousands)) else None
    else
      None
  }

  // ---------------------------------------------------------------------
  // amps / amp: `space(&(?!\S*;))space` -> `nbsp<span class="amp">&</span>nbsp`

  const AmpOpen: string := "<span class=\"amp\">"
  const AmpClose: string := "</span>"
  const AmpMarkup: string := AmpOpen + "&" + AmpClose

  function AmpAt(guarded: bool, space: CharClass, nbsp: char, s: string, i: nat): (m: Option<Hit>)
    requires i < |s|
    ensures m.Some? <==> && i + 2 < |s| && !Blocked(guarded, s, i)
                         && space.HasFolded(s[i]) && s[i + 1] == '&'
                         && !EntityAhead(s, i + 2) && space.HasFolded(s[i + 2])
    ensures m.Some? ==> m.value == Hit(i + 3, [nbsp] + AmpMarkup + [nbsp])
  {
    if && i + 2 < |s| && !Blocked(guarded, s, i)
       && space.HasFolded(s[i]) && s[i + 1] == '&'
       && !EntityAhead(s, i + 2) && space.HasFolded(s[i + 2])
    then Some(Hit(i + 3, [nbsp] + AmpMarkup + [nbsp]))
    else None
  }

  // ---------------------------------------------------------------------
  // quotes: `"((tag)?(dash space)?letter)` -> `open$1`, then `"` -> `close`

  predicate LetterAt(letters: CharClass, s: string, t: nat) {
    t < |s| && letters.HasFolded(s[t])
  }

  predicate DashSpaceLetterAt(ds: DashSpace, letters: CharClass, s: string, t: nat) {
    t + 2 < |s| && ds.dash.HasFolded(s[t]) && ds.space.HasFolded(s[t + 1]) && letters.HasFolded(s[t + 2])
  }

  /** A word starts at t: an optional dash and space, then a letter. */
  predicate WordStarts(prefix: Option<DashSpace>, letters: CharClass, s: string, t: nat) {
    LetterAt(letters, s, t) || (prefix.Some? && DashSpaceLetterAt(prefix.value, letters, s, t))
  }

  /** What follows an opening quote: an optional tag, then a word start. */
  predicate OpensWord(tag: TagShape, prefix: Option<DashSpace>, letters: CharClass, s: string, q: nat)
    requires q <= |s|
  {
    WordStarts(prefix, letters, s, q)
    || (TagEnd(tag, s, q).Some? && WordStarts(prefix, letters, s, TagEnd(tag, s, q).value))
  }

  /** `(dash space)?letter` at t, the optional part tried first: end of the letter. */
  function WordStartEnd(prefix: Option<DashSpace>, letters: CharClass, s: string, t: nat): (e: Option<nat>)
    ensures e.Some? <==> WordStarts(prefix, letters, s, t)
    ensures e.Some? ==> t < e.value <= |s| && letters.HasFolded(s[e.value - 1])
    ensures e.Some? ==> e.value == t + 1 || (e.value == t + 3 && prefix.Some? && DashSpaceLetterAt(prefix.value, letters, s, t))
  {
    if prefix.Some? && DashSpaceLetterAt(prefix.value, letters, s, t) then Some(t + 3)
    else if LetterAt(letters, s, t) then Some(t + 1)
    else None
  }

  /** `(tag)?(dash space)?letter` at q, the tag tried first: end of the letter. */
  function OpeningTailEnd(tag: TagShape, prefix: Option<DashSpace>, letters: CharClass, s: string, q: nat): (e: Option<nat>)
    requires q <= |s|
    ensures e.Some? <==> OpensWord(tag, prefix, letters, s, q)
    ensures e.Some? ==> q < e.value <= |s|
  {
    var viaTag := TagEnd(tag, s, q);
    if viaTag.Some? && WordStartEnd(prefix, letters, s, viaTag.value).Some? then
      WordStartEnd(prefix, letters, s, viaTag.value)
    else
      WordStartEnd(prefix, letters, s, q)
  }

  function QuoteOpenAt(guarded: bool, tag: TagShape, prefix: Option<DashSpace>, letters: CharClass,
                       glyph: string, s: string, i: nat): (m: Option<Hit>)
    requires i < |s|
    ensures m.Some? <==> s[i] == '"' && !Blocked(guarded, s, i) && OpensWord(tag, prefix, letters, s, i + 1)
    ensures m.Some? ==> var e := m.value.end;
                        && e == OpeningTailEnd(tag, prefix, letters, s, i + 1).value
                        && i + 1 < e <= |s|
                        && m.value.out == glyph + s[i + 1..e]
  {
    if s[i] == '"' && !Blocked(guarded, s, i) then
      match OpeningTailEnd(tag, prefix, letters, s, i + 1)
      case Some(e) => Some(Hit(e, glyph + s[i + 1..e]))
      case None => None
    else
      None
  }

  function QuoteCloseAt(guarded: bool, glyph: string, s: string, i: nat): (m: Option<Hit>)
    requires i < |s|
    ensures m.Some? <==> s[i] == '"' && !Blocked(guarded, s, i)
    ensures m.Some? ==> m.value == Hit(i + 1, glyph)
  {
    if s[i] == '"' && !Blocked(guarded, s, i) then Some(Hit(i + 1, glyph)) else None
  }

  // ---------------------------------------------------------------------
  // `(tag)? space` followed by something, shared by several rules

  /** What must follow the space: nothing, `(\w)`, or a `dash`. */
  datatype Follow = AnyNext | WordNext | DashNext(dash: CharClass)

  predicate FollowOk(f: Follow, s: string, j: nat) {
    match f
    case AnyNext => true
    case WordNext => j < |s| && IsWordChar(s[j])
    case DashNext(d) => j < |s| && d.HasFolded(s[j])
  }

  /** A class space at j, followed by what `f` demands. */
  predicate SpaceThen(space: CharClass, f: Follow, s: string, j: nat) {
    j < |s| && space.HasFolded(s[j]) && FollowOk(f, s, j + 1)
  }

  /** `(tag)?space` and then what `f` demands, at q. */
  predicate TagThenSpace(tag: TagShape, space: CharClass, f: Follow, s: string, q: nat)
    requires q <= |s|
  {
    SpaceThen(space, f, s, q) || (TagEnd(tag, s, q).Some? && SpaceThen(space, f, s, TagEnd(tag, s, q).value))
  }

  /** `(tag)?space` at q, the tag tried first, then what `f` demands: the
      index of the space. */
  function SpaceAfterOptionalTag(tag: TagShape, space: CharClass, f: Follow, s: string, q: nat): (j: Option<nat>)
    requires q <= |s|
    ensures j.Some? <==> TagThenSpace(tag, space, f, s, q)
    ensures j.Some? ==> q <= j.value < |s| && SpaceThen(space, f, s, j.value)
  {
    var viaTag := TagEnd(tag, s, q);
    if viaTag.Some? && viaTag.value < |s| && space.HasFolded(s[viaTag.value]) && FollowOk(f, s, viaTag.value + 1) then
      Some(viaTag.value)
    else if q < |s| && space.HasFolded(s[q]) && FollowOk(f, s, q + 1) then
      Some(q)
    else
      None
  }

  /** k characters of a letter class start at i (`i` flag). */
  predicate LettersAt(letters: CharClass, s: string, i: nat, k: nat) {
    i + k <= |s| && forall j :: i <= j < i + k ==> letters.HasFolded(s[j])
  }

  // ---------------------------------------------------------------------
  // shortWords: `notInTag(?<=^|space|quote|>)(letter{1,2}(tag)?)space` -> `$1nbsp`

  /** `(?<=^|space|quote|>)` */
  predicate AfterWordGap(s: string, i: nat)
    requires i <= |s|
  {
    LineStart(s, i) || (i > 0 && (Space.HasFolded(s[i - 1]) || Quote.HasFolded(s[i - 1]) || s[i - 1] == '>'))
  }

  /** `letter{k}(tag)?space` at i. */
  predicate ShortWordSpaced(s: string, i: nat, k: nat) {
    LettersAt(Letter, s, i, k) && TagThenSpace(Tag, Space, AnyNext, s, i + k)
  }

  /** The short word taking exactly k letters. */
  function ShortWordTry(s: string, i: nat, k: nat): (m: Option<Hit>)
    requires i < |s| && 1 <= k <= 2
    ensures m.Some? <==> ShortWordSpaced(s, i, k)
    ensures m.Some? ==> var e := m.value.end;
                        && i < e <= |s|
                        && Space.HasFolded(s[e - 1])
                        && m.value.out == s[i..e - 1] + [NBSP]
  {
    if LettersAt(Letter, s, i, k) then
      match SpaceAfterOptionalTag(Tag, Space, AnyNext, s, i + k)
      case Some(j) => Some(Hit(j + 1, s[i..j] + [NBSP]))
      case None => None
    else
      None
  }

  function ShortWordsAt(s: string, i: nat): (m: Option<Hit>)
    requires i < |s|
    ensures m.Some? <==> !InTag(s, i) && AfterWordGap(s, i) && (ShortWordSpaced(s, i, 2) || ShortWordSpaced(s, i, 1))
    ensures m.Some? ==> var e := m.value.end;
                        && !InTag(s, i) && AfterWordGap(s, i)
                        && i < e <= |s|
                        && Space.HasFolded(s[e - 1])
                        && m.value.out == s[i..e - 1] + [NBSP]
  {
    if InTag(s, i) || !AfterWordGap(s, i) then None
    else
      var two := ShortWordTry(s, i, 2);
      if two.Some? then two else ShortWordTry(s, i, 1)
  }

  // ---------------------------------------------------------------------
  // shortWordsBreak: `(\b letters{1,2} \b (tag)?)space` -> `$1nbsp`

  /** `letters{k}\b(tag)?space` at i. */
  predicate BoundedWordSpaced(w: ShortWordPattern, space: CharClass, s: string, i: nat, k: nat) {
    LettersAt(w.letters, s, i, k) && WordBoundary(s, i + k) && TagThenSpace(w.tag, space, AnyNext, s, i + k)
  }

  function BoundedShortWordTry(w: ShortWordPattern, space: CharClass, nbsp: char, s: string, i: nat, k: nat): (m: Option<Hit>)
    requires i < |s| && 1 <= k <= 2
    ensures m.Some? <==> BoundedWordSpaced(w, space, s, i, k)
    ensures m.Some? ==> var e := m.value.end;
                        && i < e <= |s|
                        && space.HasFolded(s[e - 1])
                        && m.value.out == s[i..e - 1] + [nbsp]
  {
    if LettersAt(w.letters, s, i, k) && WordBoundary(s, i + k) then
      match SpaceAfterOptionalTag(w.tag, space, AnyNext, s, i + k)
      case Some(j) => Some(Hit(j + 1, s[i..j] + [nbsp]))
      case None => None
    else
      None
  }

  function ShortWordsBoundedAt(w: ShortWordPattern, space: CharClass, nbsp: char, s: string, i: nat): (m: Option<Hit>)
    requires i < |s|
    ensures m.Some? <==> WordBoundary(s, i) && (BoundedWordSpaced(w, space, s, i, 2) || BoundedWordSpaced(w, space, s, i, 1))
    ensures m.Some? ==> var e := m.value.end;
                        && WordBoundary(s, i)
                        && i < e <= |s|
                        && space.HasFolded(s[e - 1])
                        && m.value.out == s[i..e - 1] + [nbsp]
  {
    if !WordBoundary(s, i) then None
    else
      var two := BoundedShortWordTry(w, space, nbsp, s, i, 2);
      if two.Some? then two else BoundedShortWordTry(w, space, nbsp, s, i, 1)
  }

  // ---------------------------------------------------------------------
  // orphans: `space([\S<]{1,10}(?:\n\n|$))` -> `nbsp$1` (`[\S<]` is `\S`)

  /** `(?:\n\n|$)` at r under the `m` flag: where the match ends. */
  function ParagraphEnd(s: string, r: nat): (e: Option<nat>)
    requires r <= |s|
    ensures e.Some? ==> r <= e.value <= |s|
  {
    if r + 1 < |s| && s[r] == '\n' && s[r + 1] == '\n' then Some(r + 2)
    else if LineEnd(s, r) then Some(r)
    else None
  }

  /** UTF-16 code units of a character: the patterns have no `u` flag, so a
      character above U+FFFF is two units for `{1,10}`. */
  function Units(c: char): (n: nat)
    ensures 1 <= n <= 2
  {
    if c as int > 0xFFFF then 2 else 1
  }

  /** Code units of s[a..b]. */
  function UnitsIn(s: string, a: nat, b: nat): (n: nat)
    requires a <= b <= |s|
    ensures b - a <= n <= 2 * (b - a)
    decreases b - a
  {
    if a == b then 0 else UnitsIn(s, a, b - 1) + Units(s[b - 1])
  }

  /** `[\S<]{1,10}(?:\n\n|$)` can take the k characters of the non-space
      run at q: at most ten code units, then a paragraph or line end. */
  predicate OrphanEndAt(s: string, q: nat, k: nat) {
    && 1 <= k && q + k <= |s| && q + k <= NonSpaceRunEnd(s, q)
    && UnitsIn(s, q, q + k) <= 10 && ParagraphEnd(s, q + k).Some?
  }

  /** `[\S<]{1,10}(?:\n\n|$)` at q when the first k characters are
      non-space: lengths tried from k down, one character at a time. */
  function OrphanTry(s: string, q: nat, k: nat): (e: Option<nat>)
    requires q <= |s| && q + k <= NonSpaceRunEnd(s, q)
    ensures e.Some? <==> exists n :: 1 <= n <= k && OrphanEndAt(s, q, n)
    ensures e.Some? ==> q < e.value <= |s|
    decreases k
  {
    if k == 0 then None
    else if UnitsIn(s, q, q + k) <= 10 && ParagraphEnd(s, q + k).Some? then
      assert OrphanEndAt(s, q, k);
      ParagraphEnd(s, q + k)
    else
      var r := OrphanTry(s, q, k - 1);
      assert !OrphanEndAt(s, q, k);
      r
  }

  function OrphanAt(guarded: bool, space: CharClass, nbsp: char, s: string, i: nat): (m: Option<Hit>)
    requires i < |s|
    ensures m.Some? <==> && !Blocked(guarded, s, i) && space.HasFolded(s[i])
                         && var q := i + 1; exists n :: OrphanEndAt(s, q, n)
    ensures m.Some? ==> var e := m.value.end;
                        && i + 1 < e <= |s|
                        && m.value.out == [nbsp] + s[i + 1..e]
  {
    if Blocked(guarded, s, i) || !space.HasFolded(s[i]) then None
    else
      match OrphanTry(s, i + 1, NonSpaceRunEnd(s, i + 1) - (i + 1))
      case Some(e) => Some(Hit(e, [nbsp] + s[i + 1..e]))
      case None => None
  }

  // ---------------------------------------------------------------------
  // numberUnits: `(\d+tag?)space(\w)` -> `$1nbsp$2`

  function NumberUnitAt(s: string, i: nat): (m: Option<Hit>)
    requires i < |s|
    ensures m.Some? <==> && !InTag(s, i) && IsDigit(s[i])
                         && TagThenSpace(Tag, Space, WordNext, s, DigitRunEnd(s, i))
    ensures m.Some? ==> var e := m.value.end;
                        && i + 3 <= e <= |s|
                        && Space.HasFolded(s[e - 2])
                        && m.value.out == s[i..e - 2] + [NBSP, s[e - 1]]
  {
    if InTag(s, i) || !IsDigit(s[i]) then None
    else
      match SpaceAfterOptionalTag(Tag, Space, WordNext, s, DigitRunEnd(s, i))
      case Some(j) => Some(Hit(j + 2, s[i..j] + [NBSP, s[j + 1]]))
      case None => None
  }

  // ---------------------------------------------------------------------
  // degreeSigns: `(\d tag?)space?°` -> `$1hairspace°`

  /** `space?c` at t: an optional class space, then c. */
  predicate SignAfterSpace(space: CharClass, c: char, s: string, t: nat) {
    (t < |s| && s[t] == c) || (t + 1 < |s| && space.HasFolded(s[t]) && s[t + 1] == c)
  }

  /** `space?°` at t: end of the degree sign. */
  function DegreeAfter(s: string, t: nat): (e: Option<nat>)
    ensures e.Some? <==> SignAfterSpace(Space, DEGREE, s, t)
    ensures e.Some? ==> && t < e.value <= |s| && s[e.value - 1] == DEGREE
                        && (e.value == t + 1 || (e.value == t + 2 && Space.HasFolded(s[t])))
  {
    if t + 1 < |s| && Space.HasFolded(s[t]) && s[t + 1] == DEGREE then Some(t + 2)
    else if t < |s| && s[t] == DEGREE then Some(t + 1)
    else None
  }

  /** A degree hit: `$1` is s[i..t], then an optional space and the sign. */
  predicate DegreeSplit(s: string, i: nat, t: nat, h: Hit) {
    && i < t < h.end <= |s|
    && s[h.end - 1] == DEGREE
    && (h.end == t + 1 || (h.end == t + 2 && Space.HasFolded(s[t])))
    && h.out == s[i..t] + [HAIRSPACE, DEGREE]
  }

  function DegreeSignAt(s: string, i: nat): (m: Option<Hit>)
    requires i < |s|
    ensures m.Some? <==> && !InTag(s, i) && IsDigit(s[i])
                         && (|| SignAfterSpace(Space, DEGREE, s, i + 1)
                             || (TagEnd(Tag, s, i + 1).Some? && SignAfterSpace(Space, DEGREE, s, TagEnd(Tag, s, i + 1).value)))
    ensures m.Some? ==> exists t :: DegreeSplit(s, i, t, m.value)
  {
    if InTag(s, i) || !IsDigit(s[i]) then None
    else
      var viaTag := TagEnd(Tag, s, i + 1);
      if viaTag.Some? && DegreeAfter(s, viaTag.value).Some? then
        var h := Hit(DegreeAfter(s, viaTag.value).value, s[i..viaTag.value] + [HAIRSPACE, DEGREE]);
        assert DegreeSplit(s, i, viaTag.value, h);
        Some(h)
      else
        match DegreeAfter(s, i + 1)
        case Some(e) =>
          var h := Hit(e, s[i..i + 1] + [HAIRSPACE, DEGREE]);
          assert DegreeSplit(s, i, i + 1, h);
          Some(h)
        case None => None
  }

  // ---------------------------------------------------------------------
  // dashes / emdash, four steps

  /** Step 1: `(\S)space?—` -> `$1nbsp—` */
  function DashJoinAt(guarded: bool, space: CharClass, nbsp: char, s: string, i: nat): (m: Option<Hit>)
    requires i < |s|
    ensures m.Some? <==> !Blocked(guarded, s, i) && !IsSpace(s[i]) && SignAfterSpace(space, EMDASH, s, i + 1)
    ensures m.Some? ==> && i + 2 <= m.value.end <= |s|
                        && s[m.value.end - 1] == EMDASH
                        && (m.value.end == i + 2 || (m.value.end == i + 3 && space.HasFolded(s[i + 1])))
                        && m.value.out == [s[i], nbsp, EMDASH]
  {
    if Blocked(guarded, s, i) || IsSpace(s[i]) then None
    else if i + 2 < |s| && space.HasFolded(s[i + 1]) && s[i + 2] == EMDASH then Some(Hit(i + 3, [s[i], nbsp, EMDASH]))
    else if i + 1 < |s| && s[i + 1] == EMDASH then Some(Hit(i + 2, [s[i], nbsp, EMDASH]))
    else None
  }

  /** Step 2: `—(\S)` -> `— $1` */
  function DashSpaceAfterAt(guarded: bool, s: string, i: nat): (m: Option<Hit>)
    requires i < |s|
    ensures m.Some? <==> !Blocked(guarded, s, i) && s[i] == EMDASH && i + 1 < |s| && !IsSpace(s[i + 1])
    ensures m.Some? ==> m.value == Hit(i + 2, [EMDASH, ' ', s[i + 1]])
  {
    if !Blocked(guarded, s, i) && s[i] == EMDASH && i + 1 < |s| && !IsSpace(s[i + 1]) then
      Some(Hit(i + 2, [EMDASH, ' ', s[i + 1]]))
    else
      None
  }

  /** Step 3: `(word(tag)?)space dash` -> `$1nbsp—` */
  function DashAfterWordAt(guarded: bool, word: CharClass, tag: TagShape, space: CharClass, dash: CharClass,
                           nbsp: char, s: string, i: nat): (m: Option<Hit>)
    requires i < |s|
    ensures m.Some? <==> && !Blocked(guarded, s, i) && word.HasFolded(s[i])
                         && TagThenSpace(tag, space, DashNext(dash), s, i + 1)
    ensures m.Some? ==> var e := m.value.end;
                        && i + 3 <= e <= |s|
                        && space.HasFolded(s[e - 2]) && dash.HasFolded(s[e - 1])
                        && m.value.out == s[i..e - 2] + [nbsp, EMDASH]
  {
    if Blocked(guarded, s, i) || !word.HasFolded(s[i]) then None
    else
      match SpaceAfterOptionalTag(tag, space, DashNext(dash), s, i + 1)
      case Some(j) => Some(Hit(j + 2, s[i..j] + [nbsp, EMDASH]))
      case None => None
  }

  /** A class dash, then a class space, at t. */
  predicate DashSpaceAt(dash: CharClass, space: CharClass, s: string, t: nat) {
    t + 1 < |s| && dash.HasFolded(s[t]) && space.HasFolded(s[t + 1])
  }

  /** Step 4: `(notInTag^|(?:punctuation space?))dash space` -> `$1—nbsp`;
      the guard covers the `^` alternative only, as written. */
  function DashLeadingAt(guarded: bool, punct: PunctuationPattern, space: CharClass, dash: CharClass,
                         nbsp: char, s: string, i: nat): (m: Option<Hit>)
    requires i < |s|
    ensures m.Some? <==> || (!Blocked(guarded, s, i) && LineStart(s, i) && DashSpaceAt(dash, space, s, i))
                         || (&& PunctuationAt(punct, s, i)
                             && (|| DashSpaceAt(dash, space, s, i + 1)
                                 || (i + 1 < |s| && space.HasFolded(s[i + 1]) && DashSpaceAt(dash, space, s, i + 2))))
    ensures m.Some? ==> var e := m.value.end;
                        && i + 2 <= e <= |s|
                        && dash.HasFolded(s[e - 2]) && space.HasFolded(s[e - 1])
                        && m.value.out == s[i..e - 2] + [EMDASH, nbsp]
    ensures m.Some? && m.value.end == i + 2 ==> !Blocked(guarded, s, i) && LineStart(s, i)
    ensures m.Some? && m.value.end > i + 2 ==> PunctuationAt(punct, s, i)
  {
    if !Blocked(guarded, s, i) && LineStart(s, i) && i + 1 < |s| && dash.HasFolded(s[i]) && space.HasFolded(s[i + 1]) then
      Some(Hit(i + 2, [EMDASH, nbsp]))
    else if PunctuationAt(punct, s, i) then
      if i + 3 < |s| && space.HasFolded(s[i + 1]) && dash.HasFolded(s[i + 2]) && space.HasFolded(s[i + 3]) then
        Some(Hit(i + 4, s[i..i + 2] + [EMDASH, nbsp]))
      else if i + 2 < |s| && dash.HasFolded(s[i + 1]) && space.HasFolded(s[i + 2]) then
        Some(Hit(i + 3, s[i..i + 1] + [EMDASH, nbsp]))
      else
        None
    else
      None
  }
}
