/**
  The zero-width and small fixed-shape pieces the rule patterns are built
  from: the `notInTag` lookbehind, `^`/`$` under the `m` flag, `\b`, the two
  tag shapes, the entity lookarounds, the decimal-separator lookbehind, and
  maximal runs of one kind of character.
 */
module Patterns {
  import opened Chars

  datatype Option<T> = None | Some(value: T)

  /** One match of a rule at a start position: where it ends (exclusive) and
      what the replacement template expands to. */
  datatype Hit = Hit(end: nat, out: string)

  // ---------------------------------------------------------------------
  // notInTag: (?<!<[^>]*)

  /** Whether a `<` is open after reading `c` in state `inTag`. */
  function TagStep(inTag: bool, c: char): bool {
    if c == '<' then true else if c == '>' then false else inTag
  }

  /** The state after reading all of `t`. */
  function StateAfter(inTag: bool, t: string): bool
    decreases |t|
  {
    if |t| == 0 then inTag else StateAfter(TagStep(inTag, t[0]), t[1..])
  }

  /** Position p of s lies inside an unclosed `<...`: scanning s[..p] left to
      right, the last bracket seen is `<`. */
  predicate InTag(s: string, p: nat)
    requires p <= |s|
  {
    p > 0 && TagStep(InTag(s, p - 1), s[p - 1])
  }

  /** The lookbehind `(?<!<[^>]*)` as written: some `<` before p with no `>`
      between it and p. */
  ghost predicate UnclosedTagBefore(s: string, p: nat)
    requires p <= |s|
  {
    exists k :: 0 <= k < p && s[k] == '<' && forall j :: k < j < p ==> s[j] != '>'
  }

  /** The scanner form of the tag test agrees with the lookbehind. */
  lemma {:induction false} InTagIsUnclosedTag(s: string, p: nat)
    requires p <= |s|
    ensures InTag(s, p) <==> UnclosedTagBefore(s, p)
    decreases p
  {
    if p > 0 {
      InTagIsUnclosedTag(s, p - 1);
      if s[p - 1] == '<' {
        var k := p - 1;
        assert s[k] == '<';
      } else if s[p - 1] == '>' {
      } else {
        if UnclosedTagBefore(s, p) {
          var k :| 0 <= k < p && s[k] == '<' && forall j :: k < j < p ==> s[j] != '>';
          assert k < p - 1;
          assert UnclosedTagBefore(s, p - 1);
        }
        if UnclosedTagBefore(s, p - 1) {
          var k :| 0 <= k < p - 1 && s[k] == '<' && forall j :: k < j < p - 1 ==> s[j] != '>';
          assert forall j :: k < j < p ==> s[j] != '>';
        }
      }
    }
  }

  /** The tag state at j is the state at i advanced over s[i..j]. */
  lemma {:induction false} InTagAdvance(s: string, i: nat, j: nat)
    requires i <= j <= |s|
    ensures InTag(s, j) == StateAfter(InTag(s, i), s[i..j])
    decreases j - i
  {
    if i < j {
      InTagAdvance(s, i + 1, j);
      assert s[i..j][1..] == s[i + 1..j];
    }
  }

  /** A stretch without brackets leaves the tag state as it was. */
  lemma {:induction false} InTagAcrossPlainText(s: string, i: nat, j: nat)
    requires i <= j <= |s|
    requires forall k :: i <= k < j ==> s[k] != '<' && s[k] != '>'
    ensures InTag(s, j) == InTag(s, i)
    decreases j - i
  {
    if i < j {
      InTagAcrossPlainText(s, i, j - 1);
    }
  }

  /** Right after an opened `<`, and up to its `>`, positions are in a tag. */
  lemma {:induction false} InsideTagIsInTag(s: string, q: nat, j: nat)
    requires q < j <= |s| && s[q] == '<'
    requires forall k :: q < k < j ==> s[k] != '>'
    ensures InTag(s, j)
    decreases j - q
  {
    if j > q + 1 {
      InsideTagIsInTag(s, q, j - 1);
    }
  }

  /** Two strings with brackets in the same places agree on the tag state. */
  lemma {:induction false} InTagSameBrackets(s: string, t: string, p: nat)
    requires p <= |s| && p <= |t|
    requires forall k :: 0 <= k < p ==> (s[k] == '<' <==> t[k] == '<') && (s[k] == '>' <==> t[k] == '>')
    ensures InTag(s, p) == InTag(t, p)
    decreases p
  {
    if p > 0 {
      InTagSameBrackets(s, t, p - 1);
    }
  }

  /** Before any `<`, no position is in a tag. */
  lemma {:induction false} NoOpenBracketNoTag(s: string, p: nat)
    requires p <= |s| && forall k :: 0 <= k < p ==> s[k] != '<'
    ensures !InTag(s, p)
    decreases p
  {
    if p > 0 {
      NoOpenBracketNoTag(s, p - 1);
    }
  }

  /** A rule guarded by notInTag may not start a match at p. */
  predicate Blocked(guarded: bool, s: string, p: nat)
    requires p <= |s|
  {
    guarded && InTag(s, p)
  }

  /** Slices of a suffix are slices of the text. */
  lemma SliceOfSuffix(s: string, i: nat, a: nat, b: nat)
    requires a <= b && i + b <= |s|
    ensures s[i..][a..b] == s[i + a..i + b]
    ensures s[i..][..b] == s[i..i + b]
    ensures s[i..][b..] == s[i + b..]
  {
  }

  /** Cutting a suffix of the text at q and e. */
  lemma SliceSplit(s: string, i: nat, q: nat, e: nat)
    requires i <= q <= e <= |s|
    ensures s[i..e] == s[i..q] + s[q..e]
    ensures s[i..] == s[i..q] + s[q..e] + s[e..]
  {
  }

  // ---------------------------------------------------------------------
  // Anchors under the `m` flag and `\b`

  predicate LineStart(s: string, p: nat)
    requires p <= |s|
  {
    p == 0 || IsLineTerminator(s[p - 1])
  }

  predicate LineEnd(s: string, p: nat)
    requires p <= |s|
  {
    p == |s| || IsLineTerminator(s[p])
  }

  predicate WordCharAt(s: string, p: int) {
    0 <= p < |s| && IsWordChar(s[p])
  }

  /** `\b` at p. */
  predicate WordBoundary(s: string, p: nat)
    requires p <= |s|
  {
    WordCharAt(s, p - 1) != WordCharAt(s, p)
  }

  // ---------------------------------------------------------------------
  // Maximal runs

  function DotRunEnd(s: string, i: nat): (e: nat)
    requires i <= |s|
    ensures i <= e <= |s|
    ensures forall j :: i <= j < e ==> s[j] == '.'
    ensures e == |s| || s[e] != '.'
    decreases |s| - i
  {
    if i < |s| && s[i] == '.' then DotRunEnd(s, i + 1) else i
  }

  function DigitRunEnd(s: string, i: nat): (e: nat)
    requires i <= |s|
    ensures i <= e <= |s|
    ensures forall j :: i <= j < e ==> IsDigit(s[j])
    ensures e == |s| || !IsDigit(s[e])
    decreases |s| - i
  {
    if i < |s| && IsDigit(s[i]) then DigitRunEnd(s, i + 1) else i
  }

  /** Every position of a digit run ends at the run's end. */
  lemma DigitRunFromInside(s: string, i: nat, p: nat)
    requires i <= |s| && i <= p <= DigitRunEnd(s, i)
    ensures DigitRunEnd(s, p) == DigitRunEnd(s, i)
  {
  }

  /** Run of members of a class, matched case-sensitively. */
  function ClassRunEnd(k: CharClass, s: string, i: nat): (e: nat)
    requires i <= |s|
    ensures i <= e <= |s|
    ensures forall j :: i <= j < e ==> k.Has(s[j])
    ensures e == |s| || !k.Has(s[e])
    decreases |s| - i
  {
    if i < |s| && k.Has(s[i]) then ClassRunEnd(k, s, i + 1) else i
  }

  function NonSpaceRunEnd(s: string, i: nat): (e: nat)
    requires i <= |s|
    ensures i <= e <= |s|
    ensures forall j :: i <= j < e ==> !IsSpace(s[j])
    ensures e == |s| || IsSpace(s[e])
    decreases |s| - i
  {
    if i < |s| && !IsSpace(s[i]) then NonSpaceRunEnd(s, i + 1) else i
  }

  function WordRunEnd(s: string, i: nat): (e: nat)
    requires i <= |s|
    ensures i <= e <= |s|
    ensures forall j :: i <= j < e ==> IsWordChar(s[j])
    ensures e == |s| || !IsWordChar(s[e])
    decreases |s| - i
  {
    if i < |s| && IsWordChar(s[i]) then WordRunEnd(s, i + 1) else i
  }

  /** Run of characters other than `<` and `>` (the `[^<>]*` of a tag). */
  function BracketFreeEnd(s: string, i: nat): (e: nat)
    requires i <= |s|
    ensures i <= e <= |s|
    ensures forall j :: i <= j < e ==> s[j] != '<' && s[j] != '>'
    ensures e == |s| || s[e] == '<' || s[e] == '>'
    decreases |s| - i
  {
    if i < |s| && s[i] != '<' && s[i] != '>' then BracketFreeEnd(s, i + 1) else i
  }

  // ---------------------------------------------------------------------
  // Tags

  /** The two tag patterns of the library: `<[^<>]*>` and `</?\w+>`. */
  datatype TagShape = AnyTag | WordTag

  /** End (exclusive) of the tag starting at q, if one does. */
  function TagEnd(shape: TagShape, s: string, q: nat): (t: Option<nat>)
    requires q <= |s|
    ensures t.Some? ==> q + 2 <= t.value <= |s| && s[q] == '<' && s[t.value - 1] == '>'
    ensures t.Some? ==> forall j :: q < j < t.value - 1 ==> s[j] != '<' && s[j] != '>'
    ensures t.Some? && shape == WordTag ==> forall j :: q < j < t.value - 1 ==> s[j] == '/' || IsWordChar(s[j])
  {
    if q < |s| && s[q] == '<' then
      match shape
      case AnyTag =>
        var j := BracketFreeEnd(s, q + 1);
        if j < |s| && s[j] == '>' then Some(j + 1) else None
      case WordTag =>
        var r := if q + 1 < |s| && s[q + 1] == '/' then q + 2 else q + 1;
        var w := WordRunEnd(s, r);
        if r < w < |s| && s[w] == '>' then Some(w + 1) else None
    else None
  }

  // ---------------------------------------------------------------------
  // Entities, punctuation and the decimal separator

  /** `&\S*` ends right before p: the lookbehind of `(?<!&\S*);`. */
  predicate EntityOpenBefore(s: string, p: nat)
    requires p <= |s|
  {
    p > 0 && !IsSpace(s[p - 1]) && (s[p - 1] == '&' || EntityOpenBefore(s, p - 1))
  }

  /** `semicolon`: a `;` that does not close an entity. */
  predicate SemicolonAt(s: string, p: nat)
    requires p < |s|
  {
    s[p] == ';' && !EntityOpenBefore(s, p)
  }

  /** `\S*;` starts at q: the lookahead that marks an `&` as an entity. */
  predicate EntityAhead(s: string, q: nat)
    requires q <= |s|
    decreases |s| - q
  {
    q < |s| && !IsSpace(s[q]) && (s[q] == ';' || EntityAhead(s, q + 1))
  }

  /** A `punctuation` alternative: `semicolon`, one of `.,!?:`, or a member
      of `others` (the quotes folded into it). */
  datatype PunctuationPattern = PunctuationPattern(others: CharClass)

  predicate PunctuationAt(pu: PunctuationPattern, s: string, p: nat)
    requires p < |s|
  {
    SemicolonAt(s, p) || s[p] in ".,!?:" || pu.others.HasFolded(s[p])
  }

  /** `(?<!D\d*)` fails at p: a decimal separator, then only digits, before p. */
  predicate AfterDecimal(decimals: CharClass, s: string, p: nat)
    requires p <= |s|
  {
    p > 0 && (decimals.HasFolded(s[p - 1]) || (IsDigit(s[p - 1]) && AfterDecimal(decimals, s, p - 1)))
  }

  /** The optional `(dash space)` before the letter of an opening quote. */
  datatype DashSpace = DashSpace(dash: CharClass, space: CharClass)

  /** The derived `shortWord` entry `\b letters{1,2} \b (tag)?`. */
  datatype ShortWordPattern = ShortWordPattern(letters: CharClass, tag: TagShape)
}
