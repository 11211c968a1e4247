/**
  Character-level vocabulary of the rule library: the ECMAScript regular
  expression escapes the rules use (`\s`, `\d`, `\w`, line terminators),
  the simple case pairing behind the `i` flag, and bracket-expression
  character classes (`[a-zà-ž0-9]`, `[^...]`) as data.
 */
module Chars {

  /** No-break space, `'\xA0'`. */
  const NBSP: char := '\U{A0}'
  /** The private "hair space" marker, `'\xAF'`. */
  const HAIRSPACE: char := '\U{AF}'
  const EMDASH: char := '—'
  const ELLIPSIS: char := '…'
  const DEGREE: char := '°'

  /** `\s`: ECMAScript WhiteSpace and LineTerminator code points. */
  predicate IsSpace(c: char) {
    || c == '\t' || c == '\n' || c == '\U{B}' || c == '\U{C}' || c == '\r' || c == ' '
    || c == '\U{A0}' || c == '\U{1680}' || ('\U{2000}' <= c <= '\U{200A}')
    || c == '\U{2028}' || c == '\U{2029}' || c == '\U{202F}' || c == '\U{205F}'
    || c == '\U{3000}' || c == '\U{FEFF}'
  }

  /** `\d` */
  predicate IsDigit(c: char) {
    '0' <= c <= '9'
  }

  /** `\w` (also under the `i` flag, since the rules never use the `u` flag). */
  predicate IsWordChar(c: char) {
    ('a' <= c <= 'z') || ('A' <= c <= 'Z') || IsDigit(c) || c == '_'
  }

  /** The characters after which `^` and before which `$` match under the `m` flag. */
  predicate IsLineTerminator(c: char) {
    c == '\n' || c == '\r' || c == '\U{2028}' || c == '\U{2029}'
  }

  /** A block of the simple case table: code points lo..hi whose partner is
      at a fixed distance, or alternating pairs (lo, lo+1), (lo+2, lo+3), ... */
  datatype CaseShift = Shift(lo: int, hi: int, delta: int) | Pairs(lo: int, hi: int)

  /** Number of blocks in the case table beyond Basic Latin. */
  const CaseBlocks := 15

  /** Block k of the simple one-to-one case pairs of Latin-1, Latin
      Extended-A and the basic Cyrillic block. Characters whose upper case is
      several characters (ß, ŉ) or whose pairing leaves these blocks (ı, İ,
      ſ, µ) have no partner. */
  function CaseBlock(k: nat): CaseShift
    requires k < CaseBlocks
  {
    match k
    case 0 => Shift(0xC0, 0xD6, 0x20)
    case 1 => Shift(0xD8, 0xDE, 0x20)
    case 2 => Shift(0xE0, 0xF6, -0x20)
    case 3 => Shift(0xF8, 0xFE, -0x20)
    case 4 => Shift(0xFF, 0xFF, 0x79)
    case 5 => Shift(0x178, 0x178, -0x79)
    case 6 => Pairs(0x100, 0x12F)
    case 7 => Pairs(0x132, 0x137)
    case 8 => Pairs(0x139, 0x148)
    case 9 => Pairs(0x14A, 0x177)
    case 10 => Pairs(0x179, 0x17E)
    case 11 => Shift(0x400, 0x40F, 0x50)
    case 12 => Shift(0x410, 0x42F, 0x20)
    case 13 => Shift(0x430, 0x44F, -0x20)
    case _ => Shift(0x450, 0x45F, -0x50)
  }

  /** The partner of c found in blocks k and later, or c itself. */
  function PartnerFrom(k: nat, c: char): char
    requires k <= CaseBlocks
    decreases CaseBlocks - k
  {
    if k == CaseBlocks then c
    else
      var n := c as int;
      var b := CaseBlock(k);
      if b.lo <= n <= b.hi then
        var v := match b
                 case Shift(_, _, d) => n + d
                 case Pairs(lo, _) => if (n - lo) % 2 == 0 then n + 1 else n - 1;
        if 0 <= v < 0xD800 then v as char else c
      else PartnerFrom(k + 1, c)
  }

  /** The other member of c's case pair, or c itself: A-Z and a-z in
      Basic Latin, then the blocks above. */
  function CasePartner(c: char): char {
    if c < 'A' then c
    else if c <= 'Z' then (c as int + 0x20) as char
    else if c < 'a' then c
    else if c <= 'z' then (c as int - 0x20) as char
    else if c < '\U{C0}' then c
    else PartnerFrom(0, c)
  }

  /** Digits, `_` and the other ASCII non-letters have no case partner. */
  lemma NonLetterAsciiHasNoPartner(c: char)
    requires c < 'A' || ('Z' < c < 'a') || ('z' < c < '\U{C0}')
    ensures CasePartner(c) == c
  {
  }

  /** The blocks pair characters from U+00C0 up among themselves. */
  lemma {:induction false} PartnerFromStaysHigh(k: nat, c: char)
    requires k <= CaseBlocks && c >= '\U{C0}'
    ensures PartnerFrom(k, c) >= '\U{C0}'
    decreases CaseBlocks - k
  {
    if k < CaseBlocks {
      PartnerFromStaysHigh(k + 1, c);
    }
  }

  /** The blocks end at U+045F: a partner beyond it is the character itself. */
  lemma {:induction false} PartnerFromWithinBlocks(k: nat, c: char)
    requires k <= CaseBlocks
    ensures PartnerFrom(k, c) == c || PartnerFrom(k, c) <= '\U{45F}'
    decreases CaseBlocks - k
  {
    if k < CaseBlocks {
      PartnerFromWithinBlocks(k + 1, c);
    }
  }

  /** Where partners lie: a character below U+00C0 is its own partner
      unless it is an ASCII letter, no character from U+00C0 up has a
      partner below it, and a partner beyond U+045F is the character itself. */
  lemma PartnerRanges(c: char)
    ensures CasePartner(c) < '\U{C0}' ==> c == CasePartner(c) || IsAsciiLetter(c)
    ensures IsAsciiLetter(CasePartner(c)) <==> IsAsciiLetter(c)
    ensures CasePartner(c) > '\U{45F}' ==> CasePartner(c) == c
  {
    if c >= '\U{C0}' {
      PartnerFromStaysHigh(0, c);
      PartnerFromWithinBlocks(0, c);
    }
  }

  predicate IsAsciiLetter(c: char) {
    ('A' <= c <= 'Z') || ('a' <= c <= 'z')
  }

  /** Two characters are equal under the `i` flag. */
  predicate FoldEq(a: char, b: char) {
    a == b || CasePartner(a) == b
  }

  /** One range `lo-hi` of a bracket expression (a single character is `c-c`). */
  datatype CharRange = CharRange(lo: char, hi: char)

  function One(c: char): CharRange {
    CharRange(c, c)
  }

  predicate InRanges(ranges: seq<CharRange>, c: char)
    decreases |ranges|
  {
    |ranges| > 0 && ((ranges[0].lo <= c <= ranges[0].hi) || InRanges(ranges[1..], c))
  }

  /** Membership in a list of ranges, first range split off. */
  lemma InRangesCons(r: CharRange, rest: seq<CharRange>, c: char)
    ensures InRanges([r] + rest, c) <==> (r.lo <= c <= r.hi) || InRanges(rest, c)
  {
    assert ([r] + rest)[1..] == rest;
  }

  /** A bracket expression `[...]` or `[^...]`, its ranges in source order. */
  datatype CharClass = CharClass(negated: bool, ranges: seq<CharRange>) {

    /** Membership without the `i` flag. */
    predicate Has(c: char) {
      InRanges(ranges, c) != negated
    }

    /** Membership under the `i` flag: the class names c or its case partner. */
    predicate HasFolded(c: char) {
      (InRanges(ranges, c) || InRanges(ranges, CasePartner(c))) != negated
    }
  }

}
