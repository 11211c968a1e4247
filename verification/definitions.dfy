/**
  The shared `definitions` of packages/richtypo-rules-common/src/common.js:
  character classes as bracket expressions in the order written there, and
  the tag and punctuation patterns. `shortWord` (`letter{1,2}`) and
  `notInTag` are structural and live in the matchers and in `Patterns.InTag`.
 */
module CommonDefinitions {
  import opened Chars
  import opened Patterns

  /** `[ \t\xA0\xAF]` */
  const Space: CharClass := CharClass(false, [One(' '), One('\t'), One(NBSP), One(HAIRSPACE)])

  /** `(?:<[^<>]*>)` */
  const Tag: TagShape := AnyTag

  /** `["“”«»‘’]` */
  const Quote: CharClass :=
    CharClass(false, [One('"'), One('“'), One('”'), One('«'), One('»'), One('‘'), One('’')])

  /** `[a-zà-ž0-9а-яё]` (the Cyrillic range is U+0430-U+044F, then U+0451) */
  const Letter: CharClass :=
    CharClass(false, [CharRange('a', 'z'), CharRange('à', 'ž'), CharRange('0', '9'),
                      CharRange('\U{430}', '\U{44F}'), One('\U{451}')])

  /** `[A-ZÀ-ŽdА-ЯЁ]`, stray `d` included (Cyrillic U+0410-U+042F, then U+0401) */
  const UpperLetter: CharClass :=
    CharClass(false, [CharRange('A', 'Z'), CharRange('À', 'Ž'), One('d'),
                      CharRange('\U{410}', '\U{42F}'), One('\U{401}')])

  /** `[-“”‘’«»a-zà-ž0-9а-яё]` */
  const LetterOrQuote: CharClass :=
    CharClass(false, [One('-'), One('“'), One('”'), One('‘'), One('’'), One('«'), One('»'),
                      CharRange('a', 'z'), CharRange('à', 'ž'), CharRange('0', '9'),
                      CharRange('\U{430}', '\U{44F}'), One('\U{451}')])

  /** `(?:semicolon|[\.,!?:])` */
  const Punctuation: PunctuationPattern := PunctuationPattern(CharClass(false, []))

  /** `[-—]` */
  const Dash: CharClass := CharClass(false, [One('-'), One('—')])

  /** `[“‘«]` */
  const OpeningQuote: CharClass := CharClass(false, [One('“'), One('‘'), One('«')])

  /** The space class of the newer rules holds exactly its four listed
      characters, case folding included. */
  lemma SpaceMembers(c: char)
    ensures Space.HasFolded(c) <==> c == ' ' || c == '\t' || c == NBSP || c == HAIRSPACE
  {
    var p := CasePartner(c);
    PartnerRanges(c);
    forall x
      ensures InRanges(Space.ranges, x) <==> x == ' ' || x == '\t' || x == NBSP || x == HAIRSPACE
    {
      assert Space.ranges == [One(' ')] + ([One('\t')] + ([One(NBSP)] + [One(HAIRSPACE)]));
      InRangesCons(One(' '), [One('\t')] + ([One(NBSP)] + [One(HAIRSPACE)]), x);
      InRangesCons(One('\t'), [One(NBSP)] + [One(HAIRSPACE)], x);
      InRangesCons(One(NBSP), [One(HAIRSPACE)], x);
      InRangesCons(One(HAIRSPACE), [], x);
    }
    if InRanges(Space.ranges, p) {
      assert p == ' ' || p == '\t' || p == NBSP || p == HAIRSPACE;
      assert !IsAsciiLetter(p);
      assert p == c;
    }
  }

  /** The dash class holds exactly the hyphen and the em dash. */
  lemma DashMembers(c: char)
    ensures Dash.HasFolded(c) <==> c == '-' || c == EMDASH
  {
    var p := CasePartner(c);
    PartnerRanges(c);
    forall x
      ensures InRanges(Dash.ranges, x) <==> x == '-' || x == EMDASH
    {
      assert Dash.ranges == [One('-')] + [One(EMDASH)];
      InRangesCons(One('-'), [One(EMDASH)], x);
      InRangesCons(One(EMDASH), [], x);
    }
    if InRanges(Dash.ranges, p) {
      assert !IsAsciiLetter(p);
      assert p == c;
    }
  }
}
