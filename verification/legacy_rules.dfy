/**
  The older rule set of src/common.js: a `defs` bundle of pattern pieces,
  two of them derived from the others, and rule factories from the bundle
  to `{regex, result}` records. None of these patterns has a `notInTag`
  guard, and tags are the simple `</?\w+>`.
 */
module LegacyRules {
  import opened Chars
  import opened Patterns
  import opened Replace

  /** The plain entries of `defs`; `semicolon` is a fixed pattern
      (`Patterns.SemicolonAt`), `punctuation` and `shortWord` are derived. */
  datatype Defs = Defs(
    space: CharClass, nbsp: char, hairspace: char, tag: TagShape,
    quotes: CharClass, letters: CharClass, upperletters: CharClass, nonletters: CharClass,
    letterswithquotes: CharClass, dash: CharClass,
    thousandsSeparator: string, decimalsSeparator: CharClass, ordinals: seq<string>,
    openingQuote: string, closingQuote: string)

  const DefaultDefs: Defs := Defs(
    space := CharClass(false, [One(' '), One('\t')]),
    nbsp := NBSP,
    hairspace := HAIRSPACE,
    tag := WordTag,
    quotes := CharClass(false, [One('"'), One('“'), One('”'), One('«'), One('»'), One('‘'), One('’')]),
    letters := CharClass(false, [CharRange('a', 'z'), CharRange('à', 'ž'), CharRange('0', '9'), One('-')]),
    upperletters := CharClass(false, [CharRange('A', 'Z'), CharRange('À', 'Ž'), CharRange('0', '9'), One('-')]),
    nonletters := CharClass(true, [CharRange('a', 'z'), CharRange('à', 'ž'), CharRange('0', '9'), One('-')]),
    letterswithquotes := CharClass(false, [CharRange('a', 'z'), CharRange('à', 'ž'), CharRange('0', '9'), One('-'),
                                           One('“'), One('”'), One('‘'), One('’'), One('«'), One('»')]),
    dash := CharClass(false, [One('-'), One('—')]),
    thousandsSeparator := ",",
    decimalsSeparator := CharClass(false, [One('.')]),
    ordinals := ["st", "nd", "rd", "th"],
    openingQuote := "“",
    closingQuote := "”")

  /** Derived `punctuation`: `semicolon`, the `quotes` class, or `.,!?:`. */
  function Punctuation(d: Defs): PunctuationPattern {
    PunctuationPattern(d.quotes)
  }

  /** Derived `shortWord`: `\b letters{1,2} \b (tag)?`. */
  function ShortWord(d: Defs): ShortWordPattern {
    ShortWordPattern(d.letters, d.tag)
  }

  function ShortWordsBreak(d: Defs): Rule {
    ShortWordsBounded(ShortWord(d), d.space, d.nbsp)
  }

  function Orphans(d: Defs): Rule {
    OrphanBind(false, d.space, d.nbsp)
  }

  /** `spaces`: short words, then orphans. */
  function Spaces(d: Defs): seq<Rule> {
    [ShortWordsBreak(d), Orphans(d)]
  }

  /** The four `emdash` records; the second is a plain record, not a factory. */
  function Emdash(d: Defs): seq<Rule> {
    [ DashJoin(false, d.space, d.nbsp),
      DashSpaceAfter(false),
      DashAfterWord(false, d.letterswithquotes, d.tag, d.space, d.dash, d.nbsp),
      DashLeading(false, Punctuation(d), d.space, d.dash, d.nbsp) ]
  }

  const Ellipsis: Rule := CollapseDots(false)

  function Amp(d: Defs): Rule {
    WrapAmp(false, d.space, d.nbsp)
  }

  /** Flags `gm`: case-sensitive. */
  function Abbr(d: Defs): Rule {
    WrapAbbr(false, d.upperletters)
  }

  /** Ordinals, then thousands separators. */
  function Numbers(d: Defs): seq<Rule> {
    [SupOrdinal(false, d.ordinals), GroupThousands(d.decimalsSeparator, d.thousandsSeparator)]
  }

  /** Opening quotes before a (tag and) letter, then closing quotes. */
  function Quotes(d: Defs): seq<Rule> {
    [OpenQuote(false, d.tag, None, d.letters, d.openingQuote), CloseQuote(false, d.closingQuote)]
  }

  /** The ranges of the `quotes` class, read one by one. */
  lemma DefaultQuotesRanges(x: char)
    ensures InRanges(DefaultDefs.quotes.ranges, x) <==> x in "\"“”«»‘’"
  {
    var r := [One('"'), One('“'), One('”'), One('«'), One('»'), One('‘'), One('’')];
    assert DefaultDefs.quotes.ranges == r;
    InRangesCons(One('’'), [], x);
    assert InRanges(r[6..], x) <==> x == '’' by {
      assert r[6..] == [One('’')] + [];
    }
    InRangesCons(One('‘'), r[6..], x);
    assert InRanges(r[5..], x) <==> x == '‘' || InRanges(r[6..], x) by {
      assert r[5..] == [One('‘')] + r[6..];
    }
    InRangesCons(One('»'), r[5..], x);
    assert InRanges(r[4..], x) <==> x == '»' || InRanges(r[5..], x) by {
      assert r[4..] == [One('»')] + r[5..];
    }
    InRangesCons(One('«'), r[4..], x);
    assert InRanges(r[3..], x) <==> x == '«' || InRanges(r[4..], x) by {
      assert r[3..] == [One('«')] + r[4..];
    }
    InRangesCons(One('”'), r[3..], x);
    assert InRanges(r[2..], x) <==> x == '”' || InRanges(r[3..], x) by {
      assert r[2..] == [One('”')] + r[3..];
    }
    InRangesCons(One('“'), r[2..], x);
    assert InRanges(r[1..], x) <==> x == '“' || InRanges(r[2..], x) by {
      assert r[1..] == [One('“')] + r[2..];
    }
    InRangesCons(One('"'), r[1..], x);
    assert InRanges(r, x) <==> x == '"' || InRanges(r[1..], x) by {
      assert r == [One('"')] + r[1..];
    }
  }

  /** The `quotes` class of the older `defs` holds exactly the straight
      double quote and the six curly quotes and guillemets. */
  lemma DefaultQuotesMembers(c: char)
    ensures DefaultDefs.quotes.HasFolded(c) <==> c in "\"“”«»‘’"
  {
    var p := CasePartner(c);
    PartnerRanges(c);
    DefaultQuotesRanges(c);
    DefaultQuotesRanges(p);
    if InRanges(DefaultDefs.quotes.ranges, p) {
      assert !IsAsciiLetter(p);
      assert p == c;
    }
  }

  /** Derived `punctuation` with the default bundle: a `;` that ends no
      entity, one of `.,!?:`, or one of the `quotes` characters. */
  lemma DefaultPunctuationMembers(s: string, p: nat)
    requires p < |s|
    ensures PunctuationAt(Punctuation(DefaultDefs), s, p) <==> SemicolonAt(s, p) || s[p] in ".,!?:" || s[p] in "\"“”«»‘’"
  {
    DefaultQuotesMembers(s[p]);
  }

  /** The space class of the older `defs` holds only the space and the tab. */
  lemma DefaultSpaceMembers(c: char)
    ensures DefaultDefs.space.HasFolded(c) <==> c == ' ' || c == '\t'
  {
    var p := CasePartner(c);
    PartnerRanges(c);
    forall x
      ensures InRanges(DefaultDefs.space.ranges, x) <==> x == ' ' || x == '\t'
    {
      assert DefaultDefs.space.ranges == [One(' ')] + [One('\t')];
      InRangesCons(One(' '), [One('\t')], x);
      InRangesCons(One('\t'), [], x);
    }
    if InRanges(DefaultDefs.space.ranges, p) {
      assert p == ' ' || p == '\t';
      assert !IsAsciiLetter(p);
      assert p == c;
    }
  }

  /** The dash class of the older `defs` holds the hyphen and the em dash. */
  lemma DefaultDashMembers(c: char)
    ensures DefaultDefs.dash.HasFolded(c) <==> c == '-' || c == EMDASH
  {
    var p := CasePartner(c);
    PartnerRanges(c);
    forall x
      ensures InRanges(DefaultDefs.dash.ranges, x) <==> x == '-' || x == EMDASH
    {
      assert DefaultDefs.dash.ranges == [One('-')] + [One(EMDASH)];
      InRangesCons(One('-'), [One(EMDASH)], x);
      InRangesCons(One(EMDASH), [], x);
    }
    if InRanges(DefaultDefs.dash.ranges, p) {
      assert !IsAsciiLetter(p);
      assert p == c;
    }
  }
}
