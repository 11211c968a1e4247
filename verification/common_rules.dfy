/**
  The rules of packages/richtypo-rules-common/src/common.js as rule values:
  every pattern there starts with `notInTag` except the thousands
  separator, and the locale-dependent rules are factories over a bundle of
  locale parameters.
 */
module CommonRules {
  import opened Chars
  import opened Patterns
  import opened CommonDefinitions
  import opened Replace
  import opened Pipeline

  /** No-break space after a one- or two-letter word. */
  const ShortWords: Rule := ShortWordsAfterGap

  /** No-break space before a short last word of a paragraph. */
  const Orphans: Rule := OrphanBind(true, Space, NBSP)

  /** No-break space between a number and its unit. */
  const NumberUnits: Rule := NumberUnitBind

  /** Hair space between a digit and a degree sign. */
  const DegreeSigns: Rule := DegreeBind

  /** The alternatives before a leading dash: `punctuation`, `openingQuote` or `"`. */
  const LeadPunctuation: PunctuationPattern :=
    PunctuationPattern(CharClass(false, Punctuation.others.ranges + OpeningQuote.ranges + [One('"')]))

  /** The four replacements of `dashes`, in order. */
  const Dashes: seq<Rule> := [
    DashJoin(true, Space, NBSP),
    DashSpaceAfter(true),
    DashAfterWord(true, LetterOrQuote, Tag, Space, Dash, NBSP),
    DashLeading(true, LeadPunctuation, Space, Dash, NBSP)
  ]

  const Ellipses: Rule := CollapseDots(true)

  const Amps: Rule := WrapAmp(true, Space, NBSP)

  /** The only rule with flags `gm`: upper-case letters are matched as written. */
  const Abbrs: Rule := WrapAbbr(true, UpperLetter)

  /** The locale entries the factories destructure. `ordinals` is the list of
      alternatives of the locale's suffix pattern; `decimalsSeparator` is a
      character class, one character wide, where the source accepts any
      pattern fragment; `thousandsSeparator` is any string. */
  datatype Locale = Locale(ordinals: seq<string>, decimalsSeparator: CharClass, thousandsSeparator: string,
                           openingQuote: string, closingQuote: string)

  function NumberOrdinalsFactory(l: Locale): Rule {
    SupOrdinal(true, l.ordinals)
  }

  function NumberSeparatorsFactory(l: Locale): Rule {
    GroupThousands(l.decimalsSeparator, l.thousandsSeparator)
  }

  /** Opening quotes first, then every other straight quote closes. */
  function QuotesFactory(l: Locale): seq<Rule> {
    [OpenQuote(true, Tag, Some(DashSpace(Dash, Space)), Letter, l.openingQuote), CloseQuote(true, l.closingQuote)]
  }
}
