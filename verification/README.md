# richtypo typographic rules in Dafny

richtypo improves the typography of HTML text with a library of rules. Each
rule is a regular-expression global replace. It inserts no-break spaces,
em dashes, ellipses, curly quotes, superscript ordinals, thousands
separators, and `<abbr>` / `<span class="amp">` markup. Two versions of the
rule library exist:

- `packages/richtypo-rules-common/src/common.js` has the character classes
  and the rules as closures. Every pattern except the thousands separator
  starts with the `notInTag` lookbehind. The locale-dependent rules
  (ordinals, separators, quotes) are factories over a locale bundle.
- `src/common.js` has a `defs` bundle and rule factories from it to
  `{regex, result}` records. `punctuation` and `shortWord` are derived from
  other entries. There are no tag guards, and a tag is the simple `</?\w+>`.

This project models both rule sets. It has no regex engine. Each pattern
becomes a matcher: a function that says whether a match starts at a
position, where it ends and what replaces it. A matcher is written from the
pattern's character classes, greediness and lookarounds. One scanner
(`Replace.ScanWith`) gives the JavaScript global-replace discipline: the
leftmost match wins, the scan resumes after it, and lookarounds read the
original text.

- `chars.dfy`, `definitions.dfy`: characters, the `i` flag's case partners,
  and the classes `space`, `letter`, `upperLetter`, `dash` and the rest.
- `patterns.dfy`: the `notInTag` state (`InTag`), runs, word boundaries,
  tags, entities and punctuation.
- `matchers.dfy`: one matcher per pattern.
- `replace.dfy`: rules, the scanner and `Apply`.
- `common_rules.dfy`, `legacy_rules.dfy`: the two rule sets.
- `pipeline.dfy`: rule lists and nested lists run in order.
- `views.dfy`, `inverse.dfy`, `markup.dfy`, `pointwise.dfy`: the generic
  partners. These are a projection that a rule keeps, an inverse that puts
  the replaced text back, the removal of inserted tags, and a position-wise
  relation between input and output.
- `*_proofs.dfy`: one file per rule family.

## Model

| member | source | states |
|---|---|---|
| Patterns.InTagIsUnclosedTag | packages/richtypo-rules-common/src/common.js:14 | the left-to-right tag state at a position holds exactly when some `<` before it has no `>` between it and the position, which is what `(?<!<[^>]*)` rejects |
| Patterns.InsideTagIsInTag | packages/richtypo-rules-common/src/common.js:14 | every position after a `<` with no `>` since then is inside a tag |
| Patterns.InTagSameBrackets | packages/richtypo-rules-common/src/common.js:14 | the tag state depends only on where `<` and `>` are, so a rule that adds neither keeps every guard decision |
| Patterns.NoOpenBracketNoTag | packages/richtypo-rules-common/src/common.js:14 | a text with no `<` before a position is never inside a tag there |
| CommonDefinitions.SpaceMembers | packages/richtypo-rules-common/src/common.js:3 | under the `i` flag the space class holds exactly space, tab, no-break space and the `\xAF` marker |
| CommonDefinitions.DashMembers | packages/richtypo-rules-common/src/common.js:11 | the dash class holds exactly `-` and `—` |
| Chars.PartnerRanges | packages/richtypo-rules-common/src/common.js:6-7 | case-insensitive matching pairs ASCII letters only with ASCII letters, gives no partner to other characters below U+00C0, and never changes a character above U+045F |
| LegacyRules.DefaultSpaceMembers | src/common.js:2 | the older space class holds only space and tab |
| LegacyRules.DefaultDashMembers | src/common.js:14 | the older dash class holds exactly `-` and `—` |
| LegacyRules.DefaultQuotesMembers | src/common.js:6 | under the `i` flag the older `quotes` class holds exactly `"`, `“`, `”`, `«`, `»`, `‘` and `’` |
| LegacyRules.DefaultPunctuationMembers | src/common.js:11-13 | the derived `punctuation` of the default bundle matches exactly a `;` that ends no entity, one of `.,!?:`, or one of the seven `quotes` characters |
| Matchers.EllipsisAt | packages/richtypo-rules-common/src/common.js:83-84 | a match starts exactly at two dots outside a tag; it takes the whole dot run and gives one `…` |
| Matchers.AbbrAt | packages/richtypo-rules-common/src/common.js:92-96 | a match starts exactly where a run of at least three upper-class characters starts outside a tag; it wraps the whole run in `<abbr>` |
| Matchers.SeparatorAt | packages/richtypo-rules-common/src/common.js:104-114 | a match starts exactly at a digit not preceded by a decimal separator and digits, in a run of four or more; it keeps one to three digits and adds the separator |
| Matchers.LeadingGroup | packages/richtypo-rules-common/src/common.js:110 | the leading group is empty for fewer than four digits; otherwise it has one to three digits and leaves a positive multiple of three |
| Matchers.OrdinalAt | packages/richtypo-rules-common/src/common.js:98-102 | a match starts exactly at a digit outside a tag where one of the suffixes follows some prefix of its digit run that holds at least one digit, which is what backtracking in `\d+` can reach |
| Matchers.ShortWordsAt | packages/richtypo-rules-common/src/common.js:34-41 | a match starts exactly outside a tag after a line start, a class space, a quote or `>`, at two letters, or failing that one letter, followed by an optional tag and a class space; that space becomes a no-break space |
| Matchers.ShortWordsBoundedAt | src/common.js:20-27 | a match starts exactly at a word boundary with two letters, or failing that one letter, then a word boundary, an optional simple tag and a class space; that space becomes a no-break space |
| Matchers.OrphanAt | packages/richtypo-rules-common/src/common.js:44-48 | a match starts exactly at a class space outside a tag followed by 1 to 10 UTF-16 code units of non-space text that end at `\n\n`, a line end or the text end; a character above U+FFFF counts as two units; the space becomes a no-break space |
| Matchers.NumberUnitAt | packages/richtypo-rules-common/src/common.js:50-54 | a match starts exactly at a digit outside a tag whose whole digit run is followed by an optional tag, a class space and a word character; that space becomes a no-break space |
| Matchers.DegreeSignAt | packages/richtypo-rules-common/src/common.js:56-60 | a match starts exactly at a digit outside a tag followed, after an optional tag, by `°` or by a class space and `°`; the digit and tag are kept, and a hair space stands before `°` in place of the optional space |
| Matchers.DashJoinAt | packages/richtypo-rules-common/src/common.js:66 | a match starts exactly at a non-space outside a tag followed by `—` or by a class space and `—`; it gives that character, a no-break space and `—` |
| Matchers.DashAfterWordAt | packages/richtypo-rules-common/src/common.js:68-74 | a match starts exactly at a `letterOrQuote` character outside a tag followed by an optional tag, a class space and a class dash; the space becomes a no-break space and the dash `—` |
| Matchers.QuoteOpenAt | packages/richtypo-rules-common/src/common.js:118-121 | a `"` opens exactly when it is outside a tag and an optional tag, an optional dash and space, and a letter follow it |
| Matchers.DashLeadingAt | packages/richtypo-rules-common/src/common.js:75-81 | a match starts exactly either at a line start outside a tag where a class dash and a class space follow, or at punctuation, an opening quote or `"` followed by an optional class space and then a class dash and a class space; it turns that dash into `—` and that space into a no-break space and keeps the prefix |
| Pipeline.RunRulesAppend | packages/richtypo/src/__tests__/api.test.js:23-27 | running a list of rules followed by another list equals running the second list on the first list's result |
| Pipeline.RunNestedIsSequential | packages/richtypo/src/__tests__/api.test.js:29-33 | a nested list of rules runs its items in order, each on the previous result |
| Pipeline.NestedPairRunsInOrder | packages/richtypo/src/__tests__/api.test.js:29-33 | `[rule1, [rule2]]` gives the same text as `[rule1, rule2]`, which is `rule2` applied to `rule1`'s result |
| EllipsisProofs.ApplyIsCollapsed | packages/richtypo-rules-common/src/common.js:83-84 | the output equals a run-by-run reference: each maximal run of two or more dots starting outside a tag becomes one `…`, and every other run and character is copied in order |
| EllipsisProofs.ApplyIdempotent | packages/richtypo-rules-common/src/common.js:83-84 | applying the rule twice gives the same text as applying it once |
| EllipsisProofs.FixedIffNoDoubleDots | packages/richtypo-rules-common/src/common.js:83-84 | a text is unchanged exactly when it has no two adjacent dots starting outside a tag |
| EllipsisProofs.NoDoubleDotsLeft | packages/richtypo-rules-common/src/common.js:84 | no two adjacent dots remain outside tags in the output |
| EllipsisProofs.KeepsOtherCharacters | packages/richtypo-rules-common/src/common.js:83-84 | with dots and ellipses left out, output and input are the same character sequence |
| EllipsisProofs.YesHelloExample | packages/richtypo-rules-en/src/__tests__/en.test.js:89 | `Yes... Hello.` becomes `Yes… Hello.` |
| EllipsisProofs.TagAttributeExample | packages/richtypo-rules-common/src/common.js:83-84 | `<a title="..">` is left unchanged because its dots are inside a tag |
| EllipsisProofs.LegacyEllipsisCollapses | src/common.js:56-59 | the unguarded record collapses every run of two or more dots, inside tags as well as outside |
| EllipsisProofs.UnguardedIgnoresTags | src/common.js:56-59 | without the guard, the tag state has no effect on the output |
| AbbrProofs.ApplyIsWrapped | packages/richtypo-rules-common/src/common.js:92-96 | the output equals a run-by-run reference: each maximal run of three or more upper-class characters starting outside a tag is wrapped in `<abbr>…</abbr>`, and everything else is copied |
| AbbrProofs.UnwrapRestores | packages/richtypo-rules-common/src/common.js:92-96 | for a text with no `<`, removing the inserted `<abbr>` and `</abbr>` gives back the input |
| AbbrProofs.WholeRunWrapped | packages/richtypo-rules-common/src/common.js:94 | a text that is a single run of three or more upper-class characters is wrapped whole |
| AbbrProofs.StrayDWrapped | packages/richtypo-rules-common/src/common.js:7 | the stray `d` in `upperLetter` makes a capital followed by `d`s an abbreviation |
| AbbrProofs.LowerCaseUntouched | packages/richtypo-rules-common/src/common.js:92-96 | without the `i` flag, ASCII lower-case letters other than `d` are never wrapped |
| AbbrProofs.AccentedRunWrapped | packages/richtypo-rules-common/src/common.js:7 | the range `À-Ž` also holds the Latin-1 lower-case letters `à`-`ÿ` and the lower-case letters of Latin Extended-A, so a run of three or more of them, such as `éèà`, is wrapped |
| AbbrProofs.LegacyDigitsWrapped | src/common.js:66-70 | the older record also wraps runs of digits and hyphens of length three or more |
| OrdinalProofs.OrdinalMatchIff | packages/richtypo-rules-common/src/common.js:98-102 | when no suffix starts with a digit, a match starts exactly at a digit outside a tag whose whole digit run is followed by a suffix |
| OrdinalProofs.BacktrackingFindsNothing | packages/richtypo-rules-common/src/common.js:100 | backtracking into `\d+` finds no suffix when none follows the whole run |
| OrdinalProofs.ApplyIsSuperscripted | packages/richtypo-rules-common/src/common.js:98-102 | for suffixes that are non-empty and do not start with a digit, the output equals a run-by-run reference: a digit run followed by a suffix, starting outside a tag, becomes `digits<sup>suffix</sup>`, and everything else is copied |
| OrdinalProofs.UnsupRestores | packages/richtypo-rules-common/src/common.js:98-102 | for a text with no `<`, removing the inserted `<sup>` and `</sup>` gives back the input |
| OrdinalProofs.KeepsDigits | packages/richtypo-rules-common/src/common.js:98-102 | the output's digits are the input's digits, in order |
| OrdinalProofs.NoOrdinalUnchanged | packages/richtypo-rules-common/src/common.js:98-102 | a text where no digit is followed by a suffix is unchanged |
| SeparatorProofs.ApplyIsSeparated | packages/richtypo-rules-common/src/common.js:104-114 | the output equals a reference that groups each digit run by threes from its right end, except runs after a decimal separator |
| SeparatorProofs.GroupFromIsGrouped | packages/richtypo-rules-common/src/common.js:110 | grouping greedily from the left, as the scan does, equals grouping by threes counted from the right |
| SeparatorProofs.DecimalAcrossRun | packages/richtypo-rules-common/src/common.js:110 | the lookbehind gives the same answer at every position of a digit run, so a fractional part is never grouped |
| SeparatorProofs.DigitsOnlyGrouped | packages/richtypo-rules-common/src/common.js:104-114 | a text made only of digits is grouped by threes from the right |
| SeparatorProofs.SevenDigits | packages/richtypo-rules-common/src/common.js:104-114 | for any locale whose thousands separator is `,` and whose decimal class holds no digit, `1234567` becomes `1,234,567` |
| SeparatorProofs.KeepsAllButSeparator | packages/richtypo-rules-common/src/common.js:104-114 | for any separator string, with the separator's characters hidden, output and input read the same |
| SeparatorProofs.RemovingSeparatorRestores | packages/richtypo-rules-common/src/common.js:104-114 | for any separator string whose first character the input lacks, deleting every occurrence of the separator from the output, left to right, gives back the input |
| SeparatorProofs.HidingSeparatorRestores | packages/richtypo-rules-common/src/common.js:104-114 | for a text with none of the separator's characters, hiding them in the output gives back the input |
| SeparatorProofs.LegacyDecimalsHaveNoDigit | src/common.js:16 | the older decimal separator class `[.]` holds no digit |
| NumbersProofs.OrdinalsThenSeparators | src/common.js:72-81 | the `numbers` list equals the separator reference applied to the ordinal reference, for any suffixes not starting with a digit and any decimal class without digits |
| NumbersProofs.NumbersComposes | src/common.js:72-81 | with the bundle's defaults, the `numbers` list is that composition |
| NumbersProofs.FourDigitOrdinal | src/common.js:72-81 | four digits and a two-letter suffix gain one thousands separator after the first digit and a superscript suffix |
| NumbersProofs.ThousandthExample | src/common.js:72-81 | `1000th` ends as `1,000<sup>th</sup>` |
| QuoteProofs.QuotesPointwise | packages/richtypo-rules-common/src/common.js:116-122 | with one-character glyphs, the two passes keep the length; each `"` outside a tag becomes the opening glyph exactly when the opening pattern follows it, and the closing glyph otherwise; every other character is kept |
| QuoteProofs.CommonQuotesPointwise | packages/richtypo-rules-common/src/common.js:116-122 | the same for `quotesFactory` with any locale's one-character glyphs |
| QuoteProofs.QuotesLeaveOnlyTagQuotes | packages/richtypo-rules-common/src/common.js:116-122 | after both passes, a straight `"` remains only inside a tag |
| QuoteProofs.QuotesRestore | packages/richtypo-rules-common/src/common.js:116-122 | for non-empty glyphs, a text without the first character of either glyph, and an opening glyph without the closing glyph's first character, turning both glyphs back into `"` gives back the input |
| QuoteProofs.CommonQuotesRestore | packages/richtypo-rules-common/src/common.js:116-122 | the same round trip for `quotesFactory` |
| QuoteProofs.OpenLacks | packages/richtypo-rules-common/src/common.js:118-121 | the opening pass adds no character that neither the input nor the glyph holds |
| QuoteProofs.CloseIsClosed | packages/richtypo-rules-common/src/common.js:122 | the closing pass replaces each `"` outside a tag by the glyph and copies the rest |
| QuoteProofs.GuardedCloseWithoutTags | packages/richtypo-rules-common/src/common.js:122 | in a text without `<`, the closing pass leaves no straight `"` |
| QuoteProofs.GuardedCloseKeepsTagQuote | packages/richtypo-rules-common/src/common.js:122 | a `"` inside an unclosed `<…` is never replaced |
| QuoteProofs.UnguardedCloseLeavesNoStraightQuote | src/common.js:88-91 | the older closing record leaves no straight `"` anywhere |
| QuoteProofs.LegacyQuotesLeaveNoStraightQuote | src/common.js:83-92 | after the older `quotes` list no straight `"` remains |
| QuoteProofs.LegacyQuotesPointwise | src/common.js:83-92 | each `"` becomes `“` exactly when an optional simple tag and a `letters` character follow it, and `”` otherwise; every other character is kept |
| QuoteProofs.LegacyQuotesRestore | src/common.js:83-92 | for a text without `“` and `”`, turning both back into `"` gives back the input |
| AmpProofs.KeepsAmpersands | packages/richtypo-rules-common/src/common.js:86-90 | the rule loses no ampersand and adds none |
| AmpProofs.ApplyIsAmpWrapped | packages/richtypo-rules-common/src/common.js:86-90 | the output equals a run-by-run reference: each class space, `&`, class space starting outside a tag with no entity after the `&` becomes the no-break-space-wrapped span, the reading goes on after the second space, and every other character is copied |
| AmpProofs.WordsAroundAmp | packages/richtypo-rules-common/src/common.js:86-90 | two words joined by ` & ` come out joined by the wrapped span, as in `Dessi & Tsiri` |
| AmpProofs.SecondAmpCopied | packages/richtypo-rules-common/src/common.js:86-90 | in `a & & b` only the first ampersand is wrapped, because the match takes the space before the second |
| AmpProofs.UnwrapRestores | packages/richtypo-rules-common/src/common.js:86-90 | when the text's only class spaces are plain spaces and it has no no-break space, putting ` & ` back for the inserted markup gives the input |
| AmpProofs.CommonAmpsRestore | packages/richtypo-rules-common/src/common.js:86-90 | for a text without tab, no-break space or `\xAF`, `amps` is undone exactly |
| AmpProofs.NoFreeAmpUnchanged | packages/richtypo-rules-common/src/common.js:88 | a text where every `&` lacks a space on either side, is inside a tag, or starts an entity such as `&amp;` is unchanged |
| AmpProofs.LegacyAmpKeepsAmpersands | src/common.js:61-64 | the older record loses no ampersand and adds none |
| AmpProofs.LegacyAmpRestores | src/common.js:61-64 | for a text without tab or no-break space, the older record is undone exactly |
| SpacingProofs.ShortWordsRespace | packages/richtypo-rules-common/src/common.js:34-41 | the output has the input's length, and each position keeps its character or turns a class space into a no-break space |
| SpacingProofs.ShortWordsSquash | packages/richtypo-rules-common/src/common.js:34-41 | with spaces left out, output and input read the same |
| SpacingProofs.OrphansRespace | packages/richtypo-rules-common/src/common.js:44-48 | `orphans` only turns class spaces into no-break spaces |
| SpacingProofs.CommonOrphansSquash | packages/richtypo-rules-common/src/common.js:44-48 | with spaces left out, output and input of `orphans` read the same |
| SpacingProofs.OrphanCountsCodeUnits | packages/richtypo-rules-common/src/common.js:46 | a space and five characters above U+FFFF, ten UTF-16 units, form an orphan; a space and six such characters do not |
| SpacingProofs.NumberUnitsRespace | packages/richtypo-rules-common/src/common.js:50-54 | `numberUnits` only turns class spaces into no-break spaces |
| SpacingProofs.DegreeSignsSquash | packages/richtypo-rules-common/src/common.js:56-60 | with spaces and the `\xAF` marker left out, output and input of `degreeSigns` read the same |
| SpacingProofs.ShortWordsBreakRespace | src/common.js:24-27 | `shortWordsBreak` only turns class spaces into no-break spaces |
| SpacingProofs.LegacySpacesRespace | src/common.js:35 | the `spaces` list as a whole only turns class spaces into no-break spaces |
| DashProofs.JoinSquash | packages/richtypo-rules-common/src/common.js:66 | step 1 changes only spaces: with spaces left out, output and input read the same |
| DashProofs.SpaceAfterSquash | packages/richtypo-rules-common/src/common.js:67 | with spaces left out, step 2's output and input read the same |
| DashProofs.ApplyIsSpacedAfter | packages/richtypo-rules-common/src/common.js:67 | the output equals a run-by-run reference: an `—` followed by a non-space, starting outside a tag, gets a space between the two, the reading goes on after that character, and everything else is copied |
| DashProofs.ThreeDashes | packages/richtypo-rules-common/src/common.js:67 | `———` becomes `— ——`: only the first dash is spaced |
| DashProofs.AfterWordRedash | packages/richtypo-rules-common/src/common.js:68-74 | step 3 keeps the length and only turns a class space into a no-break space or a dash into `—` |
| DashProofs.LeadingRedash | packages/richtypo-rules-common/src/common.js:75-81 | step 4 keeps the length and only turns a class space into a no-break space or a dash into `—` |
| DashProofs.LeadingAfterPunctuationIgnoresTags | packages/richtypo-rules-common/src/common.js:77 | after punctuation, space, dash and space, step 4 matches whatever the tag state |
| DashProofs.LeadingInsideTagExample | packages/richtypo-rules-common/src/common.js:77 | inside `<a b=", - c">` step 4 matches at the comma |
| DashProofs.StepsSquash | packages/richtypo-rules-common/src/common.js:63-81 | for any classes where spaces are spaces and dashes are dashes, the four steps together change only spaces and the form of dashes |
| DashProofs.DashesSquash | packages/richtypo-rules-common/src/common.js:63-81 | with spaces left out and `-` read as `—`, the output and input of `dashes` read the same |
| DashProofs.EmdashSquash | src/common.js:37-54 | the same for the older `emdash` list |

## Left out

- The richtypo engine is not part of this model. It protects tags, code
  and comments, collapses spaces, turns the `\xAF` marker into `&#x202f;`
  and removes doubled `<abbr>`. A list of rules is modelled as running in
  order (`Pipeline`), as the engine's array and nested-array behaviour
  shows.
- Locale tables (`en`, `uk`, the recommended pipelines) are not part of
  this model. Ordinal suffixes, separators and quote glyphs are
  parameters (`CommonRules.Locale`). The ordinal pattern is a list of
  literal alternatives, tried in order.
- There is no general regex engine. Each pattern is written out as its own
  matcher.
- The `i` flag's case folding is modelled for the blocks up to U+045F
  (Latin-1, Latin Extended-A, Cyrillic). Other letters match only as
  written.
- A replacement string is used literally. `$` patterns in locale
  parameters are not interpreted.
- The older engine's default flags are taken as `gmi`. That engine is not
  part of this model. `abbr` gives `gm` explicitly.
- Replace.ScanWith: a matcher hit that does not advance is ignored. Every
  matcher of the model advances, so this never happens for the rules.
- The `\xAF` marker is in the `space` class but is not JavaScript
  whitespace. So it counts as `\S` in `orphans`, `dashes` and the entity
  lookahead, as the source's patterns make it.
- DashProofs.LeadingInsideTagExample: step 4 of `dashes` has its tag guard
  only on the line-start alternative. After punctuation or a quote it also
  matches inside a tag. This is modelled as written, because the source
  does not say whether it is intended.
- SpacingProofs.ShortWordsRespace, SpacingProofs.OrphansRespace,
  SpacingProofs.NumberUnitsRespace, SpacingProofs.ShortWordsBreakRespace,
  DashProofs.AfterWordRedash, DashProofs.LeadingRedash: these state which
  changes a rule can make. They do not state at which positions it makes
  them. The positions are given by the if-and-only-if contracts of the
  matchers `Matchers.ShortWordsAt`, `Matchers.OrphanAt`,
  `Matchers.NumberUnitAt`, `Matchers.ShortWordsBoundedAt`,
  `Matchers.DashAfterWordAt` and `Matchers.DashLeadingAt`, which are not
  carried up to a whole-text reference.
- SpacingProofs.DegreeSignsSquash, DashProofs.JoinSquash: these state only
  that nothing but spacing changes. Where the hair space or no-break space
  goes is stated per match by `Matchers.DegreeSignAt` and
  `Matchers.DashJoinAt`, not for the whole text.
- QuoteProofs.QuotesPointwise, QuoteProofs.CommonQuotesPointwise: the
  position-by-position statement needs one-character glyphs, which every
  shipped locale uses. The round trip (QuoteProofs.QuotesRestore) allows
  glyphs of any length, but needs both glyphs non-empty, an input without
  the first character of either glyph, and an opening glyph without the
  closing glyph's first character.
- The test sentences `1st 2nd 3rd 4th 100th`, `6234689821` and
  `1432.331123`, `DOXIE and ONU and DaN`, the dash sentences, and the
  nested quotes example are not proved as literal strings. They follow
  from the general lemmas above (OrdinalProofs.ApplyIsSuperscripted,
  SeparatorProofs.ApplyIsSeparated, AbbrProofs.ApplyIsWrapped,
  DashProofs.ApplyIsSpacedAfter, QuoteProofs.QuotesPointwise).
  `Dessi & Tsiri` is an instance of AmpProofs.WordsAroundAmp. Literal
  proofs are limited to `Yes... Hello.`, `<a title="..">`, `1234567`,
  `1000th`, `———` and `<a b=", - c">`.
- CommonRules.Locale: `decimalsSeparator` is a character class one
  character wide. The source puts the locale's string into the lookbehind
  `(?<!D\d*)` as a pattern fragment, so a longer fragment or an
  alternation is not modelled. `thousandsSeparator` is any string.
- Characters are Unicode scalar values. JavaScript patterns without the
  `u` flag count UTF-16 code units. The only count that can reach a
  character above U+FFFF is `{1,10}` in `orphans`, and `Matchers.OrphanAt`
  counts such a character as two units.
