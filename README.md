# polish_transliterate in Dafny

A model of `PolishTransliterate.transliterate` from `polish_transliterate/core.py`, with proofs about it. This is the normaliser that turns Polish text into words a speech synthesiser can read. Its work falls into three stages.

1. **Document passes.** Over the whole text, in a fixed order:
   - acronym masking, which always runs;
   - acronym phonemes;
   - lower-casing;
   - accent stripping;
   - money amounts;
   - dates;
   - durations ("timestamps");
   - times of day.
2. **Token loop.** The text is split at blanks. Each non-empty token goes through, in order:
   - the enabled word ops (weekday, month, ordinal, special patterns, math symbols, spoken symbols);
   - the caller's `replace` pairs;
   - the misc abbreviations;
   - the number-and-unit op, which may rewrite the previously cleaned word.
3. **Assembly.** The cleaned words are joined with blanks, the acronym mask is written as the caller's separator, and every run of white space becomes one blank.

## Modules

| file | module | what it holds |
|---|---|---|
| `outcomes.dfy` | `Outcomes` | `Result` / `Option` and the Python exceptions the code can raise (`KeyError`, `ValueError`, `IndexError`, `AttributeError`, a refused `num2words` conversion) |
| `strings.dfy` | `PyStrings` | the Python string operations the code uses: `find`, `rfind`, `replace` with and without a count, `split`, `join`, `strip`, `lower`, `isdecimal` |
| `tables.dfy` | `Tables` | the configuration tables of `core.py`, in their iteration order where it matters |
| `numbers.dfy` | `Numbers` | `DETECT_NUMBER` / `DETECT_ORDINAL` as prefix matchers; Python `int()`; `num2words` as a record of converters (`Numerals`); `_transliterate_number` |
| `spans.dfy` | `Spans` | match spans as `finditer` reports them, and the scan-and-splice loop with a running length change (`diff_len`, `offset`) |
| `inplace.dfy` | `InPlace` | the splice at unadjusted positions that `_timestamp_op` and `_timeofday_op` perform |
| `acronyms.dfy` | `Acronyms` | `_mask_acronym` and `_acronym_phoneme_op` |
| `accents.dfy` | `Accents` | `_accent_peculiarity_op` |
| `money.dfy` | `Money` | `_amount_money_op` |
| `dates.dfy` | `Dates` | `_date_op` |
| `clock.dfy` | `Clock` | `_timestamp_op` and `_timeofday_op` |
| `expansion.dfy` | `Expansion` | `_weekday_op` and `_month_op` (one loop over a lookup) |
| `tokens.dfy` | `Tokens` | `_ordinal_op`, `_special_op`, `_math_symbol_op`, `_misc_abbreviation_op` |
| `units.dfy` | `Units` | `_number_unit_op`; the `Cleaned` class holds `cleaned_words`, which the op rewrites in place |
| `pipeline.dfy` | `Pipeline` | `transliterate`: the passes, the token loop and the assembly |

Each loop of the source is a method with a `while` or `for` loop. Its `ensures` ties the result to a recursive specification function, and the properties are lemmas about that function.

The pipeline takes a `Pipeline.Reading`. With `AsWritten` it is `core.py` line for line, including the five defects listed under Findings: the month lookup of `_date_op`, the unshifted splices and unit stripping of `_timestamp_op` and `_timeofday_op`, and the dotless lookups of `_weekday_op` and `_month_op`. With `Corrected` those five operations run their corrected forms. `Pipeline.ReadingsAgree` shows that the two readings differ only when one of these operations is enabled.

The regular-expression scans are parameters (`Pipeline.Detectors`). Each detector is a function from the current text to the spans it matches. `Pipeline.Sound` states what a `finditer` scan guarantees: spans in bounds, in order and disjoint. It also ties the date finder used by `sub(count=1)` to the scan: it reports the first date the scan finds, or none when the scan finds none.

## Model

| member | source | states |
|---|---|---|
| Pipeline.Transliterate | polish_transliterate/core.py:316-373 | the method's result is `TransliterateSpec`: the passes, then the token loop over `text.split(' ')`, then the assembly; the first error any step raises is the result; with `AsWritten` every op is the code as written |
| Pipeline.DocumentPasses | polish_transliterate/core.py:319-339 | the passes run in the fixed order, each only when enabled, masking always; lower-casing follows `make_lowercase`; the first failing pass aborts with its error |
| Pipeline.ClockPasses | polish_transliterate/core.py:330-337 | the date, timestamp and time-of-day passes in that order, each only when enabled; with `AsWritten` they are `_date_op` with its month lookup as written, and `_timestamp_op` and `_timeofday_op` splicing at the unshifted positions; with `Corrected`, their corrected forms |
| Pipeline.OneDateSpliced | polish_transliterate/core.py:452-470 | on a text holding one date, `_date_op` puts that date's term (with the liaison 'n' when "m " or "n " precedes it) in the date's place, or fails with the term's error |
| Pipeline.ReadingsAgree | polish_transliterate/core.py:316-373 | with none of the date, timestamp, time-of-day, weekday and month ops enabled, the as-written and the corrected readings give the same result |
| Pipeline.OpsAgree | polish_transliterate/core.py:348-360 | with none of those ops among the enabled ones, the op chain is the same in both readings |
| Pipeline.OutputShape | polish_transliterate/core.py:316-373 | for both readings and all detectors, options and texts, a successful result has no two adjacent white-space characters, and has no mask character unless the separator brings one |
| Pipeline.AssembledShape | polish_transliterate/core.py:372-373 | joining, writing the mask as the separator and collapsing leaves no white-space run, and no mask unless the separator holds it |
| Pipeline.CollapseShape | polish_transliterate/core.py:373 | after `\s+` → `' '` every white-space character is a single blank; a run that follows white space starts with none |
| Pipeline.CollapseKeepsText | polish_transliterate/core.py:373 | collapsing keeps every non-white-space character, in order |
| Pipeline.CollapseKeepsCollapsed | polish_transliterate/core.py:373 | a text already made of single blanks is left unchanged |
| Pipeline.CollapseIdempotent | polish_transliterate/core.py:373 | collapsing twice equals collapsing once |
| Pipeline.CollapseAddsNothing | polish_transliterate/core.py:373 | collapsing introduces no non-white-space character that was absent |
| Pipeline.CleanWords | polish_transliterate/core.py:341-370 | the token loop on the class `Units.Cleaned` computes `CleanUpTo` over every token: empty tokens skipped, the first error ends the loop |
| Pipeline.CleanAt | polish_transliterate/core.py:344-370 | one pass of the token loop: on success the cleaned words are those of one more token; on an error the whole loop ends with that error |
| Pipeline.CleanOne | polish_transliterate/core.py:348-370 | a non-empty token: ops, replace pairs, misc, unit agreement; the cleaned word is appended and the previous word may be rewritten; on an error `cleaned_words` is unchanged |
| Pipeline.CleanErrorStays | polish_transliterate/core.py:341-370 | once a token fails, no later token changes the outcome |
| Pipeline.OneWordPerToken | polish_transliterate/core.py:343-370 | a successful loop keeps exactly one cleaned word per non-empty token, so `idx` counts the non-empty tokens before the current one |
| Pipeline.SpokenSymbolFails | polish_transliterate/core.py:615-631 | with `spoken_symbol` enabled, every text with a non-empty token fails, because the op reads the undefined table `SPOKEN_SYMBOL` (or an earlier op fails first) |
| Pipeline.SpokenOpFails | polish_transliterate/core.py:348-360 | the op chain fails whenever `spoken_symbol` is among the ops applied, whatever runs before it |
| Pipeline.FoldFails | polish_transliterate/core.py:344-367 | a step that fails on every non-empty token makes the loop fail once such a token is reached |
| Pipeline.ApplyTokenOps | polish_transliterate/core.py:348-360 | the inner loop applies the enabled ops in the caller's order, stopping at the first error; the weekday and month ops use the lookups of the chosen reading |
| Pipeline.ApplyTokenOp | polish_transliterate/core.py:349-360 | dispatch of one op name to its op; names without a word op leave the token unchanged; with `AsWritten`, "weekday" and "month" look up the match with its dots removed, as `_weekday_op` and `_month_op` do |
| Pipeline.OpErrorStays | polish_transliterate/core.py:348-360 | once an op fails, the later ops do not change the outcome |
| Pipeline.ReplaceEvery | polish_transliterate/core.py:362-363 | `word.replace(old, new)` for every pair of `replace`, in its order |
| Units.Cleaned.constructor | polish_transliterate/core.py:342 | the cleaned word list starts empty |
| Units.Cleaned.Append | polish_transliterate/core.py:369 | appending adds the word at the end and changes nothing else |
| Units.Cleaned.NumberUnit | polish_transliterate/core.py:644-703 | the op's word and the new `cleaned_words` are those `UnitOp` gives; on an error the list is unchanged |
| Units.Cleaned.AgreeWithOne | polish_transliterate/core.py:646-669 | the first half of the op in place: the table word, and `cleaned_words[idx-1]` rewritten as `BareUnit` says |
| Units.BareUnit | polish_transliterate/core.py:646-669 | it fails exactly when the key is a unit and `idx-1` lies past the cleaned words, with an IndexError; only word `idx-1` can change, and only to "jedna" |
| Units.UnitOp | polish_transliterate/core.py:644-703 | the whole op keeps the list's length, changes at most word `idx-1` (to "jedna"), and fails only with that IndexError |
| Units.SpellNumber | polish_transliterate/core.py:671-701 | the second half as a method: a leading number literal spelled, or "jedna" before a singular unit, then the unit word |
| Units.ReadUnit | polish_transliterate/core.py:676-692 | the unit after a number, with its final dot dropped, its table word, and whether a "one" shortened it |
| Units.NoSuffixUnitRead | polish_transliterate/core.py:651-654 | a unit without a plural suffix becomes its word; a preceding "jeden" (only that) becomes "jedna" |
| Units.SuffixUnitRead | polish_transliterate/core.py:655-669 | a suffixed unit after jeden/jedna/jedną loses 2 ("-ów", "-ęcy") or 1 ("-n") letters, and the previous word becomes "jedna"; otherwise it is the full word |
| Units.OneWithUnitRead | polish_transliterate/core.py:671-701 | "1", "1.0" or "1.00" (with signs removed) followed by a suffixed unit reads "jedna" and the shortened unit |
| Units.LetterFirstKept | polish_transliterate/core.py:671-672 | a word starting with a lower-case letter is not a number and is kept |
| Units.NoSuffixWord | polish_transliterate/core.py:78-87 | every unit word is longer than two letters and starts with a letter |
| Units.SuffixWord | polish_transliterate/core.py:89-98 | the suffixed unit words are longer than two letters and start with a letter, so shortening them is defined |
| Units.DigitFirstNoUnit | polish_transliterate/core.py:78-98 | no unit key starts with a digit |
| Units.PlainKey | polish_transliterate/core.py:646-649 | a word without a final dot or mask is its own lookup key |
| Units.OneHourRead | polish_transliterate/core.py:644-703 | the token "1h" becomes "jedna godzi" and leaves the cleaned words alone |
| Units.OneHourSpelled | polish_transliterate/core.py:671-701 | the number half of the op turns "1h" into "jedna godzi" |
| Tokens.OrdinalOp | polish_transliterate/core.py:560-573 | a token that is not an ordinal with a final dot is kept; a change needs a next token that is not a currency name; the result is the ordinal words, plus 'n' after a word ending in 'm'; the errors are a refused conversion or a read past the cleaned words |
| Tokens.OrdinalRead | polish_transliterate/core.py:562-568 | an ordinal before a non-currency token reads as its ordinal words, with 'n' exactly when the previous cleaned word ends in 'm' |
| Tokens.OrdinalBeforeCurrencyKept | polish_transliterate/core.py:563-564 | an ordinal followed by a currency name is kept |
| Tokens.OrdinalLookaheadAfterEmptyToken | polish_transliterate/core.py:341-370 | the lookahead indexes `split_text` by the cleaned-word count, so an empty token before "3." shifts it: the same token is converted at index 1 and kept at index 2 |
| Tokens.MiscAbbreviationOp | polish_transliterate/core.py:633-642 | the loop over MISC computes `MiscUpTo` over the whole table |
| Tokens.MiscFirstMatch | polish_transliterate/core.py:633-642 | a word matching no entry is kept; otherwise it becomes the expansion of the first entry it matches (with or without a final dot) |
| Tokens.MiscIdempotent | polish_transliterate/core.py:633-642 | applying the op twice equals applying it once |
| Tokens.ExpansionMatchesNothing | polish_transliterate/core.py:101-106 | no expansion matches any abbreviation entry, so once expanded a word stays expanded |
| Tokens.MathSymbolOp | polish_transliterate/core.py:593-613 | the loop over MATH_SYMBOL computes `MathUpTo` over the whole table |
| Tokens.MathRoundOp | polish_transliterate/core.py:597-609 | one table entry: the `continue` guards for 'x' and '-' are checked, and otherwise the first occurrence is replaced, which is `MathRound` |
| Tokens.MathRoundReads | polish_transliterate/core.py:596-609 | for a symbol present in the word, the word is kept exactly when the guard skips; otherwise its first occurrence is replaced |
| Tokens.MathKeepsPlain | polish_transliterate/core.py:595-596 | a word holding none of the symbols is kept |
| Tokens.NoTimesEntry | polish_transliterate/core.py:180-196 | the table has no 'x' entry, so the 'x' guard never applies |
| Tokens.MinusGuard | polish_transliterate/core.py:602-609 | "-5" gives "minus5" and "a-b" gives "aminusb", but "10-20" is kept because a side is longer than one character |
| Tokens.SpecialOp | polish_transliterate/core.py:575-591 | the loop over SPECIAL_TRANSLITERATE computes `SpecialUpTo`: for each pattern found, the first literal is replaced and the number tokens are spelled |
| Tokens.SpecialRoundOp | polish_transliterate/core.py:578-588 | one found pattern: its first literal is replaced, the word is split on spaces, number pieces are spelled and the pieces re-joined, which is `SpecialRound` |
| Tokens.SpellNumbers | polish_transliterate/core.py:581-586 | the inner loop gives one word per piece, the spelled number for a piece the number detector matches and the piece itself otherwise |
| Tokens.SpecialKeepsUnmatched | polish_transliterate/core.py:577-578 | a word no pattern matches is kept |
| Tokens.SpecialRoundPlain | polish_transliterate/core.py:578-587 | a round leaves a word without the literal and without numbers unchanged |
| Tokens.NumberWords | polish_transliterate/core.py:580-587 | each blank-separated piece that starts with a number literal is spelled; the others are kept |
| Tokens.RangeRead | polish_transliterate/core.py:575-591 | the range pattern turns "a-b" over two integers into "<a spelled> do <b spelled>" |
| Tokens.DashReplaced | polish_transliterate/core.py:579 | the first '-' becomes " do " |
| Tokens.RangeWords | polish_transliterate/core.py:580-587 | in "a do b" both integers are spelled and "do" is kept |
| Expansion.ExpandOp | polish_transliterate/core.py:524-540 | the loop with its running `offset` computes `Expanded`: every match replaced by its term, dots removed when the token grew |
| Expansion.ExpandAt | polish_transliterate/core.py:529-532 | one match: the replacement at the shifted bounds and the `offset` update lead from the scan state after k matches to the one after k + 1 |
| Expansion.ExpandRound | polish_transliterate/core.py:528-532 | the slice at the match shifted by `offset` is the match itself; splicing the term there gives the next prefix; the offset update is the total length change |
| Expansion.ExpandTerms | polish_transliterate/core.py:529-531 | each match's term is its table value when the lookup finds it, else the match itself |
| Expansion.NothingFoundKeepsWord | polish_transliterate/core.py:528-537 | when no match has a different term, the token is kept |
| Expansion.LongerFormsDropDots | polish_transliterate/core.py:534-535 | when every match grows, all dots are removed from the token |
| Expansion.LeadingMatch | polish_transliterate/core.py:524-540 | a token whose one match is its first n characters becomes the match's term followed by the rest of the token, with every dot removed when the term is longer than the match |
| Expansion.WeekdayOpExpands | polish_transliterate/core.py:524-540 | with the corrected lookup, a token of weekday abbreviations has each expanded and its dots removed |
| Expansion.WeekdayOpAsWrittenKeeps | polish_transliterate/core.py:524-540 | with the lookup as written, every token is kept |
| Expansion.WeekdayAsWrittenFindsNothing | polish_transliterate/core.py:529-530 | the dotless key is never in WEEKDAY |
| Expansion.WeekdayKeyDotted | polish_transliterate/core.py:114-122 | every WEEKDAY key holds a dot |
| Expansion.WeekdayLonger | polish_transliterate/core.py:114-122 | every weekday's full form is longer than its key |
| Expansion.MonthOpAsWrittenKeeps | polish_transliterate/core.py:542-557 | with the lookup as written, a token of month matches is kept |
| Expansion.MonthAsWrittenKeepsKey | polish_transliterate/core.py:547-548 | as written, every MONTH key looks up to itself |
| Expansion.NameKeptAsWritten | polish_transliterate/core.py:547-548 | a full month name looks up to itself |
| Expansion.AbbreviationKeptAsWritten | polish_transliterate/core.py:547-548 | a dotted abbreviation loses its dot, misses the table and is kept |
| Expansion.DottedKeyForm | polish_transliterate/core.py:137-147 | a dotted key is an abbreviation plus '.', and the abbreviation is no key |
| Expansion.WednesdayRead | polish_transliterate/core.py:524-540 | "śr.8", whose weekday match is "śr.", reads "środa8" with the corrected lookup and stays "śr.8" as written |
| Expansion.JanuaryRead | polish_transliterate/core.py:542-557 | "sty.2023", whose month match is "sty.", reads "styczeń2023" with the corrected lookup |
| Expansion.JanuaryKeptAsWritten | polish_transliterate/core.py:542-557 | "sty.2023" stays "sty.2023" as written |
| Dates.DateOp | polish_transliterate/core.py:452-474 | the pass computes `DatesUpTo`: each date read from the original text, its liaison from the current text, its term replacing the first date found in the current text |
| Dates.DatePass | polish_transliterate/core.py:454-470 | the loop over the dates computes `DatesUpTo` for any term and any first-match finder |
| Dates.DatesStep | polish_transliterate/core.py:454-470 | one date: a failing term ends the pass, else the first found date is replaced by the term |
| Dates.DatesErrorStays | polish_transliterate/core.py:452-474 | once a date fails, later dates do not change the outcome |
| Dates.DatesAgree | polish_transliterate/core.py:454-470 | when each date is the first found at its shifted position, the pass is the splice of all the terms |
| Dates.DateReplaced | polish_transliterate/core.py:470 | one such step moves the text from one splice state to the next |
| Dates.FoundDateSpliced | polish_transliterate/core.py:470 | replacing the first match at the shifted position gives the next splice state |
| Dates.SubFirstAt | polish_transliterate/core.py:470 | `sub(count=1)` with a known match replaces exactly that slice |
| Dates.Fragments | polish_transliterate/core.py:455-459 | the fragments of a date are never empty as a list |
| Dates.Ordinal | polish_transliterate/core.py:460 | the day converts exactly when `num2words` accepts it; a refusal is a conversion error naming the fragment |
| Dates.Year | polish_transliterate/core.py:468-469 | the same for the year |
| Dates.MonthAsWritten | polish_transliterate/core.py:463-466 | the month is a MONTH key, else a NUMBER_MONTH key, else a KeyError on the fragment |
| Dates.Month | polish_transliterate/core.py:463-466 | corrected: also finds an abbreviation whose dot the split removed; otherwise the same KeyError |
| Dates.MonthExtends | polish_transliterate/core.py:463-466 | wherever the lookup as written succeeds, the corrected one agrees |
| Dates.NumericDate | polish_transliterate/core.py:452-474 | "d.mm.y" reads the ordinal day, the month name and, when a year is given, the year words, both as written and corrected |
| Dates.WrittenMonthDate | polish_transliterate/core.py:452-474 | "d. name y" reads ordinal day, month and year, both as written and corrected |
| Dates.AbbreviatedMonthRefused | polish_transliterate/core.py:455-466 | as written, "d.sty.y" fails with KeyError("sty") |
| Dates.AbbreviatedMonthRead | polish_transliterate/core.py:455-466 | corrected, "d.sty.y" reads the day, "styczeń" and the year |
| Dates.DottedFragments | polish_transliterate/core.py:455 | "d.b.y" splits into its three fragments |
| Dates.SpacedFragments | polish_transliterate/core.py:455-459 | "d. name y" splits into day, name and year once the spaced tail is split again |
| Dates.SpacedTail | polish_transliterate/core.py:456-459 | the spaced last fragment, stripped and split, gives name and year |
| Dates.NumberMonthKey | polish_transliterate/core.py:150-172 | NUMBER_MONTH keys are digits and are no MONTH key, with or without a dot |
| Dates.AbbreviationOf | polish_transliterate/core.py:137-147 | every dotted key without its dot is one of the twelve abbreviations |
| Clock.TimestampOp | polish_transliterate/core.py:476-508 | corrected pass: every duration's term is spliced at the match shifted by the earlier length change; the first failing term aborts |
| Clock.TimestampOpAsWritten | polish_transliterate/core.py:476-508 | as written: each term is spliced at the match's original position in the current text |
| Clock.TimeOfDayOp | polish_transliterate/core.py:510-522 | corrected pass: each time of day is read from the original match and spliced at the shifted position |
| Clock.TimeOfDayOpAsWritten | polish_transliterate/core.py:510-522 | as written: the piece is read from the current text at the original position, and spliced there |
| Clock.Int | polish_transliterate/core.py:482 | `int()` succeeds exactly on a literal `Numbers.ParseInt` accepts (blanks, a sign, ASCII digits with single underscores), giving that value; otherwise a ValueError naming the string |
| Clock.DurationRead | polish_transliterate/core.py:478-489 | corrected: "h[unit]:m[unit]" reads hour words then minute words for every unit the detector accepts |
| Clock.LongDurationRead | polish_transliterate/core.py:490-502 | corrected: the three-field form reads hours, minutes and seconds for every accepted unit |
| Clock.FieldsRead | polish_transliterate/core.py:480-502 | the term from its split fields, for two and for three fields |
| Clock.PlainDurationRead | polish_transliterate/core.py:481-489 | "h:m" without units: "jedna godzina"/"<h> godzin" then "jedna minuta"/"<m> minut" |
| Clock.PlainDurationAsWritten | polish_transliterate/core.py:481-489 | as written the unitless two-field form reads the same |
| Clock.MinuteUnitRefused | polish_transliterate/core.py:486 | as written "h:mmin" fails: 'm' is removed first, leaving "in" |
| Clock.MinuteUnitCut | polish_transliterate/core.py:486 | removing 'm' before "min" leaves "<m>in" |
| Clock.HourUnitRefused | polish_transliterate/core.py:482 | as written "hgodz:..." fails: "godz" is never removed |
| Clock.HourUnitShown | polish_transliterate/core.py:482-485 | as written "hh:m" parses but shows the hour field with its 'h' |
| Clock.HoursStripped | polish_transliterate/core.py:482 | an hour field of digits and any accepted unit reads back as the digits (corrected stripping) |
| Clock.MinutesStripped | polish_transliterate/core.py:495 | the same for minutes, with "min" removed before 'm' |
| Clock.SecondsStripped | polish_transliterate/core.py:499 | the same for seconds |
| Clock.FieldFree | polish_transliterate/core.py:480 | a field with its unit holds no ':', so the split finds the fields |
| Clock.TimeOfDayRead | polish_transliterate/core.py:513-517 | "h:m" or "h.m", with an optional 'h', reads "<h> godzina <m>", or "jedna godzina <m>" for hour 1 |
| Clock.PlainTimeOfDay | polish_transliterate/core.py:513-517 | the same for "h:m" |
| Clock.SeparatorSpoken | polish_transliterate/core.py:513-515 | the separator becomes " godzina " and the unit is dropped |
| Clock.SeparatorReplaced | polish_transliterate/core.py:513-515 | ':' and '.' are both read as " godzina " |
| Clock.UnitDropped | polish_transliterate/core.py:513 | "uhr" and 'h' are removed from the piece |
| Clock.WordRefused | polish_transliterate/core.py:516 | a piece whose hour field is not an integer fails with a ValueError on it |
| Clock.TimestampSecondMisplaced | polish_transliterate/core.py:504 | on "1:05 i 2:10" the as-written splice differs from the corrected one |
| Clock.TwoClockDurations | polish_transliterate/core.py:478-502 | the two durations of "1:05 i 2:10" read as expected, one by one |
| Clock.TwoClockLetters | polish_transliterate/core.py:504 | the characters that show the misplaced second term |
| Clock.TwoClockPieces | polish_transliterate/core.py:478-479 | the two matches of "1:05 i 2:10" |
| Clock.TimeOfDaySecondMisread | polish_transliterate/core.py:513-518 | on "1:05 i 2:10" the as-written pass fails with ValueError("odzi"), though each time reads on its own |
| Clock.DottedTimeOfDayMisread | polish_transliterate/core.py:513-518 | on "1.05 i 2.10", which the timestamp pass leaves alone, the as-written pass fails with ValueError("odzi") too |
| Clock.TwoClockTimes | polish_transliterate/core.py:513-517 | the two times of "1:05 i 2:10" read on their own |
| Clock.OdziRefused | polish_transliterate/core.py:513-516 | the stale slice "odzi" is refused by `int()` |
| InPlace.SpliceEachUnshifted | polish_transliterate/core.py:478-504 | the loop that splices every term at its original position computes `SplicedUnshifted` |
| InPlace.ReadSpliceEachUnshifted | polish_transliterate/core.py:512-518 | the loop that also reads each piece from the current text computes `ReadSplicedUnshifted` |
| InPlace.UnshiftedAgrees | polish_transliterate/core.py:504 | when every term but the last keeps its match's length, the unshifted splice equals the shifted one |
| InPlace.ReadAgrees | polish_transliterate/core.py:513-518 | the same for the pass that reads from the current text |
| InPlace.SecondOverwritesFirst | polish_transliterate/core.py:504 | when the first term grows past the second match's start, the second term is written inside the first |
| InPlace.SecondReadFromFirst | polish_transliterate/core.py:513-518 | the second piece is then read from inside the first term, and its error becomes the pass's |
| InPlace.UnshiftedErrorStays | polish_transliterate/core.py:478-504 | once a term fails the pass keeps that error |
| InPlace.ReadErrorStays | polish_transliterate/core.py:512-518 | the same for the reading pass |
| Money.AmountMoney | polish_transliterate/core.py:417-450 | the pass splices every currency term at the match shifted by `diff_len`; the first failing term aborts |
| Spans.SpliceEach | polish_transliterate/core.py:419-446 | the loop keeps `diff_len` equal to the length change of the earlier terms, and computes the splice of all terms |
| Spans.SpliceNext | polish_transliterate/core.py:445-446 | one match: the cut at the bounds shifted by `diff_len` and the `diff_len` update lead from the scan state after k terms to the one after k + 1 |
| Spans.SpliceRound | polish_transliterate/core.py:445-446 | one round: the shifted cut lands on the match, and the `diff_len` update gives the new total length change |
| Spans.TermPlacement | polish_transliterate/core.py:445 | in the result, term k sits at its match's start shifted by the length change before it |
| Spans.GapPlacement | polish_transliterate/core.py:445 | the text between two matches is kept, shifted the same way |
| Spans.TailKept | polish_transliterate/core.py:445 | the text after the last match is kept |
| Spans.SplicedIdentity | polish_transliterate/core.py:445 | splicing every match with itself leaves the text unchanged |
| Spans.CollectOkIff | polish_transliterate/core.py:420-446 | the terms are all computed exactly when none fails |
| Spans.FirstError | polish_transliterate/core.py:420-446 | the pass fails with the first failing term's error |
| Money.CommaParts | polish_transliterate/core.py:429-439 | "a,z" becomes "a <name> z", and the fraction `z` is then dropped, kept or spelled, or refused by `int()` |
| Money.ZeroFractionDropped | polish_transliterate/core.py:435-436 | a zero fraction is dropped, leaving "a <name> " |
| Money.ShortFractionKept | polish_transliterate/core.py:429-439 | a non-zero fraction of at most two digits is kept |
| Money.LongFractionSpelled | polish_transliterate/core.py:437-438 | a longer fraction is read as two digits, then digit by digit |
| Money.EmptyFractionFails | polish_transliterate/core.py:433-435 | "a," fails with ValueError("") |
| Money.WholeAmount | polish_transliterate/core.py:440-444 | a number without a comma reads "<number> <name>" |
| Money.MagnitudeAmount | polish_transliterate/core.py:440-444 | with a magnitude word it reads "<number> <magnitude> <name>", commas and all |
| Money.SymbolOnly | polish_transliterate/core.py:440-444 | a bare symbol reads as its name |
| Money.CommaReplaced | polish_transliterate/core.py:432 | the comma becomes the spaced currency name |
| Money.LastNameAt | polish_transliterate/core.py:433 | `rfind` finds the name the comma became |
| Acronyms.MaskAcronym | polish_transliterate/core.py:375-389 | the pass replaces the first occurrence of each non-excluded acronym, in match order, by its letters joined with the mask |
| Acronyms.AcronymPhoneme | polish_transliterate/core.py:391-406 | the same with the letters' phoneme names; a letter without a name aborts with a KeyError |
| Acronyms.ReplaceFirstEach | polish_transliterate/core.py:384-385 | the loop of `replace(..., 1)` over the pairs, in order |
| Acronyms.MaskPairsFaithful | polish_transliterate/core.py:377-383 | a pair is collected exactly when it is a non-excluded match with its masked form |
| Acronyms.ExcludedUntouched | polish_transliterate/core.py:379 | when every match is excluded, no pair is collected and the text is kept |
| Acronyms.ExcludedSpanRewritten | polish_transliterate/core.py:375-389 | on "USA US" the pair for "US" replaces the first "US" of the text, inside the excluded "USA", giving "U", mask, "SA US" |
| Acronyms.SingleAcronymMasked | polish_transliterate/core.py:375-389 | one acronym: its first occurrence, at or before the match, is masked |
| Acronyms.MaskRoundTrip | polish_transliterate/core.py:381-383 | removing the mask from a masked acronym gives the acronym without dots |
| Acronyms.NoMaskInAcronym | polish_transliterate/core.py:250-251 | an acronym holds no mask character |
| Acronyms.AcronymChars | polish_transliterate/core.py:250-251 | an acronym is upper-case Polish letters and dots |
| Acronyms.LetterCoverage | polish_transliterate/core.py:40-75 | LETTER names every upper-case Polish letter except 'Ó' |
| Acronyms.SpellSpec | polish_transliterate/core.py:397-400 | spelling succeeds exactly when every letter is named, each by its name; otherwise a KeyError on the first unnamed letter |
| Acronyms.PhonemesFailOnlyOnO | polish_transliterate/core.py:391-406 | an acronym's phonemes fail exactly when it holds 'Ó', with KeyError("Ó") |
| Acronyms.PhonemeErrorPropagates | polish_transliterate/core.py:393-400 | an acronym that fails to spell makes the pass fail with its error |
| Acronyms.ErrorStays | polish_transliterate/core.py:393-400 | once a match fails, later matches do not change the outcome |
| Acronyms.UnnamedLetterFails | polish_transliterate/core.py:393-400 | the acronym "ÓW" makes the pass fail with KeyError("Ó") |
| Accents.StripAccents | polish_transliterate/core.py:408-415 | the loop over UNICODE_TO_ASCII computes `Transliterated` |
| Accents.AccentsUpToIsTransliterated | polish_transliterate/core.py:410-411 | substituting class by class over the text equals mapping each character through the classes in turn |
| Accents.NoClassCharLeft | polish_transliterate/core.py:408-415 | no character of any class survives the pass |
| Accents.OthersUnchanged | polish_transliterate/core.py:408-415 | a text without class characters is kept |
| Accents.Idempotent | polish_transliterate/core.py:408-415 | the pass applied twice equals once |
| Accents.FirstClassSpelling | polish_transliterate/core.py:410-411 | a character becomes the spelling of the first class that holds it |
| Accents.SpellingIsAsciiOrSelf | polish_transliterate/core.py:410-411 | a class character becomes ASCII; any other stays itself |
| Numbers.NumberMatch | polish_transliterate/core.py:262 | the `DETECT_NUMBER.match` length: a number literal not followed by a number character, or 0 exactly when no prefix is one |
| Numbers.IntegerLiteralIsCardinal | polish_transliterate/core.py:705-721 | a plain integer reads as its lower-cased cardinal |
| Numbers.GroupedLiteralIsCardinal | polish_transliterate/core.py:714-716 | with dots but no comma, the dots are removed and the integer reads as its cardinal |
| Numbers.CommaListIsKept | polish_transliterate/core.py:710-720 | with two commas and no dot, `int()` refuses and the number is kept |
| Numbers.ParseIntRejectsComma | polish_transliterate/core.py:718-720 | `int()` refuses a string with a comma |
| Numbers.ParseDecimal | polish_transliterate/core.py:718 | `int()` of decimal digits is their value |

## Left out

- The regular expressions are not compiled or matched. Each detector is a function parameter constrained by `Pipeline.Sound`. The patterns' exact languages are outside the model: `DETECT_ABBREVIATION`, `DETECT_CURRENCY` and its groups, `DETECT_DATE`, `DETECT_TIMESTAMP`, `DETECT_TIME_OF_DAY`, `DETECT_WEEKDAY`, `DETECT_MONTH` and the `SPECIAL_TRANSLITERATE` patterns (`found(k, word)` says whether pattern k matches).
- `DETECT_NUMBER` and `DETECT_ORDINAL` are written out as prefix matchers, because the token ops depend on their exact shape.
- `Money.CurrencyMatch`: the groups of a currency match are taken as given, after the acronym pass over the match. The case where `DETECT_CURRENCY_SYMBOL` finds nothing (`m_symbol` is `None`, an AttributeError) is not represented. Whether masking earlier in `transliterate` stops symbols from matching at all depends on the regex engine, which is outside the model.
- `num2words` is a record of converter functions (`Numbers.Numerals`). The ordinal and year converters may refuse (a conversion error); the cardinal one is total. Its Polish wording is not modelled.
- The `float` branch of `_transliterate_number` (one comma) is an abstract `decimal` converter. Floating point is not modelled.
- `str.lower` covers ASCII and the nine Polish upper-case letters. `\s` and `str.isspace` are an explicit set of characters. There is no other Unicode case folding.
- `_spoken_symbol_op` reads `SPOKEN_SYMBOL`, which the configuration classes do not define, so enabling it raises an AttributeError on the first non-empty token. Its body, including its writes into `split_text`, therefore never runs and is not modelled; `split_text` is never mutated.
- `transliterate_ops` is a sequence. When a caller passes a set, the model takes the set's iteration order as given.
- The `replace` dictionary is a sequence of pairs in its iteration order.
- Exceptions are values (`Outcomes.Error`): a raised exception ends `transliterate` with that error. The `try`/`raise e` wrappers add nothing.
- The constructor's configuration objects, the `RegExConfig` error printing to stderr, and the command-line entry point (`__main__`) are not modelled.
- `Pipeline.Reading` chooses between the code as written and the corrected forms listed under Findings. `AsWritten` is the program. `Corrected` is what the five defective operations evidently intend.
- Acronyms.ExcludedUntouched: only states the case where every detected acronym is excluded. The source does not keep excluded spans untouched in general. `replace(..., 1)` rewrites the first occurrence of a non-excluded acronym anywhere in the text, and that occurrence can lie inside an excluded one (`Acronyms.ExcludedSpanRewritten`, "USA US").
- Clock.Int: accepts ASCII digits only. Python's `int()` also accepts every other Unicode decimal digit, such as "١٢" or "１２"; those literals are refused here.
- Numbers.NumberMatch: `\d` in `DETECT_NUMBER` and `DETECT_ORDINAL` is read as the ASCII digits. Python's `\d` matches every Unicode decimal digit. `str.isdecimal` (`PyStrings.IsDecimal`) has the same limit.

## Findings

| source | as written | input that shows it | evidently intended | confidence | as-written member | corrected member |
|---|---|---|---|---|---|---|
| polish_transliterate/core.py:504 | each duration's term is spliced at the match's original position, although earlier terms changed the text's length | "1:05 i 2:10": the first term is longer than "1:05", so the second term lands inside it | splice at the position shifted by the earlier length change, as `_amount_money_op` does | not executed | Clock.TimestampSecondMisplaced | Clock.TimestampOp |
| polish_transliterate/core.py:513-518 | each time of day is read from the current text at the match's original position | "1:05 i 2:10": the second read gets "odzi" from the first term, and `int()` raises ValueError; through the default pipeline "1:05" is first rewritten by the timestamp pass, but "1.05 i 2.10", which DETECT_TIMESTAMP does not match, fails the same way | read the match itself and splice at the shifted position | not executed | Clock.TimeOfDaySecondMisread | Clock.TimeOfDayOp |
| polish_transliterate/core.py:482-489 | the two-field duration removes 'm' before "min" and 'h'/"std" but never "godz", and shows the fields unstripped | "5:10min" raises ValueError on "10in"; "5godz:10" raises ValueError; "5h:10" reads "5h godzin" | remove every unit the detector accepts before `int()`, and show the stripped number | not executed | Clock.MinuteUnitRefused | Clock.DurationRead |
| polish_transliterate/core.py:529-530 | the weekday and month lookups use the match with its dots removed, but every WEEKDAY key ends in '.', and MONTH's dotless keys map to themselves | "śr.8" stays "śr.8"; "sty.2023" stays "sty.2023" (the match is "śr." / "sty.", the `\b` after the dot holding before the digit; a token ending in the dot is not matched at all, because the closing `\b` fails at its end) | look up the match itself, so that "śr.8" becomes "środa8" and "sty.2023" becomes "styczeń2023" | not executed | Expansion.WeekdayOpAsWrittenKeeps | Expansion.WeekdayOpExpands |
| polish_transliterate/core.py:463-466 | the month fragment of a date is looked up as split at '.', so an abbreviated month has lost its dot | "12.sty.2023" raises KeyError("sty") | look up the abbreviation with its dot | not executed | Dates.AbbreviatedMonthRefused | Dates.AbbreviatedMonthRead |

The second row also has `Clock.DottedTimeOfDayMisread` for a text the timestamp pass does not touch. The third row also has `Clock.HourUnitRefused` and `Clock.HourUnitShown` for the hour field. The fourth row also has `Expansion.MonthOpAsWrittenKeeps` and `Expansion.JanuaryKeptAsWritten` for the month op; their corrected counterparts are `Expansion.JanuaryRead` and `Expansion.WednesdayRead`.
