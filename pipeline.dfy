/** `PolishTransliterate.transliterate`: the document passes in their fixed
    order, the loop over the space-separated tokens, and the final assembly.
    The regular-expression detectors are parameters (`Detectors`); each one,
    given the current text, reports its matches. */
module Pipeline {
  import opened PyStrings
  import opened Outcomes
  import opened Tables
  import opened Spans
  import Numbers
  import Acronyms
  import Accents
  import Money
  import Dates
  import Clock
  import Expansion
  import Tokens
  import Units
  import InPlace

  /** The operations a caller may enable, by their names in `transliterate_ops`. */
  datatype Op =
    | AcronymPhoneme | AccentPeculiarity | AmountMoney | Date | Timestamp | TimeOfDay
    | Weekday | Month | Ordinal | Special | MathSymbol | SpokenSymbol

  /** The constructor's arguments: the enabled operations in order, the
      `replace` dictionary in its iteration order, `sep_abbreviation` and
      `make_lowercase`. */
  datatype Options = Options(ops: seq<Op>, replace: seq<(string, string)>, sep: string, lowercase: bool)

  /** Which form of the five operations that `core.py` gets wrong the
      pipeline runs: `AsWritten` is the code line for line (the month lookup
      of `_date_op`, the unshifted splices and field stripping of
      `_timestamp_op` and `_timeofday_op`, the dotless lookups of
      `_weekday_op` and `_month_op`); `Corrected` runs their corrected forms. */
  datatype Reading = AsWritten | Corrected

  /** The regular-expression detectors, as what they report on a text. */
  datatype Detectors = Detectors(
    acronyms: string -> seq<Span>,                       // DETECT_ABBREVIATION
    currencySpans: string -> seq<Span>,                  // DETECT_CURRENCY
    currencyMatches: string -> seq<Money.CurrencyMatch>, //   and its groups
    dates: string -> seq<Span>,                          // DETECT_DATE
    firstDate: string -> Option<Span>,                   //   its first match, as `sub(count=1)` finds it
    timestamps: string -> seq<Span>,                     // DETECT_TIMESTAMP
    timesOfDay: string -> seq<Span>,                     // DETECT_TIMEOFDAY
    weekdays: string -> seq<Span>,                       // DETECT_WEEKDAY
    months: string -> seq<Span>,                         // DETECT_MONTH
    special: (nat, string) -> bool)                      // SPECIAL_TRANSLITERATE: pattern k found in a word

  /** What a regular-expression scan guarantees on the text `t`: every
      reported span in bounds, in order and disjoint, one group per currency
      match; `sub(count=1)` with the date pattern replaces the first match
      `finditer` reports with it. */
  ghost predicate Reports(det: Detectors, t: string) {
    && WellFormed(det.acronyms(t), |t|)
    && WellFormed(det.currencySpans(t), |t|) && |det.currencyMatches(t)| == |det.currencySpans(t)|
    && WellFormed(det.dates(t), |t|)
    && det.firstDate(t) == (if det.dates(t) == [] then None else Some(det.dates(t)[0]))
    && WellFormed(det.timestamps(t), |t|)
    && WellFormed(det.timesOfDay(t), |t|)
    && WellFormed(det.weekdays(t), |t|)
    && WellFormed(det.months(t), |t|)
  }

  /** The detectors report well-formed matches on every text. */
  ghost predicate Sound(det: Detectors) {
    forall t: string :: Reports(det, t)
  }

  // The detectors read through the guarantee.

  function AcronymsIn(det: Detectors, t: string): (s: seq<Span>)
    requires Sound(det)
    ensures WellFormed(s, |t|)
  {
    assert Reports(det, t); det.acronyms(t)
  }

  function CurrencyIn(det: Detectors, t: string): (s: seq<Span>)
    requires Sound(det)
    ensures WellFormed(s, |t|) && |det.currencyMatches(t)| == |s|
  {
    assert Reports(det, t); det.currencySpans(t)
  }

  function DatesAt(det: Detectors, t: string): (s: seq<Span>)
    requires Sound(det)
    ensures WellFormed(s, |t|)
  {
    assert Reports(det, t); det.dates(t)
  }

  function TimestampsIn(det: Detectors, t: string): (s: seq<Span>)
    requires Sound(det)
    ensures WellFormed(s, |t|)
  {
    assert Reports(det, t); det.timestamps(t)
  }

  function TimesOfDayIn(det: Detectors, t: string): (s: seq<Span>)
    requires Sound(det)
    ensures WellFormed(s, |t|)
  {
    assert Reports(det, t); det.timesOfDay(t)
  }

  function WeekdaysIn(det: Detectors, t: string): (s: seq<Span>)
    requires Sound(det)
    ensures WellFormed(s, |t|)
  {
    assert Reports(det, t); det.weekdays(t)
  }

  function MonthsIn(det: Detectors, t: string): (s: seq<Span>)
    requires Sound(det)
    ensures WellFormed(s, |t|)
  {
    assert Reports(det, t); det.months(t)
  }

  // ---------------------------------------------------------------------
  // Document passes

  function Masked(det: Detectors, text: string): string
    requires Sound(det)
  {
    var pairs := Acronyms.MaskPairs(text, AcronymsIn(det, text), |AcronymsIn(det, text)|);
    Acronyms.ReplaceEach(text, pairs, |pairs|)
  }

  function Phonemes(det: Detectors, text: string): Result<string>
    requires Sound(det)
  {
    var pairs :- Acronyms.PhonemePairs(text, AcronymsIn(det, text), |AcronymsIn(det, text)|);
    Ok(Acronyms.ReplaceEach(text, pairs, |pairs|))
  }

  function Amounts(det: Detectors, text: string): Result<string>
    requires Sound(det)
  {
    var ms := det.currencyMatches(text);
    var terms :- Collect(Money.CurrencyTerm, ms, |ms|);
    Ok(Spliced(text, CurrencyIn(det, text), terms))
  }

  /** The month lookup of `_date_op` in each reading. */
  function DateMonth(rd: Reading): string -> Result<string> {
    if rd == AsWritten then Dates.MonthAsWritten else Dates.Month
  }

  /** The weekday and month lookups of the token ops in each reading. */
  function WeekdayLookup(rd: Reading): string -> Option<string> {
    if rd == AsWritten then Expansion.WeekdayAsWritten else Expansion.Weekday
  }

  function MonthLookup(rd: Reading): string -> Option<string> {
    if rd == AsWritten then Expansion.MonthNameAsWritten else Expansion.MonthName
  }

  function DatesIn(rd: Reading, num: Numbers.Numerals, det: Detectors, text: string): Result<string>
    requires Sound(det)
  {
    Dates.DatesUpTo(text, DatesAt(det, text), (piece, liaison) => Dates.DateTerm(num, piece, liaison, DateMonth(rd)),
                    det.firstDate, |DatesAt(det, text)|)
  }

  /** A text holding one date: `sub(count=1)` finds the very date the scan
      reported, so the pass puts the date's term in its place. */
  lemma OneDateSpliced(rd: Reading, num: Numbers.Numerals, det: Detectors, text: string)
    requires Sound(det) && |det.dates(text)| == 1
    ensures var spans := DatesAt(det, text);
            var t := Dates.DateTerm(num, Piece(text, spans, 0), Dates.Liaison(text, spans[0].start), DateMonth(rd));
            DatesIn(rd, num, det, text) == if t.Ok? then Ok(Spliced(text, spans, [t.value])) else Err(t.error)
  {
    var spans := DatesAt(det, text);
    assert Reports(det, text);
    var term := (piece, liaison) => Dates.DateTerm(num, piece, liaison, DateMonth(rd));
    var t := term(Piece(text, spans, 0), Dates.Liaison(text, spans[0].start));
    if t.Ok? {
      assert ScanState(text, spans, [t.value], 0) == text;
      assert Dates.DateFoundAt(text, spans, term, det.firstDate, [t.value], 0);
      Dates.DatesAgree(text, spans, term, det.firstDate, [t.value], 1);
      assert Dates.DatesUpTo(text, spans, term, det.firstDate, 1) == Ok(Spliced(text, spans, [t.value]));
      assert DatesIn(rd, num, det, text) == Dates.DatesUpTo(text, spans, term, det.firstDate, 1);
    } else {
      assert Dates.DatesUpTo(text, spans, term, det.firstDate, 0) == Ok(text);
      assert Dates.DatesUpTo(text, spans, term, det.firstDate, 1) == Err(t.error);
      assert DatesIn(rd, num, det, text) == Dates.DatesUpTo(text, spans, term, det.firstDate, 1);
    }
  }

  /** `_timestamp_op`: as written, each term at its match's original bounds
      in the current text; corrected, at the shifted bounds. */
  function Durations(rd: Reading, det: Detectors, text: string): Result<string>
    requires Sound(det)
  {
    var spans := TimestampsIn(det, text);
    if rd == AsWritten then
      InPlace.SplicedUnshifted(text, spans, Pieces(text, spans), Clock.TimestampTermAsWritten, |spans|)
    else
      var terms :- Collect(Clock.TimestampTerm, Pieces(text, spans), |spans|);
      Ok(Spliced(text, spans, terms))
  }

  /** `_timeofday_op`: as written, each piece read from and put back at its
      match's original bounds in the current text; corrected, read from the
      match and put at the shifted bounds. */
  function TimesOfDay(rd: Reading, det: Detectors, text: string): Result<string>
    requires Sound(det)
  {
    var spans := TimesOfDayIn(det, text);
    if rd == AsWritten then
      InPlace.ReadSplicedUnshifted(text, spans, Clock.TimeOfDayTerm, |spans|)
    else
      var terms :- Collect(Clock.TimeOfDayTerm, Pieces(text, spans), |spans|);
      Ok(Spliced(text, spans, terms))
  }

  /** The text after the document passes, each enabled one in the fixed order;
      acronym masking always runs. The first pass that fails aborts. */
  function Passes(rd: Reading, num: Numbers.Numerals, det: Detectors, opts: Options, text: string): Result<string>
    requires Sound(det)
  {
    var t0 := Masked(det, text);
    var t1 :- if AcronymPhoneme in opts.ops then Phonemes(det, t0) else Ok(t0);
    var t2 := if opts.lowercase then Lower(t1) else t1;
    var t3 := if AccentPeculiarity in opts.ops then Accents.Transliterated(t2) else t2;
    var t4 :- if AmountMoney in opts.ops then Amounts(det, t3) else Ok(t3);
    var t5 :- if Date in opts.ops then DatesIn(rd, num, det, t4) else Ok(t4);
    var t6 :- if Timestamp in opts.ops then Durations(rd, det, t5) else Ok(t5);
    if TimeOfDay in opts.ops then TimesOfDay(rd, det, t6) else Ok(t6)
  }

  /** The document passes of `transliterate`. */
  method DocumentPasses(rd: Reading, num: Numbers.Numerals, det: Detectors, opts: Options, text: string)
    returns (r: Result<string>)
    requires Sound(det)
    ensures r == Passes(rd, num, det, opts, text)
  {
    var t := Acronyms.MaskAcronym(text, AcronymsIn(det, text));
    if AcronymPhoneme in opts.ops {
      var p := Acronyms.AcronymPhoneme(t, AcronymsIn(det, t));
      if p.Err? {
        return Err(p.error);
      }
      t := p.value;
    }
    if opts.lowercase {
      t := Lower(t);
    }
    if AccentPeculiarity in opts.ops {
      t := Accents.StripAccents(t);
    }
    if AmountMoney in opts.ops {
      var p := Money.AmountMoney(t, CurrencyIn(det, t), det.currencyMatches(t));
      if p.Err? {
        return Err(p.error);
      }
      t := p.value;
    }
    r := ClockPasses(rd, num, det, opts, t);
  }

  /** The date, timestamp and time-of-day passes. */
  method ClockPasses(rd: Reading, num: Numbers.Numerals, det: Detectors, opts: Options, text: string)
    returns (r: Result<string>)
    requires Sound(det)
    ensures r == (var t5 :- if Date in opts.ops then DatesIn(rd, num, det, text) else Ok(text);
                  var t6 :- if Timestamp in opts.ops then Durations(rd, det, t5) else Ok(t5);
                  if TimeOfDay in opts.ops then TimesOfDay(rd, det, t6) else Ok(t6))
  {
    var t := text;
    if Date in opts.ops {
      var p := Dates.DateOp(t, DatesAt(det, t), num, det.firstDate, DateMonth(rd));
      if p.Err? {
        return Err(p.error);
      }
      t := p.value;
    }
    if Timestamp in opts.ops {
      var p;
      if rd == AsWritten {
        p := Clock.TimestampOpAsWritten(t, TimestampsIn(det, t));
      } else {
        p := Clock.TimestampOp(t, TimestampsIn(det, t));
      }
      if p.Err? {
        return Err(p.error);
      }
      t := p.value;
    }
    if TimeOfDay in opts.ops {
      if rd == AsWritten {
        r := Clock.TimeOfDayOpAsWritten(t, TimesOfDayIn(det, t));
      } else {
        r := Clock.TimeOfDayOp(t, TimesOfDayIn(det, t));
      }
    } else {
      r := Ok(t);
    }
  }

  // ---------------------------------------------------------------------
  // The token loop

  /** One enabled op on a token. `_spoken_symbol_op` reads a table the
      configuration does not define, so enabling it fails on the first token. */
  function TokenOp(rd: Reading, num: Numbers.Numerals, det: Detectors, op: Op, w: string, idx: nat,
                   splitText: seq<string>, cleaned: seq<string>): Result<string>
    requires Sound(det)
  {
    match op
    case Weekday => Ok(Expansion.Expanded(w, WeekdaysIn(det, w), WeekdayLookup(rd)))
    case Month => Ok(Expansion.Expanded(w, MonthsIn(det, w), MonthLookup(rd)))
    case Ordinal => Tokens.OrdinalOp(num, w, idx, splitText, cleaned)
    case Special => Ok(Tokens.SpecialUpTo(num, w, det.special, |SPECIAL|))
    case MathSymbol => Ok(Tokens.MathUpTo(w, |MATH_SYMBOL|))
    case SpokenSymbol => Err(AttributeError("SPOKEN_SYMBOL"))
    case _ => Ok(w)
  }

  /** The token after the first `k` enabled ops, in the order the caller gave them. */
  function TokenOpsUpTo(rd: Reading, num: Numbers.Numerals, det: Detectors, ops: seq<Op>, word: string, idx: nat,
                        splitText: seq<string>, cleaned: seq<string>, k: nat): Result<string>
    requires Sound(det) && k <= |ops|
  {
    if k == 0 then Ok(word)
    else
      var w :- TokenOpsUpTo(rd, num, det, ops, word, idx, splitText, cleaned, k - 1);
      TokenOp(rd, num, det, ops[k - 1], w, idx, splitText, cleaned)
  }

  /** The inner loop over `transliterate_ops`. */
  method ApplyTokenOps(rd: Reading, num: Numbers.Numerals, det: Detectors, ops: seq<Op>, word: string, idx: nat,
                       splitText: seq<string>, cleaned: seq<string>) returns (r: Result<string>)
    requires Sound(det)
    ensures r == TokenOpsUpTo(rd, num, det, ops, word, idx, splitText, cleaned, |ops|)
  {
    var w := word;
    for k := 0 to |ops|
      invariant TokenOpsUpTo(rd, num, det, ops, word, idx, splitText, cleaned, k) == Ok(w)
    {
      var next := ApplyTokenOp(rd, num, det, ops[k], w, idx, splitText, cleaned);
      if next.Err? {
        OpErrorStays(rd, num, det, ops, word, idx, splitText, cleaned, k + 1, |ops|);
        return next;
      }
      w := next.value;
    }
    r := Ok(w);
  }

  /** One op of the inner loop. */
  method ApplyTokenOp(rd: Reading, num: Numbers.Numerals, det: Detectors, op: Op, w: string, idx: nat,
                      splitText: seq<string>, cleaned: seq<string>) returns (r: Result<string>)
    requires Sound(det)
    ensures r == TokenOp(rd, num, det, op, w, idx, splitText, cleaned)
  {
    match op {
      case Weekday =>
        var e := Expansion.ExpandOp(w, WeekdaysIn(det, w), WeekdayLookup(rd));
        r := Ok(e);
      case Month =>
        var e := Expansion.ExpandOp(w, MonthsIn(det, w), MonthLookup(rd));
        r := Ok(e);
      case Ordinal =>
        r := Tokens.OrdinalOp(num, w, idx, splitText, cleaned);
      case Special =>
        var e := Tokens.SpecialOp(num, w, det.special);
        r := Ok(e);
      case MathSymbol =>
        var e := Tokens.MathSymbolOp(w);
        r := Ok(e);
      case SpokenSymbol =>
        r := Err(AttributeError("SPOKEN_SYMBOL"));
      case _ =>
        r := Ok(w);
    }
  }

  lemma {:induction false} OpErrorStays(rd: Reading, num: Numbers.Numerals, det: Detectors, ops: seq<Op>, word: string, idx: nat,
                                        splitText: seq<string>, cleaned: seq<string>, k: nat, m: nat)
    requires Sound(det) && k <= m <= |ops|
    requires TokenOpsUpTo(rd, num, det, ops, word, idx, splitText, cleaned, k).Err?
    ensures TokenOpsUpTo(rd, num, det, ops, word, idx, splitText, cleaned, m)
            == TokenOpsUpTo(rd, num, det, ops, word, idx, splitText, cleaned, k)
    decreases m - k
  {
    if k < m {
      OpErrorStays(rd, num, det, ops, word, idx, splitText, cleaned, k, m - 1);
    }
  }

  /** `word.replace(old, new)` for the first `k` pairs of the `replace` dictionary. */
  function ReplacedUpTo(word: string, pairs: seq<(string, string)>, k: nat): string
    requires k <= |pairs|
  {
    if k == 0 then word else ReplaceAll(ReplacedUpTo(word, pairs, k - 1), pairs[k - 1].0, pairs[k - 1].1)
  }

  method ReplaceEvery(word: string, pairs: seq<(string, string)>) returns (r: string)
    ensures r == ReplacedUpTo(word, pairs, |pairs|)
  {
    r := word;
    for k := 0 to |pairs|
      invariant r == ReplacedUpTo(word, pairs, k)
    {
      var (pat, repl) := pairs[k];
      r := ReplaceAll(r, pat, repl);
    }
  }

  /** The cleaned words after the first `j` tokens of `splitText`: an empty
      token is skipped; any other is cleaned by `step`, given the words cleaned
      so far (its index is their number), which may rewrite the previous
      cleaned word, and is appended. */
  function CleanFold(step: (string, seq<string>) -> Result<Units.Agreement>, splitText: seq<string>, j: nat): Result<seq<string>>
    requires j <= |splitText|
  {
    if j == 0 then Ok([])
    else
      var cleaned :- CleanFold(step, splitText, j - 1);
      var word := splitText[j - 1];
      if word == [] then Ok(cleaned)
      else
        var a :- step(word, cleaned);
        Ok(a.cleaned + [a.word])
  }

  /** What one non-empty token becomes: the enabled ops, the `replace`
      pairs, the misc abbreviations and the unit agreement, which also gives
      the cleaned words it leaves behind. */
  function CleanToken(rd: Reading, num: Numbers.Numerals, det: Detectors, opts: Options, splitText: seq<string>,
                      word: string, cleaned: seq<string>): Result<Units.Agreement>
    requires Sound(det)
  {
    var idx := |cleaned|;
    var w :- TokenOpsUpTo(rd, num, det, opts.ops, word, idx, splitText, cleaned, |opts.ops|);
    var misc := Tokens.MiscUpTo(ReplacedUpTo(w, opts.replace, |opts.replace|), |MISC|);
    Units.UnitOp(num, misc, idx, cleaned)
  }

  /** The token loop of `transliterate` on the text split at blanks. */
  function CleanUpTo(rd: Reading, num: Numbers.Numerals, det: Detectors, opts: Options, splitText: seq<string>, j: nat): Result<seq<string>>
    requires Sound(det) && j <= |splitText|
  {
    CleanFold((w, c) requires Sound(det) => CleanToken(rd, num, det, opts, splitText, w, c), splitText, j)
  }

  /** The number of non-empty tokens. */
  function NonEmpty(ts: seq<string>): nat {
    if ts == [] then 0 else NonEmpty(ts[..|ts| - 1]) + (if ts[|ts| - 1] == [] then 0 else 1)
  }

  /** The token loop of `transliterate`. */
  method CleanWords(rd: Reading, num: Numbers.Numerals, det: Detectors, opts: Options, splitText: seq<string>)
    returns (r: Result<seq<string>>)
    requires Sound(det)
    ensures r == CleanUpTo(rd, num, det, opts, splitText, |splitText|)
  {
    var cleaned := new Units.Cleaned();
    for j := 0 to |splitText|
      invariant CleanUpTo(rd, num, det, opts, splitText, j) == Ok(cleaned.words)
    {
      var e := CleanAt(rd, num, det, opts, splitText, j, cleaned);
      if e.Err? {
        return Err(e.error);
      }
    }
    r := Ok(cleaned.words);
  }

  /** The token loop's pass over token `j`: on success the words cleaned so
      far are those of the first `j + 1` tokens; on an error the whole loop
      ends with that error. */
  method CleanAt(rd: Reading, num: Numbers.Numerals, det: Detectors, opts: Options, splitText: seq<string>, j: nat,
                 cleaned: Units.Cleaned) returns (e: Result<()>)
    requires Sound(det) && j < |splitText|
    requires CleanUpTo(rd, num, det, opts, splitText, j) == Ok(cleaned.words)
    modifies cleaned
    ensures e.Ok? ==> CleanUpTo(rd, num, det, opts, splitText, j + 1) == Ok(cleaned.words)
    ensures e.Err? ==> CleanUpTo(rd, num, det, opts, splitText, |splitText|) == Err(e.error)
  {
    CleanNext(rd, num, det, opts, splitText, j);
    if splitText[j] == [] {
      return Ok(());
    }
    e := CleanOne(rd, num, det, opts, splitText, splitText[j], cleaned);
    if e.Err? {
      CleanErrorStays(rd, num, det, opts, splitText, j + 1, |splitText|);
    }
  }

  /** The token loop's next step, once the tokens before `j` are cleaned. */
  lemma CleanNext(rd: Reading, num: Numbers.Numerals, det: Detectors, opts: Options, splitText: seq<string>, j: nat)
    requires Sound(det) && j < |splitText| && CleanUpTo(rd, num, det, opts, splitText, j).Ok?
    ensures var cleaned := CleanUpTo(rd, num, det, opts, splitText, j).value;
            CleanUpTo(rd, num, det, opts, splitText, j + 1)
            == if splitText[j] == [] then Ok(cleaned)
               else match CleanToken(rd, num, det, opts, splitText, splitText[j], cleaned)
                 case Ok(a) => Ok(a.cleaned + [a.word])
                 case Err(e) => Err(e)
  {
  }

  /** One pass of the token loop on a non-empty token: the cleaned word is
      appended to `cleaned`, whose last word the unit agreement may rewrite;
      on an error `cleaned` is left as it was. */
  method CleanOne(rd: Reading, num: Numbers.Numerals, det: Detectors, opts: Options, splitText: seq<string>,
                  word: string, cleaned: Units.Cleaned) returns (e: Result<()>)
    requires Sound(det)
    modifies cleaned
    ensures var a := CleanToken(rd, num, det, opts, splitText, word, old(cleaned.words));
            (a.Ok? ==> e.Ok? && cleaned.words == a.value.cleaned + [a.value.word])
            && (a.Err? ==> e == Err(a.error) && cleaned.words == old(cleaned.words))
  {
    var idx := |cleaned.words|;
    var w := ApplyTokenOps(rd, num, det, opts.ops, word, idx, splitText, cleaned.words);
    if w.Err? {
      return Err(w.error);
    }
    var replaced := ReplaceEvery(w.value, opts.replace);
    var misc := Tokens.MiscAbbreviationOp(replaced);
    var unit := cleaned.NumberUnit(num, misc, idx);
    // the index is the number of cleaned words, so there is a previous word
    assert unit.Ok?;
    cleaned.Append(unit.value);
    e := Ok(());
  }

  lemma {:induction false} CleanErrorStays(rd: Reading, num: Numbers.Numerals, det: Detectors, opts: Options,
                                           splitText: seq<string>, k: nat, m: nat)
    requires Sound(det) && k <= m <= |splitText|
    requires CleanUpTo(rd, num, det, opts, splitText, k).Err?
    ensures CleanUpTo(rd, num, det, opts, splitText, m) == CleanUpTo(rd, num, det, opts, splitText, k)
  {
    FoldErrorStays((w, c) requires Sound(det) => CleanToken(rd, num, det, opts, splitText, w, c), splitText, k, m);
  }

  lemma {:induction false} FoldErrorStays(step: (string, seq<string>) -> Result<Units.Agreement>,
                                          splitText: seq<string>, k: nat, m: nat)
    requires k <= m <= |splitText|
    requires CleanFold(step, splitText, k).Err?
    ensures CleanFold(step, splitText, m) == CleanFold(step, splitText, k)
    decreases m - k
  {
    if k < m {
      FoldErrorStays(step, splitText, k + 1, m);
    }
  }

  /** A step that fails on every non-empty token makes the loop fail as soon
      as one non-empty token is reached. */
  lemma {:induction false} FoldFails(step: (string, seq<string>) -> Result<Units.Agreement>,
                                     splitText: seq<string>, i: nat, j: nat)
    requires i < j <= |splitText| && splitText[i] != []
    requires forall w: string, c: seq<string> :: w != [] ==> step(w, c).Err?
    ensures CleanFold(step, splitText, j).Err?
    decreases j
  {
    if i < j - 1 {
      FoldFails(step, splitText, i, j - 1);
    }
  }

  /** With the spoken-symbol op enabled the op chain fails, whatever runs before it. */
  lemma {:induction false} SpokenOpFails(rd: Reading, num: Numbers.Numerals, det: Detectors, ops: seq<Op>, word: string, idx: nat,
                                         splitText: seq<string>, cleaned: seq<string>, k: nat)
    requires Sound(det) && k <= |ops| && SpokenSymbol in ops[..k]
    ensures TokenOpsUpTo(rd, num, det, ops, word, idx, splitText, cleaned, k).Err?
  {
    if ops[k - 1] != SpokenSymbol {
      assert SpokenSymbol in ops[..k - 1] by {
        var i :| 0 <= i < k && ops[..k][i] == SpokenSymbol;
        assert ops[..k - 1][i] == SpokenSymbol;
      }
      SpokenOpFails(rd, num, det, ops, word, idx, splitText, cleaned, k - 1);
    }
  }

  /** Enabling `SPOKEN_SYMBOL` makes every text with a non-empty token fail
      with the missing-table error or an earlier op's error. */
  lemma SpokenSymbolFails(rd: Reading, num: Numbers.Numerals, det: Detectors, opts: Options, splitText: seq<string>, i: nat)
    requires Sound(det) && SpokenSymbol in opts.ops
    requires i < |splitText| && splitText[i] != []
    ensures CleanUpTo(rd, num, det, opts, splitText, |splitText|).Err?
  {
    var step := (w, c) requires Sound(det) => CleanToken(rd, num, det, opts, splitText, w, c);
    forall w: string, c: seq<string> | w != [] ensures step(w, c).Err? {
      assert opts.ops[..|opts.ops|] == opts.ops;
      SpokenOpFails(rd, num, det, opts.ops, w, |c|, splitText, c, |opts.ops|);
    }
    FoldFails(step, splitText, i, |splitText|);
  }

  /** The loop keeps one cleaned word per non-empty token: the index a token
      is cleaned at is the number of non-empty tokens before it. */
  lemma {:induction false} OneWordPerToken(rd: Reading, num: Numbers.Numerals, det: Detectors, opts: Options,
                                           splitText: seq<string>, j: nat)
    requires Sound(det) && j <= |splitText|
    ensures CleanUpTo(rd, num, det, opts, splitText, j).Ok? ==>
              |CleanUpTo(rd, num, det, opts, splitText, j).value| == NonEmpty(splitText[..j])
  {
    if j > 0 {
      OneWordPerToken(rd, num, det, opts, splitText, j - 1);
      assert splitText[..j][..j - 1] == splitText[..j - 1];
    }
  }

  // ---------------------------------------------------------------------
  // Final assembly

  /** `re.sub('\s+', ' ', s)`; `inRun` says the previous character was white space. */
  function CollapseFrom(s: string, inRun: bool): string {
    if s == [] then []
    else if IsSpace(s[0]) then (if inRun then [] else " ") + CollapseFrom(s[1..], true)
    else [s[0]] + CollapseFrom(s[1..], false)
  }

  function Collapse(s: string): string { CollapseFrom(s, false) }

  /** The words joined by blanks, the mask written as the separator, and every
      run of white space reduced to one blank. */
  function Assemble(words: seq<string>, sep: string): string {
    Collapse(MapChar(Join(" ", words), SEP_MASK, sep))
  }

  /** `transliterate` on the text. */
  function TransliterateSpec(rd: Reading, num: Numbers.Numerals, det: Detectors, opts: Options, text: string): Result<string>
    requires Sound(det)
  {
    var t :- Passes(rd, num, det, opts, text);
    var splitText := Split(t, " ");
    var words :- CleanUpTo(rd, num, det, opts, splitText, |splitText|);
    Ok(Assemble(words, opts.sep))
  }

  /** `PolishTransliterate.transliterate`. */
  method Transliterate(rd: Reading, num: Numbers.Numerals, det: Detectors, opts: Options, text: string) returns (r: Result<string>)
    requires Sound(det)
    ensures r == TransliterateSpec(rd, num, det, opts, text)
  {
    var t := DocumentPasses(rd, num, det, opts, text);
    if t.Err? {
      return Err(t.error);
    }
    var splitText := Split(t.value, " ");
    var words := CleanWords(rd, num, det, opts, splitText);
    if words.Err? {
      return Err(words.error);
    }
    var joined := MapChar(Join(" ", words.value), SEP_MASK, opts.sep);
    r := Ok(Collapse(joined));
  }

  // ---------------------------------------------------------------------
  // The two readings

  /** None of the ops whose reading differs is enabled. */
  predicate ReadingFree(ops: seq<Op>) {
    Date !in ops && Timestamp !in ops && TimeOfDay !in ops && Weekday !in ops && Month !in ops
  }

  /** The readings differ only in the date, timestamp, time-of-day, weekday
      and month ops: without them, both give the same result. */
  lemma ReadingsAgree(num: Numbers.Numerals, det: Detectors, opts: Options, text: string)
    requires Sound(det) && ReadingFree(opts.ops)
    ensures TransliterateSpec(AsWritten, num, det, opts, text) == TransliterateSpec(Corrected, num, det, opts, text)
  {
    assert Passes(AsWritten, num, det, opts, text) == Passes(Corrected, num, det, opts, text);
    var t := Passes(AsWritten, num, det, opts, text);
    if t.Ok? {
      var splitText := Split(t.value, " ");
      CleanAgree(num, det, opts, splitText, |splitText|);
    }
  }

  lemma CleanAgree(num: Numbers.Numerals, det: Detectors, opts: Options, splitText: seq<string>, j: nat)
    requires Sound(det) && ReadingFree(opts.ops) && j <= |splitText|
    ensures CleanUpTo(AsWritten, num, det, opts, splitText, j) == CleanUpTo(Corrected, num, det, opts, splitText, j)
  {
    var asWritten := (w, c) requires Sound(det) => CleanToken(AsWritten, num, det, opts, splitText, w, c);
    var corrected := (w, c) requires Sound(det) => CleanToken(Corrected, num, det, opts, splitText, w, c);
    forall w: string, c: seq<string> ensures asWritten(w, c) == corrected(w, c) {
      OpsAgree(num, det, opts.ops, w, |c|, splitText, c, |opts.ops|);
    }
    FoldAgree(asWritten, corrected, splitText, j);
  }

  /** Two steps that agree on every token give the same loop. */
  lemma {:induction false} FoldAgree(step: (string, seq<string>) -> Result<Units.Agreement>,
                                     step': (string, seq<string>) -> Result<Units.Agreement>,
                                     splitText: seq<string>, j: nat)
    requires j <= |splitText|
    requires forall w: string, c: seq<string> :: step(w, c) == step'(w, c)
    ensures CleanFold(step, splitText, j) == CleanFold(step', splitText, j)
  {
    if j > 0 {
      FoldAgree(step, step', splitText, j - 1);
    }
  }

  lemma {:induction false} OpsAgree(num: Numbers.Numerals, det: Detectors, ops: seq<Op>, word: string, idx: nat,
                                    splitText: seq<string>, cleaned: seq<string>, k: nat)
    requires Sound(det) && ReadingFree(ops) && k <= |ops|
    ensures TokenOpsUpTo(AsWritten, num, det, ops, word, idx, splitText, cleaned, k)
            == TokenOpsUpTo(Corrected, num, det, ops, word, idx, splitText, cleaned, k)
  {
    if k > 0 {
      OpsAgree(num, det, ops, word, idx, splitText, cleaned, k - 1);
      assert ops[k - 1] in ops;
    }
  }

  // ---------------------------------------------------------------------
  // Facts about the assembly

  /** No two white-space characters are next to each other. */
  predicate NoDoubleSpace(s: string) {
    forall i :: 0 <= i < |s| - 1 ==> !(IsSpace(s[i]) && IsSpace(s[i + 1]))
  }

  /** After collapsing, the only white space is single blanks, and a run that
      follows white space does not start with any. */
  lemma {:induction false} CollapseShape(s: string, inRun: bool)
    ensures var r := CollapseFrom(s, inRun);
            && NoDoubleSpace(r)
            && (forall i :: 0 <= i < |r| && IsSpace(r[i]) ==> r[i] == ' ')
            && (inRun && r != [] ==> !IsSpace(r[0]))
  {
    if s != [] {
      CollapseShape(s[1..], IsSpace(s[0]));
      var rest := CollapseFrom(s[1..], IsSpace(s[0]));
      var head: string := if IsSpace(s[0]) then (if inRun then [] else " ") else [s[0]];
      var r := head + rest;
      assert CollapseFrom(s, inRun) == r;
      forall i | 0 <= i < |r| - 1 ensures !(IsSpace(r[i]) && IsSpace(r[i + 1])) {
        if i >= |head| {
          assert r[i] == rest[i - |head|] && r[i + 1] == rest[i + 1 - |head|];
        } else {
          assert r[i + 1] == rest[0];
        }
      }
      forall i | 0 <= i < |r| && IsSpace(r[i]) ensures r[i] == ' ' {
        if i >= |head| {
          assert r[i] == rest[i - |head|];
        }
      }
    }
  }

  /** Collapsing keeps every other character, in order: dropping the white
      space from either side gives the same string. */
  function NonSpace(s: string): string {
    if s == [] then [] else (if IsSpace(s[0]) then [] else [s[0]]) + NonSpace(s[1..])
  }

  lemma {:induction false} NonSpaceConcat(a: string, b: string)
    ensures NonSpace(a + b) == NonSpace(a) + NonSpace(b)
  {
    if a != [] {
      assert (a + b)[0] == a[0];
      assert (a + b)[1..] == a[1..] + b;
      NonSpaceConcat(a[1..], b);
    } else {
      assert a + b == b;
    }
  }

  lemma {:induction false} CollapseKeepsText(s: string, inRun: bool)
    ensures NonSpace(CollapseFrom(s, inRun)) == NonSpace(s)
  {
    if s != [] {
      CollapseKeepsText(s[1..], IsSpace(s[0]));
      var rest := CollapseFrom(s[1..], IsSpace(s[0]));
      var head: string := if IsSpace(s[0]) then (if inRun then [] else " ") else [s[0]];
      NonSpaceConcat(head, rest);
      assert NonSpace(head) == (if IsSpace(s[0]) then [] else [s[0]]);
    }
  }

  /** A string already in collapsed form is kept: collapsing is idempotent. */
  lemma {:induction false} CollapseKeepsCollapsed(s: string, inRun: bool)
    requires NoDoubleSpace(s) && (forall i :: 0 <= i < |s| && IsSpace(s[i]) ==> s[i] == ' ')
    requires inRun && s != [] ==> !IsSpace(s[0])
    ensures CollapseFrom(s, inRun) == s
  {
    if s != [] {
      var t := s[1..];
      assert NoDoubleSpace(t) by {
        forall i | 0 <= i < |t| - 1 ensures !(IsSpace(t[i]) && IsSpace(t[i + 1])) {
          assert t[i] == s[i + 1] && t[i + 1] == s[i + 2];
        }
      }
      assert forall i :: 0 <= i < |t| && IsSpace(t[i]) ==> t[i] == ' ' by {
        forall i | 0 <= i < |t| && IsSpace(t[i]) ensures t[i] == ' ' {
          assert t[i] == s[i + 1];
        }
      }
      if t != [] && IsSpace(s[0]) {
        assert !IsSpace(t[0]) by { assert t[0] == s[1]; }
      }
      CollapseKeepsCollapsed(t, IsSpace(s[0]));
      assert s == [s[0]] + t;
    }
  }

  lemma CollapseIdempotent(s: string)
    ensures Collapse(Collapse(s)) == Collapse(s)
  {
    CollapseShape(s, false);
    CollapseKeepsCollapsed(Collapse(s), false);
  }

  /** A character that is not white space occurs after collapsing only if it
      occurred before. */
  lemma {:induction false} CollapseAddsNothing(s: string, inRun: bool, c: char)
    requires !IsSpace(c) && c !in s
    ensures c !in CollapseFrom(s, inRun)
  {
    if s != [] {
      assert c !in s[1..];
      CollapseAddsNothing(s[1..], IsSpace(s[0]), c);
    }
  }

  /** The result has no run of white space, and no mask character unless the
      separator brings it. */
  lemma AssembledShape(words: seq<string>, sep: string)
    ensures NoDoubleSpace(Assemble(words, sep))
    ensures SEP_MASK !in sep ==> SEP_MASK !in Assemble(words, sep)
  {
    var joined := MapChar(Join(" ", words), SEP_MASK, sep);
    CollapseShape(joined, false);
    if SEP_MASK !in sep {
      MapCharRemoves(Join(" ", words), SEP_MASK, sep);
      CollapseAddsNothing(joined, false, SEP_MASK);
    }
  }

  /** Whatever the options and the detectors, a successful run gives a text
      with single blanks only and without the mask when the separator has none. */
  lemma OutputShape(rd: Reading, num: Numbers.Numerals, det: Detectors, opts: Options, text: string)
    requires Sound(det)
    ensures var r := TransliterateSpec(rd, num, det, opts, text);
            r.Ok? ==> NoDoubleSpace(r.value) && (SEP_MASK !in opts.sep ==> SEP_MASK !in r.value)
  {
    var r := TransliterateSpec(rd, num, det, opts, text);
    if r.Ok? {
      var t := Passes(rd, num, det, opts, text).value;
      var splitText := Split(t, " ");
      AssembledShape(CleanUpTo(rd, num, det, opts, splitText, |splitText|).value, opts.sep);
    }
  }
}
