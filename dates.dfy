/** Dates: `_date_op` spells every date as its ordinal day, the month's name
    and the year in words. The date's text is cut into fragments on '.' (and
    on ' ' inside the last fragment); the day takes an 'n' after a word ending
    in 'm' or 'n'; the month is looked up by name and then by number; and the
    term replaces the FIRST date the detector finds in the current text. */
module Dates {
  import opened PyStrings
  import opened Outcomes
  import opened Tables
  import opened Spans
  import opened Numbers
  import opened InPlace

  /** The fragments of a date: its text split on '.', where a last fragment
      holding a space is stripped and split on ' ' in its place. */
  function Fragments(piece: string): (frags: seq<string>)
    ensures |frags| >= 1
  {
    var parts := Split(piece, ".");
    var last := parts[|parts| - 1];
    if ' ' in last then parts[..|parts| - 1] + Split(Strip(last), " ") else parts
  }

  /** The ordinal words of a literal; a literal the converter refuses is a ConversionError. */
  function Ordinal(num: Numerals, s: string): (r: Result<string>)
    ensures r.Ok? <==> num.ordinal(s).Some?
    ensures r.Ok? ==> r.value == num.ordinal(s).value
    ensures r.Err? ==> r.error == ConversionError(s)
  {
    match num.ordinal(s)
    case None => Err(ConversionError(s))
    case Some(w) => Ok(w)
  }

  /** The year words of a literal; a literal the converter refuses is a ConversionError. */
  function Year(num: Numerals, s: string): (r: Result<string>)
    ensures r.Ok? <==> num.year(s).Some?
    ensures r.Ok? ==> r.value == num.year(s).value
    ensures r.Err? ==> r.error == ConversionError(s)
  {
    match num.year(s)
    case None => Err(ConversionError(s))
    case Some(w) => Ok(w)
  }

  /** The month of a fragment as written: a MONTH key, else a NUMBER_MONTH key,
      else a KeyError. */
  function MonthAsWritten(key: string): (r: Result<string>)
    ensures r.Ok? <==> key in MONTH || key in NUMBER_MONTH
    ensures r.Ok? && key in MONTH ==> r.value == MONTH[key]
    ensures r.Ok? && key !in MONTH ==> r.value == NUMBER_MONTH[key]
    ensures r.Err? ==> r.error == KeyError(key)
  {
    if key in MONTH then Ok(MONTH[key])
    else if key in NUMBER_MONTH then Ok(NUMBER_MONTH[key])
    else Err(KeyError(key))
  }

  /** The month of a fragment, corrected: an abbreviation that lost its dot to
      the split is looked up with the dot put back. */
  function Month(key: string): (r: Result<string>)
    ensures r.Ok? <==> key in MONTH || key + "." in MONTH || key in NUMBER_MONTH
    ensures r.Err? ==> r.error == KeyError(key)
  {
    if key in MONTH then Ok(MONTH[key])
    else if key + "." in MONTH then Ok(MONTH[key + "."])
    else if key in NUMBER_MONTH then Ok(NUMBER_MONTH[key])
    else Err(KeyError(key))
  }

  /** The term of one date: ordinal day (with an 'n' on a liaison), month name
      and, for a third non-empty fragment, the year words. The day is converted
      before the month is looked up, so a refused day wins over every other
      error; a date with one fragment is an IndexError. */
  function DateTerm(num: Numerals, piece: string, liaison: bool, month: string -> Result<string>): Result<string> {
    var frags := Fragments(piece);
    var ordinal :- Ordinal(num, frags[0]);
    if |frags| < 2 then Err(IndexError)
    else
      var name :- month(Strip(frags[1]));
      var year :- if |frags| == 3 && frags[2] != [] then Year(num, frags[2]) else Ok([]);
      Ok(DateWords(ordinal, liaison, name, year))
  }

  /** "<day> <month>[ <year>]", the day taking an 'n' on a liaison. */
  function DateWords(ordinal: string, liaison: bool, name: string, year: string): string {
    var day := if liaison then ordinal + "n" else ordinal;
    day + " " + name + (if year != [] then " " + year else [])
  }

  /** The two characters before position `start` of the current text are "m " or "n ". */
  predicate Liaison(cur: string, start: nat) {
    start > 1 && (Slice(cur, start - 2, start) == "m " || Slice(cur, start - 2, start) == "n ")
  }

  /** The text after the first `k` dates: date `i` is read from the ORIGINAL
      text, its liaison from the current text at the date's original start,
      and its term replaces the first date `first` finds in the current text
      (`re.sub` with `count=1`); nothing changes when it finds none. `term`
      is `DateTerm` with the converter and the month lookup fixed. */
  function DatesUpTo(text: string, spans: seq<Span>, term: (string, bool) -> Result<string>,
                     first: string -> Option<Span>, k: nat): Result<string>
    requires WellFormed(spans, |text|) && k <= |spans|
  {
    if k == 0 then Ok(text)
    else
      var prev :- DatesUpTo(text, spans, term, first, k - 1);
      var t :- term(Piece(text, spans, k - 1), Liaison(prev, spans[k - 1].start));
      Ok(SubFirst(prev, first(prev), t))
  }

  /** `re.sub(pattern, t, cur, count=1)` once the match is known. */
  function SubFirst(cur: string, found: Option<Span>, t: string): string {
    if found.None? then cur else SpliceAt(cur, found.value, t)
  }

  /** `_date_op` with the term of each date given by `DateTerm(num, _, _, month)`. */
  method DateOp(text: string, spans: seq<Span>, num: Numerals, first: string -> Option<Span>,
                month: string -> Result<string>) returns (r: Result<string>)
    requires WellFormed(spans, |text|)
    ensures r == DatesUpTo(text, spans, (piece, liaison) => DateTerm(num, piece, liaison, month), first, |spans|)
  {
    r := DatePass(text, spans, (piece, liaison) => DateTerm(num, piece, liaison, month), first);
  }

  /** The loop of `_date_op`: `spans` are the dates of `text` and `first`
      finds the first date of a text. */
  method DatePass(text: string, spans: seq<Span>, term: (string, bool) -> Result<string>,
                  first: string -> Option<Span>) returns (r: Result<string>)
    requires WellFormed(spans, |text|)
    ensures r == DatesUpTo(text, spans, term, first, |spans|)
  {
    var cur := text;
    for k := 0 to |spans|
      invariant DatesUpTo(text, spans, term, first, k) == Ok(cur)
    {
      var start := spans[k].start;
      var liaison := Liaison(cur, start);
      var t := term(Piece(text, spans, k), liaison);
      DatesStep(text, spans, term, first, k, cur);
      if t.Err? {
        r := Err(t.error);
        DatesErrorStays(text, spans, term, first, k + 1, |spans|);
        return;
      }
      var found := first(cur);
      if found.Some? {
        cur := Take(cur, found.value.start) + t.value + Drop(cur, found.value.end);
      }
    }
    r := Ok(cur);
  }

  /** One round of the date pass, from the text after `k` dates. */
  lemma DatesStep(text: string, spans: seq<Span>, term: (string, bool) -> Result<string>,
                  first: string -> Option<Span>, k: nat, cur: string)
    requires WellFormed(spans, |text|) && k < |spans|
    requires DatesUpTo(text, spans, term, first, k) == Ok(cur)
    ensures var t := term(Piece(text, spans, k), Liaison(cur, spans[k].start));
            DatesUpTo(text, spans, term, first, k + 1) ==
              if t.Err? then Err(t.error) else Ok(SubFirst(cur, first(cur), t.value))
  {
  }

  lemma {:induction false} DatesErrorStays(text: string, spans: seq<Span>, term: (string, bool) -> Result<string>,
                                           first: string -> Option<Span>, k: nat, m: nat)
    requires WellFormed(spans, |text|) && k <= m <= |spans|
    requires DatesUpTo(text, spans, term, first, k).Err?
    ensures DatesUpTo(text, spans, term, first, m) == DatesUpTo(text, spans, term, first, k)
    decreases m - k
  {
    if k < m {
      DatesErrorStays(text, spans, term, first, k, m - 1);
    }
  }

  // ---------------------------------------------------------------------
  // Facts about the tables the lookups rely on

  /** The month names spelled out in full. */
  const MONTH_NAMES: set<string> := {"styczeń", "luty", "marzec", "kwiecień", "maj", "czerwiec", "lipiec",
    "sierpień", "wrzesień", "październik", "listopad", "grudzień"}

  /** The month abbreviations without their closing dot. */
  const DOTLESS_ABBREVIATIONS: set<string> := {"sty", "lut", "mar", "kwi", "cze", "lip", "sie", "wrz", "paź", "lis", "gru"}

  lemma NumberKeyDigits(mm: string)
    ensures mm in NUMBER_MONTH ==> IsDecimal(mm)
  {
  }

  lemma MonthKeyLetter(key: string)
    ensures key in MONTH ==> key != [] && !IsDigit(key[0])
  {
  }

  /** A numeric month is a run of digits, and no month name, with or without a dot. */
  lemma NumberMonthKey(mm: string)
    requires mm in NUMBER_MONTH
    ensures IsDecimal(mm) && mm !in MONTH && mm + "." !in MONTH
  {
    NumberKeyDigits(mm);
    MonthKeyLetter(mm);
    MonthKeyLetter(mm + ".");
    assert (mm + ".")[0] == mm[0];
  }

  /** A MONTH key without a dot is a full name. */
  lemma FullNameOf(name: string)
    requires name in MONTH && '.' !in name
    ensures name in MONTH_NAMES
  {
  }

  lemma NameShape(name: string)
    requires name in MONTH_NAMES
    ensures name != [] && '.' !in name && ' ' !in name && !IsSpace(name[0]) && !IsSpace(name[|name| - 1])
    ensures !IsDigit(name[0])
  {
  }

  lemma NameNotNumber(name: string)
    requires name in MONTH_NAMES
    ensures name !in NUMBER_MONTH
  {
    NumberKeyDigits(name);
    NameShape(name);
  }

  /** A MONTH key ending in a dot is an abbreviation. */
  lemma AbbreviationOf(a: string)
    requires a + "." in MONTH
    ensures a in DOTLESS_ABBREVIATIONS
  {
    var key := a + ".";
    assert a == key[..|key| - 1] && key[|key| - 1] == '.';
    if key == "sty." {
      assert a == "sty";
    } else if key == "lut." {
      assert a == "lut";
    } else if key == "mar." {
      assert a == "mar";
    } else if key == "kwi." {
      assert a == "kwi";
    } else if key == "cze." {
      assert a == "cze";
    } else if key == "lip." {
      assert a == "lip";
    } else if key == "sie." {
      assert a == "sie";
    } else if key == "wrz." {
      assert a == "wrz";
    } else if key == "paź." {
      assert a == "paź";
    } else if key == "lis." {
      assert a == "lis";
    } else if key == "gru." {
      assert a == "gru";
    }
  }

  /** An abbreviation that lost its dot is no month name. */
  lemma DotlessNotName(a: string)
    requires a in DOTLESS_ABBREVIATIONS
    ensures a !in MONTH
  {
  }

  lemma DotlessNotNumber(a: string)
    requires a in DOTLESS_ABBREVIATIONS
    ensures a !in NUMBER_MONTH
  {
    NumberKeyDigits(a);
    DotlessShape(a);
  }

  lemma DotlessShape(a: string)
    requires a in DOTLESS_ABBREVIATIONS
    ensures a != [] && '.' !in a && ' ' !in a && !IsSpace(a[0]) && !IsSpace(a[|a| - 1])
    ensures !IsDigit(a[0])
  {
  }

  // ---------------------------------------------------------------------
  // How dates are read

  /** "d.b.y" with no dot in any part and no blank in `y` has the fragments d, b, y. */
  lemma DottedFragments(d: string, b: string, y: string)
    requires '.' !in d && '.' !in b && '.' !in y && ' ' !in y
    ensures Fragments(d + "." + b + "." + y) == [d, b, y]
  {
    SplitThree(d, ".", b, y);
  }

  /** "d. name y" has the fragments d, name, y: the last piece of the split on
      '.' holds a blank, so it is stripped and split on ' '. */
  lemma SpacedFragments(d: string, name: string, y: string)
    requires '.' !in d && '.' !in name && ' ' !in name && IsDecimal(y)
    requires name != [] && !IsSpace(name[0]) && !IsSpace(name[|name| - 1])
    ensures Fragments(d + "." + (" " + (name + " " + y))) == [d, name, y]
  {
    DecimalShape(y);
    SplitTwo(d, ".", " " + (name + " " + y));
    SpacedTail(name, y);
  }

  /** " name y" stripped and split on ' ' gives name and y. */
  lemma SpacedTail(name: string, y: string)
    requires ' ' !in name && ' ' !in y && y != [] && !IsSpace(y[|y| - 1])
    requires name != [] && !IsSpace(name[0]) && !IsSpace(name[|name| - 1])
    ensures ' ' in " " + (name + " " + y)
    ensures Split(Strip(" " + (name + " " + y)), " ") == [name, y]
  {
    var inner := name + " " + y;
    assert (" " + inner)[0] == ' ';
    assert inner[|inner| - 1] == y[|y| - 1];
    StripBare(inner);
    SplitTwo(name, " ", y);
  }

  /** An all-numeric date "d.mm.y" (or "d.mm." with no year) reads as the
      ordinal day, the month of NUMBER_MONTH and the year words, under both
      month lookups. */
  lemma NumericDate(num: Numerals, d: string, mm: string, y: string, liaison: bool)
    requires IsDecimal(d) && mm in NUMBER_MONTH && (y == [] || IsDecimal(y))
    requires num.ordinal(d).Some? && (y != [] ==> num.year(y).Some?)
    ensures var year := if y == [] then [] else num.year(y).value;
            var words := DateWords(num.ordinal(d).value, liaison, NUMBER_MONTH[mm], year);
            && DateTerm(num, d + "." + mm + "." + y, liaison, Month) == Ok(words)
            && DateTerm(num, d + "." + mm + "." + y, liaison, MonthAsWritten) == Ok(words)
  {
    DecimalShape(d);
    NumberMonthKey(mm);
    DecimalShape(mm);
    StripBare(mm);
    if y != [] {
      DecimalShape(y);
    }
    DottedFragments(d, mm, y);
  }

  /** "d. name y" with a month name written out reads as the ordinal day, the
      name and the year words, under both month lookups. */
  lemma WrittenMonthDate(num: Numerals, d: string, name: string, y: string, liaison: bool)
    requires IsDecimal(d) && name in MONTH && '.' !in name && IsDecimal(y)
    requires num.ordinal(d).Some? && num.year(y).Some?
    ensures var words := DateWords(num.ordinal(d).value, liaison, MONTH[name], num.year(y).value);
            && DateTerm(num, d + "." + (" " + (name + " " + y)), liaison, Month) == Ok(words)
            && DateTerm(num, d + "." + (" " + (name + " " + y)), liaison, MonthAsWritten) == Ok(words)
  {
    DecimalShape(d);
    FullNameOf(name);
    NameShape(name);
    StripBare(name);
    SpacedFragments(d, name, y);
  }

  /** As written, a date with an abbreviated month, "d.sty.y", is a KeyError:
      the split on '.' removed the abbreviation's dot, so it is no MONTH key. */
  lemma AbbreviatedMonthRefused(num: Numerals, d: string, a: string, y: string, liaison: bool)
    requires IsDecimal(d) && a + "." in MONTH && IsDecimal(y) && num.ordinal(d).Some?
    ensures DateTerm(num, d + "." + a + "." + y, liaison, MonthAsWritten) == Err(KeyError(a))
  {
    DecimalShape(d);
    DecimalShape(y);
    AbbreviationOf(a);
    DotlessShape(a);
    DotlessNotName(a);
    DotlessNotNumber(a);
    StripBare(a);
    DottedFragments(d, a, y);
  }

  /** With the corrected lookup the same date reads as the abbreviation's month. */
  lemma AbbreviatedMonthRead(num: Numerals, d: string, a: string, y: string, liaison: bool)
    requires IsDecimal(d) && a + "." in MONTH && IsDecimal(y)
    requires num.ordinal(d).Some? && num.year(y).Some?
    ensures DateTerm(num, d + "." + a + "." + y, liaison, Month)
            == Ok(DateWords(num.ordinal(d).value, liaison, MONTH[a + "."], num.year(y).value))
  {
    DecimalShape(d);
    DecimalShape(y);
    AbbreviationOf(a);
    DotlessShape(a);
    DotlessNotName(a);
    StripBare(a);
    DottedFragments(d, a, y);
  }

  /** The corrected lookup answers every key the one as written answers, the same way. */
  lemma MonthExtends(key: string)
    ensures MonthAsWritten(key).Ok? ==> Month(key) == MonthAsWritten(key)
  {
    if key !in MONTH && key in NUMBER_MONTH {
      NumberMonthKey(key);
    }
  }

  /** `found` is the span from `st` to `en`. */
  predicate FindsAt(found: Option<Span>, st: int, en: int) {
    found.Some? && found.value.start == st && found.value.end == en
  }

  /** Date `i` is where the detector, run on the text after `i` dates, finds
      it: at its original bounds shifted by the earlier replacements; and
      `terms[i]` is its term. */
  predicate DateFoundAt(text: string, spans: seq<Span>, term: (string, bool) -> Result<string>,
                        first: string -> Option<Span>, terms: seq<string>, i: nat)
    requires WellFormed(spans, |text|) && |terms| == |spans| && i < |spans|
  {
    var cur := ScanState(text, spans, terms, i);
    var d := Drift(spans, terms, i);
    && FindsAt(first(cur), spans[i].start + d, spans[i].end + d)
    && term(Piece(text, spans, i), Liaison(cur, spans[i].start)) == Ok(terms[i])
  }

  /** When every date is found where the earlier replacements have shifted it,
      the pass replaces each date by its term in place: the result is the text
      with each span spliced out for its term. */
  lemma {:induction false} DatesAgree(text: string, spans: seq<Span>, term: (string, bool) -> Result<string>,
                                      first: string -> Option<Span>, terms: seq<string>, k: nat)
    requires WellFormed(spans, |text|) && |terms| == |spans| && k <= |spans|
    requires forall i :: 0 <= i < k ==> DateFoundAt(text, spans, term, first, terms, i)
    ensures DatesUpTo(text, spans, term, first, k) == Ok(ScanState(text, spans, terms, k))
    ensures k == |spans| ==> DatesUpTo(text, spans, term, first, k) == Ok(Spliced(text, spans, terms))
  {
    ScanEnds(text, spans, terms);
    if k > 0 {
      DatesAgree(text, spans, term, first, terms, k - 1);
      DateReplaced(text, spans, term, first, terms, k - 1);
    }
  }

  /** One round of `DatesAgree`. */
  lemma DateReplaced(text: string, spans: seq<Span>, term: (string, bool) -> Result<string>,
                     first: string -> Option<Span>, terms: seq<string>, j: nat)
    requires WellFormed(spans, |text|) && |terms| == |spans| && j < |spans|
    requires DatesUpTo(text, spans, term, first, j) == Ok(ScanState(text, spans, terms, j))
    requires DateFoundAt(text, spans, term, first, terms, j)
    ensures DatesUpTo(text, spans, term, first, j + 1) == Ok(ScanState(text, spans, terms, j + 1))
  {
    var cur := ScanState(text, spans, terms, j);
    DatesStep(text, spans, term, first, j, cur);
    FoundDateSpliced(text, spans, terms, j, first(cur));
  }

  /** Replacing the date found at its shifted bounds in the text after `j`
      dates gives the text after `j + 1`. */
  lemma FoundDateSpliced(text: string, spans: seq<Span>, terms: seq<string>, j: nat, found: Option<Span>)
    requires WellFormed(spans, |text|) && |terms| == |spans| && j < |spans|
    requires FindsAt(found, spans[j].start + Drift(spans, terms, j), spans[j].end + Drift(spans, terms, j))
    ensures SubFirst(ScanState(text, spans, terms, j), found, terms[j]) == ScanState(text, spans, terms, j + 1)
  {
    var d := Drift(spans, terms, j);
    ScanStep(text, spans, terms, j);
    SubFirstAt(ScanState(text, spans, terms, j), found, spans[j].start + d, spans[j].end + d, terms[j]);
  }

  lemma SubFirstAt(cur: string, found: Option<Span>, st: int, en: int, t: string)
    requires FindsAt(found, st, en) && 0 <= st <= en <= |cur|
    ensures SubFirst(cur, found, t) == cur[..st] + t + cur[en..]
  {
  }
}
