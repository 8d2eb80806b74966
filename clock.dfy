/** Clock readings: `_timestamp_op` spells durations written "h:mm" or
    "h:mm:ss" (with optional unit letters) and `_timeofday_op` spells times of
    day written "h:mm" or "h.mm". As written, both splice each term at the
    match's position in the ORIGINAL text, ignoring the length change of the
    replacements before it; the drift-correct passes are modelled beside them. */
module Clock {
  import opened PyStrings
  import opened Outcomes
  import opened Spans
  import opened Numbers
  import opened InPlace

  /** `int(s)`, failing with the ValueError Python raises on a literal it refuses. */
  function Int(s: string): (r: Result<int>)
    ensures r.Ok? <==> ParseInt(s).Some?
    ensures r.Ok? ==> r.value == ParseInt(s).value
    ensures r.Err? ==> r.error == ValueError(s)
  {
    match ParseInt(s)
    case None => Err(ValueError(s))
    case Some(v) => Ok(v)
  }

  // ---------------------------------------------------------------------
  // Durations

  /** The hour field with its unit letters removed, as written: 'h', then "std". */
  function HoursAsWritten(p: string): string { ReplaceAll(ReplaceAll(p, "h", ""), "std", "") }

  /** The minute field of a two-field duration, as written: 'm' first, then "min". */
  function MinutesAsWritten(p: string): string { ReplaceAll(ReplaceAll(p, "m", ""), "min", "") }

  /** The hour field with every hour unit the detector accepts removed: "godz", 'h', "std". */
  function Hours(p: string): string { ReplaceAll(ReplaceAll(ReplaceAll(p, "godz", ""), "h", ""), "std", "") }

  /** The minute field with "min" removed before 'm'. */
  function Minutes(p: string): string { ReplaceAll(ReplaceAll(p, "min", ""), "m", "") }

  /** The second field with "sek", "sec" and 's' removed. */
  function Seconds(p: string): string { ReplaceAll(ReplaceAll(ReplaceAll(p, "sek", ""), "sec", ""), "s", "") }

  function HourWords(v: int, shown: string): string {
    if v == 1 then "jedna godzina " else shown + " godzin "
  }

  function MinuteWords(v: int, shown: string): string {
    if v == 1 then "jedna minuta" else shown + " minut"
  }

  function SecondWords(v: int, shown: string): string {
    if v == 1 then "jedna sekunda" else shown + " sekund"
  }

  /** The term of one duration as `_timestamp_op` builds it. The two-field form
      removes 'm' before "min" and shows the hour and minute fields unstripped;
      the three-field form shows the stripped minutes and seconds. A field
      `int()` refuses is a ValueError; a single field is an IndexError once the
      hours are read. */
  function TimestampTermAsWritten(ts: string): Result<string> {
    var parts := Split(ts, ":");
    var hours :- Int(HoursAsWritten(parts[0]));
    var h := HourWords(hours, parts[0]);
    if |parts| == 2 then
      var minutes :- Int(MinutesAsWritten(parts[1]));
      Ok(h + MinuteWords(minutes, parts[1]))
    else if |parts| < 2 then Err(IndexError)
    else
      var m := Minutes(parts[1]);
      var minutes :- Int(m);
      var s := Seconds(parts[2]);
      var seconds :- Int(s);
      Ok(h + MinuteWords(minutes, m) + " " + SecondWords(seconds, s))
  }

  /** The term of one duration with every unit the detector accepts removed
      before `int()`, and the stripped fields shown. */
  function TimestampTerm(ts: string): Result<string> {
    var parts := Split(ts, ":");
    var hv := Hours(parts[0]);
    var hours :- Int(hv);
    if |parts| < 2 then Err(IndexError)
    else
      var mv := Minutes(parts[1]);
      var minutes :- Int(mv);
      if |parts| == 2 then Ok(HourWords(hours, hv) + MinuteWords(minutes, mv))
      else
        var sv := Seconds(parts[2]);
        var seconds :- Int(sv);
        Ok(HourWords(hours, hv) + MinuteWords(minutes, mv) + " " + SecondWords(seconds, sv))
  }

  // ---------------------------------------------------------------------
  // Times of day

  /** The term of one time of day: "uhr" and 'h' removed, ':' and '.' read as
      " godzina "; an hour of 1 reads "jedna godzina" followed by the second
      field. The hour field `int()` refuses is a ValueError; an hour of 1 with
      no second field is an IndexError. */
  function TimeOfDayTerm(piece: string): Result<string> {
    var tod := TimeOfDayWords(piece);
    var parts := Split(tod, " godzina ");
    var hours :- Int(parts[0]);
    if hours != 1 then Ok(tod)
    else if |parts| < 2 then Err(IndexError)
    else Ok("jedna godzina " + parts[1])
  }

  /** "uhr" and 'h' removed, then ':' and '.' each replaced by " godzina ". */
  function TimeOfDayWords(piece: string): string {
    ReplaceAll(ReplaceAll(ReplaceAll(ReplaceAll(piece, "uhr", ""), "h", ""), ":", " godzina "), ".", " godzina ")
  }

  // ---------------------------------------------------------------------
  // The passes

  /** `_timestamp_op` as written: each duration's term lands at the match's
      original bounds in the current text. */
  method TimestampOpAsWritten(text: string, spans: seq<Span>) returns (r: Result<string>)
    requires WellFormed(spans, |text|)
    ensures r == SplicedUnshifted(text, spans, Pieces(text, spans), TimestampTermAsWritten, |spans|)
  {
    r := SpliceEachUnshifted(text, spans, Pieces(text, spans), TimestampTermAsWritten);
  }

  /** `_timestamp_op` corrected: every duration replaced by its term at its
      drift-adjusted bounds. */
  method TimestampOp(text: string, spans: seq<Span>) returns (r: Result<string>)
    requires WellFormed(spans, |text|)
    ensures r == (var terms :- Collect(TimestampTerm, Pieces(text, spans), |spans|);
                  Ok(Spliced(text, spans, terms)))
  {
    r := SpliceEach(text, spans, Pieces(text, spans), TimestampTerm);
  }

  /** `_timeofday_op` as written: each term is read from, and put back at, the
      match's original bounds in the current text. */
  method TimeOfDayOpAsWritten(text: string, spans: seq<Span>) returns (r: Result<string>)
    ensures r == ReadSplicedUnshifted(text, spans, TimeOfDayTerm, |spans|)
  {
    r := ReadSpliceEachUnshifted(text, spans, TimeOfDayTerm);
  }

  /** `_timeofday_op` corrected: every time of day replaced by its term at its
      drift-adjusted bounds (where the current text still holds the match, by
      `Spans.ShiftedPiece`). */
  method TimeOfDayOp(text: string, spans: seq<Span>) returns (r: Result<string>)
    requires WellFormed(spans, |text|)
    ensures r == (var terms :- Collect(TimeOfDayTerm, Pieces(text, spans), |spans|);
                  Ok(Spliced(text, spans, terms)))
  {
    r := SpliceEach(text, spans, Pieces(text, spans), TimeOfDayTerm);
  }

  // ---------------------------------------------------------------------
  // Reading the fields

  /** The unit letters the duration detector accepts after each field. */
  predicate HourUnit(u: string) { u == "" || u == "h" || u == "godz" }
  predicate MinuteUnit(u: string) { u == "" || u == "m" || u == "min" }
  predicate SecondUnit(u: string) { u == "" || u == "s" || u == "sek" }

  /** Digits followed by any hour unit read back as the digits. */
  lemma HoursStripped(d: string, u: string)
    requires IsDecimal(d) && HourUnit(u)
    ensures Hours(d + u) == d
  {
    if u == "" {
      assert d + u == d;
      FirstCharAbsent(d, "godz", []);
      FirstCharAbsent(d, "h", []);
    } else if u == "h" {
      FirstCharAbsent(d + u, "godz", []);
      SuffixRemoved(d, "h");
    } else {
      SuffixRemoved(d, "godz");
      FirstCharAbsent(d, "h", []);
    }
    FirstCharAbsent(d, "std", []);
  }

  /** Digits followed by any minute unit read back as the digits. */
  lemma MinutesStripped(d: string, u: string)
    requires IsDecimal(d) && MinuteUnit(u)
    ensures Minutes(d + u) == d
  {
    if u == "" {
      assert d + u == d;
      FirstCharAbsent(d, "min", []);
    } else if u == "m" {
      ShortTailKept(d, u, "min", []);
      SuffixRemoved(d, "m");
    } else {
      SuffixRemoved(d, "min");
    }
    FirstCharAbsent(d, "m", []);
  }

  /** Digits followed by any second unit read back as the digits. */
  lemma SecondsStripped(d: string, u: string)
    requires IsDecimal(d) && SecondUnit(u)
    ensures Seconds(d + u) == d
  {
    if u == "" {
      assert d + u == d;
      FirstCharAbsent(d, "sek", []);
      FirstCharAbsent(d, "sec", []);
    } else if u == "s" {
      ShortTailKept(d, u, "sek", []);
      ShortTailKept(d, u, "sec", []);
      SuffixRemoved(d, "s");
    } else {
      SuffixRemoved(d, "sek");
      FirstCharAbsent(d, "sec", []);
    }
    FirstCharAbsent(d, "s", []);
  }

  /** A two-field duration, with any units the detector accepts, is spelled
      from its digits: hours, then minutes, each shown without its unit. */
  lemma DurationRead(h: string, hu: string, m: string, mu: string)
    requires IsDecimal(h) && IsDecimal(m) && HourUnit(hu) && MinuteUnit(mu)
    ensures TimestampTerm((h + hu) + ":" + (m + mu))
            == Ok(HourWords(ValueOf(h), h) + MinuteWords(ValueOf(m), m))
  {
    FieldFree(h, hu);
    FieldFree(m, mu);
    SplitTwo(h + hu, ":", m + mu);
    HoursStripped(h, hu);
    MinutesStripped(m, mu);
    FieldsRead((h + hu) + ":" + (m + mu), [h + hu, m + mu], h, m, "");
  }

  /** A three-field duration is spelled from its digits: hours, minutes, seconds. */
  lemma LongDurationRead(h: string, hu: string, m: string, mu: string, sd: string, su: string)
    requires IsDecimal(h) && IsDecimal(m) && IsDecimal(sd)
    requires HourUnit(hu) && MinuteUnit(mu) && SecondUnit(su)
    ensures TimestampTerm((h + hu) + ":" + (m + mu) + ":" + (sd + su))
            == Ok(HourWords(ValueOf(h), h) + MinuteWords(ValueOf(m), m) + " " + SecondWords(ValueOf(sd), sd))
  {
    FieldFree(h, hu);
    FieldFree(m, mu);
    FieldFree(sd, su);
    SplitThree(h + hu, ":", m + mu, sd + su);
    HoursStripped(h, hu);
    MinutesStripped(m, mu);
    SecondsStripped(sd, su);
    FieldsRead((h + hu) + ":" + (m + mu) + ":" + (sd + su), [h + hu, m + mu, sd + su], h, m, sd);
  }

  lemma FieldFree(d: string, u: string)
    requires IsDecimal(d) && (HourUnit(u) || MinuteUnit(u) || SecondUnit(u))
    ensures ':' !in d + u
  {
  }

  /** The corrected term of fields whose stripped forms are digit strings. */
  lemma FieldsRead(ts: string, parts: seq<string>, h: string, m: string, sd: string)
    requires Split(ts, ":") == parts && 2 <= |parts| <= 3
    requires Hours(parts[0]) == h && Minutes(parts[1]) == m && IsDecimal(h) && IsDecimal(m)
    requires |parts| == 3 ==> Seconds(parts[2]) == sd && IsDecimal(sd)
    ensures |parts| == 2 ==> TimestampTerm(ts) == Ok(HourWords(ValueOf(h), h) + MinuteWords(ValueOf(m), m))
    ensures |parts| == 3 ==>
              TimestampTerm(ts)
              == Ok(HourWords(ValueOf(h), h) + MinuteWords(ValueOf(m), m) + " " + SecondWords(ValueOf(sd), sd))
  {
    ParseDecimal(h);
    ParseDecimal(m);
    if |parts| == 3 {
      ParseDecimal(sd);
    }
  }

  /** As written, a duration of plain digits is spelled like the corrected term. */
  lemma PlainDurationAsWritten(h: string, m: string)
    requires IsDecimal(h) && IsDecimal(m)
    ensures TimestampTermAsWritten(h + ":" + m)
            == Ok(HourWords(ValueOf(h), h) + MinuteWords(ValueOf(m), m))
  {
    SplitTwo(h, ":", m);
    FirstCharAbsent(h, "h", []);
    FirstCharAbsent(h, "std", []);
    FirstCharAbsent(m, "m", []);
    FirstCharAbsent(m, "min", []);
    ParseDecimal(h);
    ParseDecimal(m);
  }

  /** As written, the minute unit "min" loses its 'm' before "min" is looked
      for, so `int()` is handed the minutes followed by "in". */
  lemma MinuteUnitRefused(h: string, m: string)
    requires IsDecimal(h) && IsDecimal(m)
    ensures TimestampTermAsWritten(h + ":" + (m + "min")) == Err(ValueError(m + "in"))
  {
    SplitTwo(h, ":", m + "min");
    FirstCharAbsent(h, "h", []);
    FirstCharAbsent(h, "std", []);
    ParseDecimal(h);
    MinuteUnitCut(m);
    NotAnInt(m + "in");
  }

  lemma MinuteUnitCut(m: string)
    requires IsDecimal(m)
    ensures MinutesAsWritten(m + "min") == m + "in"
  {
    var once := ReplaceAll(m + "min", "m", "");
    assert m + "min" == m + ['m'] + "in";
    CharReplaced(m, 'm', "in", []);
    assert once == m + "in";
    FirstCharAbsent(once, "min", []);
  }

  /** As written, the hour unit "godz" is never removed, so `int()` refuses the hour field. */
  lemma HourUnitRefused(h: string, rest: string)
    requires IsDecimal(h)
    ensures TimestampTermAsWritten((h + "godz") + ":" + rest) == Err(ValueError(h + "godz"))
  {
    SplitHead(h + "godz", ":", rest);
    FirstCharAbsent(h + "godz", "h", []);
    FirstCharAbsent(h + "godz", "std", []);
    NotAnInt(h + "godz");
  }

  /** As written, a two-field duration shows its hour field with the unit still on it. */
  lemma HourUnitShown(h: string, m: string)
    requires IsDecimal(h) && IsDecimal(m)
    ensures TimestampTermAsWritten((h + "h") + ":" + m)
            == Ok(HourWords(ValueOf(h), h + "h") + MinuteWords(ValueOf(m), m))
  {
    SplitTwo(h + "h", ":", m);
    SuffixRemoved(h, "h");
    FirstCharAbsent(h, "std", []);
    FirstCharAbsent(m, "m", []);
    FirstCharAbsent(m, "min", []);
    ParseDecimal(h);
    ParseDecimal(m);
  }

  /** A time of day the detector matches without a space before its unit:
      both separators read " godzina ", and the trailing 'h' is dropped. */
  lemma SeparatorSpoken(h: string, sep: char, m: string, u: string)
    requires IsDecimal(h) && IsDecimal(m) && (sep == ':' || sep == '.') && (u == "" || u == "h")
    ensures TimeOfDayWords(h + [sep] + m + u) == h + " godzina " + m
  {
    UnitDropped(h + [sep] + m, u);
    SeparatorReplaced(h, sep, m);
  }

  lemma UnitDropped(core: string, u: string)
    requires 'u' !in core && 'h' !in core && (u == "" || u == "h")
    ensures ReplaceAll(ReplaceAll(core + u, "uhr", ""), "h", "") == core
  {
    FirstCharAbsent(core + u, "uhr", []);
    if u == "h" {
      SuffixRemoved(core, "h");
    } else {
      assert core + u == core;
      FirstCharAbsent(core, "h", []);
    }
  }

  lemma SeparatorReplaced(h: string, sep: char, m: string)
    requires IsDecimal(h) && IsDecimal(m) && (sep == ':' || sep == '.')
    ensures ReplaceAll(ReplaceAll(h + [sep] + m, ":", " godzina "), ".", " godzina ") == h + " godzina " + m
  {
    if sep == ':' {
      CharReplaced(h, ':', m, " godzina ");
      FirstCharAbsent(h + " godzina " + m, ".", " godzina ");
    } else {
      FirstCharAbsent(h + [sep] + m, ":", " godzina ");
      CharReplaced(h, '.', m, " godzina ");
    }
  }

  /** A time of day is spelled as its hour, " godzina " and its minutes; an
      hour of 1 reads "jedna godzina". */
  lemma TimeOfDayRead(h: string, sep: char, m: string, u: string)
    requires IsDecimal(h) && IsDecimal(m) && (sep == ':' || sep == '.') && (u == "" || u == "h")
    ensures TimeOfDayTerm(h + [sep] + m + u)
            == Ok(if ValueOf(h) == 1 then "jedna godzina " + m else h + " godzina " + m)
  {
    SeparatorSpoken(h, sep, m, u);
    SplitTwo(h, " godzina ", m);
    ParseDecimal(h);
  }

  // ---------------------------------------------------------------------
  // Two matches in one text

  /** The text "1:05 i 2:10" and its two clock matches. */
  const TwoClocks: string := "1:05 i 2:10"
  const TwoClockSpans: seq<Span> := [Span(0, 4), Span(7, 11)]

  lemma TwoClockPieces()
    ensures WellFormed(TwoClockSpans, |TwoClocks|)
    ensures Pieces(TwoClocks, TwoClockSpans) == ["1" + ":" + "05", "2" + ":" + "10"]
    ensures Slice(TwoClocks, 0, 4) == "1" + ":" + "05"
  {
    assert TwoClocks[0..4] == "1" + ":" + "05";
    assert TwoClocks[7..11] == "2" + ":" + "10";
  }

  /** Durations of plain digits, corrected: the same words as written. */
  lemma PlainDurationRead(h: string, m: string)
    requires IsDecimal(h) && IsDecimal(m)
    ensures TimestampTerm(h + ":" + m) == Ok(HourWords(ValueOf(h), h) + MinuteWords(ValueOf(m), m))
  {
    DurationRead(h, "", m, "");
    assert h + "" == h && m + "" == m;
  }

  /** The terms of the two durations, as written and corrected alike. */
  lemma TwoClockDurations()
    ensures WellFormed(TwoClockSpans, |TwoClocks|)
    ensures TimestampTermAsWritten(Pieces(TwoClocks, TwoClockSpans)[0]) == Ok(HourWords(1, "1") + MinuteWords(5, "05"))
    ensures TimestampTermAsWritten(Pieces(TwoClocks, TwoClockSpans)[1]) == Ok(HourWords(2, "2") + MinuteWords(10, "10"))
    ensures Collect(TimestampTerm, Pieces(TwoClocks, TwoClockSpans), 2)
            == Ok([HourWords(1, "1") + MinuteWords(5, "05"), HourWords(2, "2") + MinuteWords(10, "10")])
  {
    TwoClockPieces();
    assert ValueOf("1") == 1 && ValueOf("05") == 5 && ValueOf("2") == 2 && ValueOf("10") == 10;
    PlainDurationAsWritten("1", "05");
    PlainDurationAsWritten("2", "10");
    PlainDurationRead("1", "05");
    PlainDurationRead("2", "10");
    CollectTwo(TimestampTerm, Pieces(TwoClocks, TwoClockSpans),
               HourWords(1, "1") + MinuteWords(5, "05"), HourWords(2, "2") + MinuteWords(10, "10"));
  }

  /** Where the two duration terms differ: the first is longer than the
      start of the second match and holds 'o' there; the second opens with '2'. */
  lemma TwoClockLetters()
    ensures |HourWords(1, "1") + MinuteWords(5, "05")| > 7
    ensures (HourWords(1, "1") + MinuteWords(5, "05"))[7] == 'o'
    ensures (HourWords(2, "2") + MinuteWords(10, "10"))[0] == '2'
  {
    assert HourWords(1, "1") == "jedna godzina ";
  }

  /** As written, the second duration's term replaces the characters at its
      ORIGINAL bounds, which after the first (longer) term lie inside that
      term: "jedna g" + "2 godzin 10 minut" + "na 05 minut i 2:10" where the
      drift-correct text reads "jedna godzina 05 minut i 2 godzin 10 minut". */
  lemma TimestampSecondMisplaced()
    ensures WellFormed(TwoClockSpans, |TwoClocks|)
    ensures SplicedUnshifted(TwoClocks, TwoClockSpans, Pieces(TwoClocks, TwoClockSpans), TimestampTermAsWritten, 2)
            != (var terms :- Collect(TimestampTerm, Pieces(TwoClocks, TwoClockSpans), 2);
                Ok(Spliced(TwoClocks, TwoClockSpans, terms)))
  {
    TwoClockDurations();
    TwoClockLetters();
    SecondOverwritesFirst(TwoClocks, TwoClockSpans, Pieces(TwoClocks, TwoClockSpans), TimestampTermAsWritten,
                          HourWords(1, "1") + MinuteWords(5, "05"), HourWords(2, "2") + MinuteWords(10, "10"));
  }

  /** A word with no digit, separator, space, 'h' or 'u' is refused as an hour. */
  lemma WordRefused(w: string)
    requires w != [] && !IsSpace(w[0]) && !IsSpace(w[|w| - 1]) && !IsDigit(w[|w| - 1])
    requires 'u' !in w && 'h' !in w && ':' !in w && '.' !in w && ' ' !in w
    ensures TimeOfDayTerm(w) == Err(ValueError(w))
  {
    FirstCharAbsent(w, "uhr", []);
    FirstCharAbsent(w, "h", []);
    FirstCharAbsent(w, ":", " godzina ");
    FirstCharAbsent(w, ".", " godzina ");
    FirstCharAbsent(w, " godzina ", []);
    NotAnInt(w);
  }

  /** The terms of the two times of day. */
  lemma TwoClockTimes()
    ensures WellFormed(TwoClockSpans, |TwoClocks|)
    ensures TimeOfDayTerm(Slice(TwoClocks, 0, 4)) == Ok("jedna godzina " + "05")
    ensures Collect(TimeOfDayTerm, Pieces(TwoClocks, TwoClockSpans), 2) == Ok(["jedna godzina " + "05", "2" + " godzina " + "10"])
  {
    TwoClockPieces();
    assert ValueOf("1") == 1 && ValueOf("2") == 2;
    PlainTimeOfDay("1", "05");
    PlainTimeOfDay("2", "10");
    CollectTwo(TimeOfDayTerm, Pieces(TwoClocks, TwoClockSpans), "jedna godzina " + "05", "2" + " godzina " + "10");
  }

  /** "odzi", the characters 7 to 11 of the first term, is not an hour. */
  lemma OdziRefused()
    ensures TimeOfDayTerm(("jedna godzina " + "05")[7..11]) == Err(ValueError("odzi"))
  {
    var w := ("jedna godzina " + "05")[7..11];
    assert w == "odzi";
    WordRefused(w);
  }

  /** As written, the second time of day is read at its ORIGINAL bounds, which
      after the first term "jedna godzina 05" hold "odzi": `int()` refuses it.
      With the drift taken into account both times are spelled. */
  lemma TimeOfDaySecondMisread()
    ensures WellFormed(TwoClockSpans, |TwoClocks|)
    ensures ReadSplicedUnshifted(TwoClocks, TwoClockSpans, TimeOfDayTerm, 2) == Err(ValueError("odzi"))
    ensures Collect(TimeOfDayTerm, Pieces(TwoClocks, TwoClockSpans), 2).Ok?
  {
    TwoClockTimes();
    OdziRefused();
    SecondReadFromFirst(TwoClocks, TwoClockSpans, TimeOfDayTerm, "jedna godzina " + "05");
  }

  /** The same two times written with dots; the clock spans are those of `TwoClocks`. */
  const DottedClocks: string := "1.05 i 2.10"

  /** "1.05 i 2.10" has no ':' for DETECT_TIMESTAMP, so the default pipeline
      leaves both times to `_timeofday_op`, which fails on it the same way. */
  lemma DottedTimeOfDayMisread()
    ensures WellFormed(TwoClockSpans, |DottedClocks|)
    ensures ReadSplicedUnshifted(DottedClocks, TwoClockSpans, TimeOfDayTerm, 2) == Err(ValueError("odzi"))
  {
    assert DottedClocks[0..4] == "1" + ['.'] + "05" + "";
    assert ValueOf("1") == 1;
    TimeOfDayRead("1", '.', "05", "");
    OdziRefused();
    SecondReadFromFirst(DottedClocks, TwoClockSpans, TimeOfDayTerm, "jedna godzina " + "05");
  }

  lemma PlainTimeOfDay(h: string, m: string)
    requires IsDecimal(h) && IsDecimal(m)
    ensures TimeOfDayTerm(h + ":" + m) == Ok(if ValueOf(h) == 1 then "jedna godzina " + m else h + " godzina " + m)
  {
    TimeOfDayRead(h, ':', m, "");
    assert h + [':'] + m + "" == h + ":" + m;
  }
}
