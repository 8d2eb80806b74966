/** Weekday and month expansion: `_weekday_op` and `_month_op` replace each
    abbreviation the detector finds in a token by its full form, at the
    match's position shifted by the length change of the earlier
    replacements (`offset`), and remove every dot from the token when the
    net length change is positive. The two ops differ only in their table,
    so the pass is written once over a lookup. */
module Expansion {
  import opened PyStrings
  import opened Outcomes
  import opened Tables
  import opened Spans
  import opened Dates

  /** What a match becomes: its full form when the lookup finds one, else itself. */
  function TermOf(lookup: string -> Option<string>, piece: string): string {
    if lookup(piece).Some? then lookup(piece).value else piece
  }

  /** The terms of all matches of `word`. */
  function ExpandTerms(word: string, spans: seq<Span>, lookup: string -> Option<string>): (terms: seq<string>)
    requires WellFormed(spans, |word|)
    ensures |terms| == |spans|
    ensures forall i :: 0 <= i < |spans| ==> terms[i] == TermOf(lookup, Piece(word, spans, i))
  {
    seq(|spans|, i requires 0 <= i < |spans| => TermOf(lookup, word[spans[i].start..spans[i].end]))
  }

  /** The token after expansion: every match replaced by its term, then every
      dot removed when the replacements made the token longer. */
  function Expanded(word: string, spans: seq<Span>, lookup: string -> Option<string>): string
    requires WellFormed(spans, |word|)
  {
    var terms := ExpandTerms(word, spans, lookup);
    var s := Spliced(word, spans, terms);
    if Drift(spans, terms, |spans|) > 0 then Without(s, '.') else s
  }

  /** The lookup of `_weekday_op` as written: the match with its dots removed. */
  function WeekdayAsWritten(piece: string): Option<string> {
    var key := Without(piece, '.');
    if key in WEEKDAY then Some(WEEKDAY[key]) else None
  }

  /** The lookup of `_month_op` as written. */
  function MonthNameAsWritten(piece: string): Option<string> {
    var key := Without(piece, '.');
    if key in MONTH then Some(MONTH[key]) else None
  }

  /** The corrected weekday lookup: the match itself, dot included, is the key. */
  function Weekday(piece: string): Option<string> {
    if piece in WEEKDAY then Some(WEEKDAY[piece]) else None
  }

  /** The corrected month lookup. */
  function MonthName(piece: string): Option<string> {
    if piece in MONTH then Some(MONTH[piece]) else None
  }

  /** The loop of `_weekday_op` / `_month_op`: `spans` are the detector's
      matches in `word`, `lookup` the table lookup of a matched text. */
  method ExpandOp(word: string, spans: seq<Span>, lookup: string -> Option<string>) returns (r: string)
    requires WellFormed(spans, |word|)
    ensures r == Expanded(word, spans, lookup)
  {
    ghost var terms := ExpandTerms(word, spans, lookup);
    ScanEnds(word, spans, terms);
    var cur := word;
    var offset := 0;
    for k := 0 to |spans|
      invariant cur == ScanState(word, spans, terms, k)
      invariant offset == Drift(spans, terms, k)
    {
      cur, offset := ExpandAt(word, spans, lookup, terms, k, cur, offset);
    }
    if offset > 0 {
      r := Without(cur, '.');
    } else {
      r := cur;
    }
  }

  /** One pass of the loop body: look the match up at its shifted bounds and,
      when found, splice its full form in and update `offset`. */
  method ExpandAt(word: string, spans: seq<Span>, lookup: string -> Option<string>, ghost terms: seq<string>,
                  k: nat, cur: string, offset: int) returns (next: string, nextOffset: int)
    requires WellFormed(spans, |word|) && terms == ExpandTerms(word, spans, lookup) && k < |spans|
    requires cur == ScanState(word, spans, terms, k)
    requires offset == Drift(spans, terms, k)
    ensures next == ScanState(word, spans, terms, k + 1)
    ensures nextOffset == Drift(spans, terms, k + 1)
  {
    ExpandRound(word, spans, terms, k, cur, offset);
    var piece := cur[spans[k].start + offset..spans[k].end + offset];
    var full := lookup(piece);
    if full.Some? {
      next := cur[..spans[k].start + offset] + full.value + cur[spans[k].end + offset..];
      nextOffset := offset + |full.value| - (spans[k].end - spans[k].start);
    } else {
      next, nextOffset := cur, offset;
    }
  }

  /** One round of `ExpandOp`: the shifted bounds hold the original match,
      cutting there and putting the term between gives the next state, and
      leaving the text as it is amounts to putting the match back. */
  lemma ExpandRound(word: string, spans: seq<Span>, terms: seq<string>, k: nat, cur: string, offset: int)
    requires WellFormed(spans, |word|) && |terms| == |spans| && k < |spans|
    requires cur == SplicedPrefix(word, spans, terms, k) + word[ResumeAt(spans, k)..]
    requires offset == Drift(spans, terms, k)
    ensures 0 <= spans[k].start + offset <= spans[k].end + offset <= |cur|
    ensures cur[spans[k].start + offset..spans[k].end + offset] == Piece(word, spans, k)
    ensures cur[..spans[k].start + offset] + terms[k] + cur[spans[k].end + offset..]
            == SplicedPrefix(word, spans, terms, k + 1) + word[ResumeAt(spans, k + 1)..]
    ensures offset + |terms[k]| - (spans[k].end - spans[k].start) == Drift(spans, terms, k + 1)
    ensures cur[..spans[k].start + offset] + cur[spans[k].start + offset..spans[k].end + offset]
            + cur[spans[k].end + offset..] == cur
  {
    SplicedPrefixLength(word, spans, terms, k);
    ShiftedPiece(word, spans, terms, k, SplicedPrefix(word, spans, terms, k), cur);
    SpliceRound(word, spans, terms, k, cur, offset);
    CutTwice(cur, spans[k].start + offset, spans[k].end + offset);
  }

  // ---------------------------------------------------------------------
  // Facts

  /** A token whose every match is its own term (the lookup finds nothing, or
      finds the match itself) comes back unchanged. */
  lemma NothingFoundKeepsWord(word: string, spans: seq<Span>, lookup: string -> Option<string>)
    requires WellFormed(spans, |word|)
    requires forall i :: 0 <= i < |spans| ==> TermOf(lookup, Piece(word, spans, i)) == Piece(word, spans, i)
    ensures Expanded(word, spans, lookup) == word
  {
    var terms := ExpandTerms(word, spans, lookup);
    SplicedIdentity(word, spans, terms);
    DriftZero(spans, terms, |spans|);
  }

  /** When every match is found and every full form is longer than its match,
      the token is the spliced text with every dot removed. */
  lemma LongerFormsDropDots(word: string, spans: seq<Span>, lookup: string -> Option<string>)
    requires WellFormed(spans, |word|) && |spans| > 0
    requires forall i :: 0 <= i < |spans| ==>
               lookup(Piece(word, spans, i)).Some? && |lookup(Piece(word, spans, i)).value| > |Piece(word, spans, i)|
    ensures Expanded(word, spans, lookup) == Without(Spliced(word, spans, ExpandTerms(word, spans, lookup)), '.')
    ensures '.' !in Expanded(word, spans, lookup)
  {
    var terms := ExpandTerms(word, spans, lookup);
    DriftAtLeast(spans, terms, |spans|);
    MapCharRemoves(Spliced(word, spans, terms), '.', []);
  }

  /** Each replacement longer than its span adds at least one to the drift. */
  lemma {:induction false} DriftAtLeast(spans: seq<Span>, terms: seq<string>, k: nat)
    requires |terms| == |spans| && k <= |spans|
    requires forall i :: 0 <= i < k ==> |terms[i]| > spans[i].end - spans[i].start
    ensures Drift(spans, terms, k) >= k
  {
    if k > 0 {
      DriftAtLeast(spans, terms, k - 1);
    }
  }

  /** Every WEEKDAY key ends in a dot. */
  lemma WeekdayKeyDotted(key: string)
    ensures key in WEEKDAY ==> '.' in key
  {
  }

  /** As written, the weekday lookup never finds anything: the key it builds has
      no dot and every WEEKDAY key has one. */
  lemma WeekdayAsWrittenFindsNothing(piece: string)
    ensures WeekdayAsWritten(piece).None?
  {
    MapCharRemoves(piece, '.', []);
    WeekdayKeyDotted(Without(piece, '.'));
  }

  /** As written, `_weekday_op` gives every token back unchanged. */
  lemma WeekdayOpAsWrittenKeeps(word: string, spans: seq<Span>)
    requires WellFormed(spans, |word|)
    ensures Expanded(word, spans, WeekdayAsWritten) == word
  {
    forall i | 0 <= i < |spans| ensures TermOf(WeekdayAsWritten, Piece(word, spans, i)) == Piece(word, spans, i) {
      WeekdayAsWrittenFindsNothing(Piece(word, spans, i));
    }
    NothingFoundKeepsWord(word, spans, WeekdayAsWritten);
  }

  /** Every full form of WEEKDAY is longer than its abbreviation. */
  lemma WeekdayLonger(key: string)
    ensures key in WEEKDAY ==> |WEEKDAY[key]| > |key|
  {
  }

  /** With the corrected lookup, a token whose matches are all weekday
      abbreviations has each replaced by its full form and loses its dots. */
  lemma WeekdayOpExpands(word: string, spans: seq<Span>)
    requires WellFormed(spans, |word|) && |spans| > 0
    requires forall i :: 0 <= i < |spans| ==> Piece(word, spans, i) in WEEKDAY
    ensures var terms := ExpandTerms(word, spans, Weekday);
            && (forall i :: 0 <= i < |spans| ==> terms[i] == WEEKDAY[Piece(word, spans, i)])
            && Expanded(word, spans, Weekday) == Without(Spliced(word, spans, terms), '.')
  {
    forall i | 0 <= i < |spans|
      ensures Weekday(Piece(word, spans, i)).Some?
      ensures |Weekday(Piece(word, spans, i)).value| > |Piece(word, spans, i)|
    {
      WeekdayLonger(Piece(word, spans, i));
    }
    LongerFormsDropDots(word, spans, Weekday);
  }

  /** A token whose one match is its first `n` characters: the match becomes
      its term, followed by the rest of the token, and every dot goes when the
      term is longer than the match. */
  lemma LeadingMatch(word: string, n: nat, lookup: string -> Option<string>)
    requires n <= |word|
    ensures WellFormed([Span(0, n)], |word|)
    ensures var t := TermOf(lookup, word[..n]);
            Expanded(word, [Span(0, n)], lookup) == if |t| > n then Without(t + word[n..], '.') else t + word[n..]
  {
    var spans := [Span(0, n)];
    var terms := ExpandTerms(word, spans, lookup);
    assert word[0..n] == word[..n];
    assert terms[0] == TermOf(lookup, word[..n]);
    assert SplicedPrefix(word, spans, terms, 1) == terms[0];
    assert Spliced(word, spans, terms) == terms[0] + word[n..];
    assert Drift(spans, terms, 1) == |terms[0]| - n;
  }

  /** A MONTH key without a dot is a full name and stands for itself. */
  lemma NameStandsForItself(name: string)
    requires name in MONTH_NAMES
    ensures name in MONTH && MONTH[name] == name
  {
  }

  /** The month abbreviations with their dot. */
  const DOTTED_KEYS: set<string> := {"sty.", "lut.", "mar.", "kwi.", "cze.", "lip.", "sie.", "wrz.", "paź.", "lis.", "gru."}

  /** A MONTH key is a full name or an abbreviation with its dot. */
  lemma MonthKeyCases(key: string)
    ensures key in MONTH ==> key in MONTH_NAMES || key in DOTTED_KEYS
  {
  }

  /** An abbreviation with its dot is a dotless abbreviation followed by the dot. */
  lemma DottedKeyForm(key: string)
    requires key in DOTTED_KEYS
    ensures |key| > 0 && key == key[..|key| - 1] + "." && key[..|key| - 1] in DOTLESS_ABBREVIATIONS
  {
    if key == "sty." {
      assert key[..|key| - 1] == "sty";
    } else if key == "lut." {
      assert key[..|key| - 1] == "lut";
    } else if key == "mar." {
      assert key[..|key| - 1] == "mar";
    } else if key == "kwi." {
      assert key[..|key| - 1] == "kwi";
    } else if key == "cze." {
      assert key[..|key| - 1] == "cze";
    } else if key == "lip." {
      assert key[..|key| - 1] == "lip";
    } else if key == "sie." {
      assert key[..|key| - 1] == "sie";
    } else if key == "wrz." {
      assert key[..|key| - 1] == "wrz";
    } else if key == "paź." {
      assert key[..|key| - 1] == "paź";
    } else if key == "lis." {
      assert key[..|key| - 1] == "lis";
    } else if key == "gru." {
      assert key[..|key| - 1] == "gru";
    }
  }

  /** As written, the month lookup of a MONTH key gives the key back or nothing. */
  lemma MonthAsWrittenKeepsKey(p: string)
    requires p in MONTH
    ensures TermOf(MonthNameAsWritten, p) == p
  {
    MonthKeyCases(p);
    if p in MONTH_NAMES {
      NameKeptAsWritten(p);
    } else {
      AbbreviationKeptAsWritten(p);
    }
  }

  /** A full name is looked up as itself and stands for itself. */
  lemma NameKeptAsWritten(p: string)
    requires p in MONTH_NAMES
    ensures TermOf(MonthNameAsWritten, p) == p
  {
    NameShape(p);
    MapCharAbsent(p, '.', []);
    NameStandsForItself(p);
  }

  /** An abbreviation loses its dot and then is no key. */
  lemma AbbreviationKeptAsWritten(p: string)
    requires p in DOTTED_KEYS
    ensures TermOf(MonthNameAsWritten, p) == p
  {
    DottedKeyForm(p);
    var a := p[..|p| - 1];
    DotlessShape(a);
    MapCharConcat(a, ".", '.', []);
    MapCharAbsent(a, '.', []);
    DotlessNotName(a);
    assert Without(p, '.') == a;
  }

  /** As written, `_month_op` gives back every token whose matches are MONTH keys. */
  lemma MonthOpAsWrittenKeeps(word: string, spans: seq<Span>)
    requires WellFormed(spans, |word|)
    requires forall i :: 0 <= i < |spans| ==> Piece(word, spans, i) in MONTH
    ensures Expanded(word, spans, MonthNameAsWritten) == word
  {
    forall i | 0 <= i < |spans| ensures TermOf(MonthNameAsWritten, Piece(word, spans, i)) == Piece(word, spans, i) {
      MonthAsWrittenKeepsKey(Piece(word, spans, i));
    }
    NothingFoundKeepsWord(word, spans, MonthNameAsWritten);
  }

  // DETECT_WEEKDAY and DETECT_MONTH close with `\b`, which does not hold
  // between a final '.' and the end of the token: "śr." or "sty." alone is
  // not matched at all and is kept with either lookup. The examples below put
  // a digit after the dot, where the boundary holds; the span [0, 3) or
  // [0, 4) is the one the pattern reports on them.

  /** "śr.8", whose match is "śr.", reads "środa8" with the corrected lookup
      and stays "śr.8" as written. */
  lemma WednesdayRead()
    ensures Expanded("śr.8", [Span(0, 3)], Weekday) == "środa8"
    ensures Expanded("śr.8", [Span(0, 3)], WeekdayAsWritten) == "śr.8"
  {
    assert "śr.8"[..3] == "śr." && "śr.8"[3..] == "8";
    WednesdayKey();
    LeadingMatch("śr.8", 3, Weekday);
    MapCharAbsent("środa" + "8", '.', []);
    WeekdayOpAsWrittenKeeps("śr.8", [Span(0, 3)]);
  }

  /** "sty.2023", whose match is "sty.", reads "styczeń2023" with the
      corrected lookup. */
  lemma JanuaryRead()
    ensures Expanded("sty.2023", [Span(0, 4)], MonthName) == "styczeń2023"
  {
    assert "sty.2023"[..4] == "sty." && "sty.2023"[4..] == "2023";
    JanuaryKey();
    LeadingMatch("sty.2023", 4, MonthName);
    MapCharAbsent("styczeń" + "2023", '.', []);
  }

  /** As written, "sty.2023" stays "sty.2023". */
  lemma JanuaryKeptAsWritten()
    ensures Expanded("sty.2023", [Span(0, 4)], MonthNameAsWritten) == "sty.2023"
  {
    assert Piece("sty.2023", [Span(0, 4)], 0) == "sty.";
    MonthOpAsWrittenKeeps("sty.2023", [Span(0, 4)]);
  }

  lemma WednesdayKey()
    ensures TermOf(Weekday, "śr.") == "środa"
  {
    assert "śr." in WEEKDAY;
  }

  lemma JanuaryKey()
    ensures TermOf(MonthName, "sty.") == "styczeń"
  {
    assert "sty." in MONTH;
  }
}
