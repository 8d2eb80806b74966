/** Splicing at the ORIGINAL match positions, as `_timestamp_op` and
    `_timeofday_op` do: each term replaces `text[start:end]` of the CURRENT
    text, with no allowance for the length change of earlier replacements.
    The lemmas say when this agrees with the drift-correct splice of `Spans`. */
module InPlace {
  import opened PyStrings
  import opened Outcomes
  import opened Spans

  /** `s[:start] + t + s[end:]`. */
  function SpliceAt(s: string, sp: Span, t: string): string {
    Take(s, sp.start) + t + Drop(s, sp.end)
  }

  /** The text after the first `k` rounds of a pass that puts the term of
      match `i` (computed from `pieces[i]`) at match `i`'s ORIGINAL bounds, or
      the error of the first term that fails. */
  function SplicedUnshifted(text: string, spans: seq<Span>, pieces: seq<string>,
                            term: string -> Result<string>, k: nat): Result<string>
    requires |pieces| == |spans| && k <= |spans|
  {
    if k == 0 then Ok(text)
    else
      var prev :- SplicedUnshifted(text, spans, pieces, term, k - 1);
      var t :- term(pieces[k - 1]);
      Ok(SpliceAt(prev, spans[k - 1], t))
  }

  /** The same, but the term of match `i` is computed from what the CURRENT
      text holds at match `i`'s original bounds. */
  function ReadSplicedUnshifted(text: string, spans: seq<Span>, term: string -> Result<string>, k: nat): Result<string>
    requires k <= |spans|
  {
    if k == 0 then Ok(text)
    else
      var prev :- ReadSplicedUnshifted(text, spans, term, k - 1);
      var t :- term(Slice(prev, spans[k - 1].start, spans[k - 1].end));
      Ok(SpliceAt(prev, spans[k - 1], t))
  }

  method SpliceEachUnshifted(text: string, spans: seq<Span>, pieces: seq<string>, term: string -> Result<string>)
    returns (r: Result<string>)
    requires |pieces| == |spans|
    ensures r == SplicedUnshifted(text, spans, pieces, term, |spans|)
  {
    var cur := text;
    for k := 0 to |spans|
      invariant SplicedUnshifted(text, spans, pieces, term, k) == Ok(cur)
    {
      var t := term(pieces[k]);
      if t.Err? {
        r := Err(t.error);
        UnshiftedErrorStays(text, spans, pieces, term, k + 1, |spans|);
        return;
      }
      cur := Take(cur, spans[k].start) + t.value + Drop(cur, spans[k].end);
    }
    r := Ok(cur);
  }

  method ReadSpliceEachUnshifted(text: string, spans: seq<Span>, term: string -> Result<string>)
    returns (r: Result<string>)
    ensures r == ReadSplicedUnshifted(text, spans, term, |spans|)
  {
    var cur := text;
    for k := 0 to |spans|
      invariant ReadSplicedUnshifted(text, spans, term, k) == Ok(cur)
    {
      var t := term(Slice(cur, spans[k].start, spans[k].end));
      if t.Err? {
        r := Err(t.error);
        ReadErrorStays(text, spans, term, k + 1, |spans|);
        return;
      }
      cur := Take(cur, spans[k].start) + t.value + Drop(cur, spans[k].end);
    }
    r := Ok(cur);
  }

  lemma {:induction false} UnshiftedErrorStays(text: string, spans: seq<Span>, pieces: seq<string>,
                                               term: string -> Result<string>, k: nat, m: nat)
    requires |pieces| == |spans| && k <= m <= |spans|
    requires SplicedUnshifted(text, spans, pieces, term, k).Err?
    ensures SplicedUnshifted(text, spans, pieces, term, m) == SplicedUnshifted(text, spans, pieces, term, k)
    decreases m - k
  {
    if k < m {
      UnshiftedErrorStays(text, spans, pieces, term, k, m - 1);
    }
  }

  lemma {:induction false} ReadErrorStays(text: string, spans: seq<Span>, term: string -> Result<string>, k: nat, m: nat)
    requires k <= m <= |spans|
    requires ReadSplicedUnshifted(text, spans, term, k).Err?
    ensures ReadSplicedUnshifted(text, spans, term, m) == ReadSplicedUnshifted(text, spans, term, k)
    decreases m - k
  {
    if k < m {
      ReadErrorStays(text, spans, term, k, m - 1);
    }
  }

  // ---------------------------------------------------------------------
  // Where splicing at the original positions is right

  /** With the first `k` terms given, and each of them but the last keeping
      its match's length, putting each term at its match's original bounds is
      the drift-correct scan. */
  lemma {:induction false} UnshiftedAgreesUpTo(text: string, spans: seq<Span>, pieces: seq<string>,
                                               term: string -> Result<string>, terms: seq<string>, k: nat)
    requires WellFormed(spans, |text|) && |pieces| == |spans| && |terms| == |spans| && k <= |spans|
    requires forall i :: 0 <= i < k ==> term(pieces[i]) == Ok(terms[i])
    requires forall i :: 0 <= i < k - 1 ==> |terms[i]| == spans[i].end - spans[i].start
    ensures SplicedUnshifted(text, spans, pieces, term, k) == Ok(ScanState(text, spans, terms, k))
  {
    if k == 0 {
      ScanEnds(text, spans, terms);
    } else {
      UnshiftedAgreesUpTo(text, spans, pieces, term, terms, k - 1);
      DriftZero(spans, terms, k - 1);
      StepInPlace(text, spans, terms, k - 1, k);
      UnshiftedUnfold(text, spans, pieces, term, k, ScanState(text, spans, terms, k - 1), terms[k - 1]);
    }
  }

  /** The same for a pass that reads each match back from the current text:
      with no drift the current text still holds the match there. */
  lemma {:induction false} ReadAgreesUpTo(text: string, spans: seq<Span>, term: string -> Result<string>,
                                          terms: seq<string>, k: nat)
    requires WellFormed(spans, |text|) && |terms| == |spans| && k <= |spans|
    requires forall i :: 0 <= i < k ==> term(Piece(text, spans, i)) == Ok(terms[i])
    requires forall i :: 0 <= i < k - 1 ==> |terms[i]| == spans[i].end - spans[i].start
    ensures ReadSplicedUnshifted(text, spans, term, k) == Ok(ScanState(text, spans, terms, k))
  {
    if k == 0 {
      ScanEnds(text, spans, terms);
    } else {
      ReadAgreesUpTo(text, spans, term, terms, k - 1);
      DriftZero(spans, terms, k - 1);
      StepInPlace(text, spans, terms, k - 1, k);
      ReadInPlace(text, spans, terms, k - 1);
    }
  }

  lemma UnshiftedUnfold(text: string, spans: seq<Span>, pieces: seq<string>,
                        term: string -> Result<string>, k: nat, prev: string, t: string)
    requires |pieces| == |spans| && 0 < k <= |spans|
    requires SplicedUnshifted(text, spans, pieces, term, k - 1) == Ok(prev) && term(pieces[k - 1]) == Ok(t)
    ensures SplicedUnshifted(text, spans, pieces, term, k) == Ok(SpliceAt(prev, spans[k - 1], t))
  {
  }

  /** With no drift, splicing at the original bounds is one step of the scan. */
  lemma StepInPlace(text: string, spans: seq<Span>, terms: seq<string>, j: nat, k: nat)
    requires WellFormed(spans, |text|) && |terms| == |spans| && j < |spans| && k == j + 1
    requires Drift(spans, terms, j) == 0
    ensures SpliceAt(ScanState(text, spans, terms, j), spans[j], terms[j]) == ScanState(text, spans, terms, k)
  {
    SpliceStep(text, spans, terms, j, ScanState(text, spans, terms, j));
  }

  /** With no drift, the current text still holds match `k` at its original bounds. */
  lemma ReadInPlace(text: string, spans: seq<Span>, terms: seq<string>, k: nat)
    requires WellFormed(spans, |text|) && |terms| == |spans| && k < |spans|
    requires Drift(spans, terms, k) == 0
    ensures Slice(ScanState(text, spans, terms, k), spans[k].start, spans[k].end) == Piece(text, spans, k)
  {
    SplicedPrefixLength(text, spans, terms, k);
    ShiftedPiece(text, spans, terms, k, SplicedPrefix(text, spans, terms, k), ScanState(text, spans, terms, k));
  }

  /** When every term but the last keeps its match's length, the as-written
      splice gives the drift-correct text; in particular it always does for a
      text with a single match. */
  lemma UnshiftedAgrees(text: string, spans: seq<Span>, pieces: seq<string>, term: string -> Result<string>)
    requires WellFormed(spans, |text|) && |pieces| == |spans|
    requires Collect(term, pieces, |spans|).Ok?
    requires forall i :: 0 <= i < |spans| - 1 ==>
               |Collect(term, pieces, |spans|).value[i]| == spans[i].end - spans[i].start
    ensures SplicedUnshifted(text, spans, pieces, term, |spans|)
            == Ok(Spliced(text, spans, Collect(term, pieces, |spans|).value))
  {
    CollectOkIff(term, pieces, |spans|);
    AllCollected(term, pieces, |spans|);
    var padded := Padded(term, pieces);
    assert padded[..|spans|] == padded;
    UnshiftedAgreesUpTo(text, spans, pieces, term, padded, |spans|);
    ScanEnds(text, spans, padded);
  }

  /** `UnshiftedAgrees` for the pass that reads its matches back. */
  lemma ReadAgrees(text: string, spans: seq<Span>, term: string -> Result<string>)
    requires WellFormed(spans, |text|)
    requires Collect(term, Pieces(text, spans), |spans|).Ok?
    requires forall i :: 0 <= i < |spans| - 1 ==>
               |Collect(term, Pieces(text, spans), |spans|).value[i]| == spans[i].end - spans[i].start
    ensures ReadSplicedUnshifted(text, spans, term, |spans|)
            == Ok(Spliced(text, spans, Collect(term, Pieces(text, spans), |spans|).value))
  {
    var pieces := Pieces(text, spans);
    CollectOkIff(term, pieces, |spans|);
    AllCollected(term, pieces, |spans|);
    var padded := Padded(term, pieces);
    assert padded[..|spans|] == padded;
    ReadAgreesUpTo(text, spans, term, padded, |spans|);
    ScanEnds(text, spans, padded);
  }

  // ---------------------------------------------------------------------
  // Where splicing at the original positions goes wrong

  /** When the first match opens the text and its term runs past the start of
      the second match, the as-written splice writes the second term over the
      first: the character at the second match's original start is the second
      term's first character, where the drift-correct text still holds the
      first term; so the two texts differ whenever those characters do. */
  lemma SecondOverwritesFirst(text: string, spans: seq<Span>, pieces: seq<string>,
                              term: string -> Result<string>, t0: string, t1: string)
    requires WellFormed(spans, |text|) && |spans| == 2 && |pieces| == 2
    requires term(pieces[0]) == Ok(t0) && term(pieces[1]) == Ok(t1)
    requires spans[0].start == 0 && spans[1].start < |t0| && t1 != []
    ensures SplicedUnshifted(text, spans, pieces, term, 2).Ok?
    ensures spans[1].start < |SplicedUnshifted(text, spans, pieces, term, 2).value|
    ensures SplicedUnshifted(text, spans, pieces, term, 2).value[spans[1].start] == t1[0]
    ensures spans[1].start < |Spliced(text, spans, [t0, t1])|
    ensures Spliced(text, spans, [t0, t1])[spans[1].start] == t0[spans[1].start]
    ensures t1[0] != t0[spans[1].start] ==>
              SplicedUnshifted(text, spans, pieces, term, 2) != Ok(Spliced(text, spans, [t0, t1]))
  {
    UnshiftedUnfold(text, spans, pieces, term, 1, text, t0);
    var mid := SpliceAt(text, spans[0], t0);
    UnshiftedUnfold(text, spans, pieces, term, 2, mid, t1);
    var head := Take(mid, spans[1].start);
    assert |head| == spans[1].start;
    assert (head + t1 + Drop(mid, spans[1].end))[|head|] == t1[0];
    FirstTermKept(text, spans, [t0, t1]);
    assert Spliced(text, spans, [t0, t1])[..|t0|][spans[1].start] == t0[spans[1].start];
  }

  /** With the first match opening the text, the drift-correct text opens with its term. */
  lemma FirstTermKept(text: string, spans: seq<Span>, terms: seq<string>)
    requires WellFormed(spans, |text|) && |spans| == 2 && |terms| == 2 && spans[0].start == 0
    ensures |terms[0]| <= |Spliced(text, spans, terms)|
    ensures Spliced(text, spans, terms)[..|terms[0]|] == terms[0]
  {
    assert SplicedPrefix(text, spans, terms, 1) == terms[0];
  }

  /** When the first match opens the text and its term covers the second
      match's original bounds, the pass that reads its matches back reads the
      second one from inside the first term, and fails if the term refuses it. */
  lemma SecondReadFromFirst(text: string, spans: seq<Span>, term: string -> Result<string>, t0: string)
    requires WellFormed(spans, |text|) && |spans| == 2
    requires spans[0].start == 0 && term(Slice(text, 0, spans[0].end)) == Ok(t0)
    requires spans[1].end <= |t0|
    ensures term(t0[spans[1].start..spans[1].end]).Err? ==>
              ReadSplicedUnshifted(text, spans, term, 2) == Err(term(t0[spans[1].start..spans[1].end]).error)
  {
    var mid := SpliceAt(text, spans[0], t0);
    assert ReadSplicedUnshifted(text, spans, term, 1) == Ok(mid);
    assert Take(text, 0) == [];
    assert mid[..|t0|] == t0;
    assert Slice(mid, spans[1].start, spans[1].end) == t0[spans[1].start..spans[1].end];
  }
}
