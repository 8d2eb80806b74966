/** Match spans as a regular-expression scan reports them, and the
    scan-and-splice every rewriting pass performs: each span of the ORIGINAL
    text is replaced by a term, the text between spans is kept, and the
    position of a later span in the rewritten text is its original position
    plus the net length change (the drift) of the replacements before it. */
module Spans {
  import opened Outcomes

  /** `[start, end)` of one match. */
  datatype Span = Span(start: nat, end: nat)

  /** What `finditer` guarantees: every span in bounds, in order, not overlapping. */
  predicate WellFormed(spans: seq<Span>, n: nat) {
    && (forall k :: 0 <= k < |spans| ==> spans[k].start <= spans[k].end <= n)
    && (forall k, l :: 0 <= k < l < |spans| ==> spans[k].end <= spans[l].start)
  }

  /** The text of span `k`. */
  function Piece(text: string, spans: seq<Span>, k: nat): string
    requires WellFormed(spans, |text|) && k < |spans|
  {
    text[spans[k].start..spans[k].end]
  }

  /** Where the untouched text resumes after the first `k` spans. */
  function ResumeAt(spans: seq<Span>, k: nat): nat
    requires k <= |spans|
  {
    if k == 0 then 0 else spans[k - 1].end
  }

  /** The first `k` gaps and replacement terms, in order. */
  function SplicedPrefix(text: string, spans: seq<Span>, terms: seq<string>, k: nat): string
    requires WellFormed(spans, |text|) && |terms| == |spans| && k <= |spans|
  {
    if k == 0 then []
    else SplicedPrefix(text, spans, terms, k - 1)
         + text[ResumeAt(spans, k - 1)..spans[k - 1].start] + terms[k - 1]
  }

  /** The text with every span replaced by its term. */
  function Spliced(text: string, spans: seq<Span>, terms: seq<string>): string
    requires WellFormed(spans, |text|) && |terms| == |spans|
  {
    SplicedPrefix(text, spans, terms, |spans|) + text[ResumeAt(spans, |spans|)..]
  }

  /** The net length change of the first `k` replacements. */
  function Drift(spans: seq<Span>, terms: seq<string>, k: nat): int
    requires |terms| == |spans| && k <= |spans|
  {
    if k == 0 then 0
    else Drift(spans, terms, k - 1) + |terms[k - 1]| - (spans[k - 1].end - spans[k - 1].start)
  }

  lemma {:induction false} ResumeBeforeStart(text: string, spans: seq<Span>, k: nat)
    requires WellFormed(spans, |text|) && k < |spans|
    ensures ResumeAt(spans, k) <= spans[k].start
  {
    if k > 0 {
      assert spans[k - 1].end <= spans[k].start;
    }
  }

  /** The spliced prefix is exactly as long as the text it stands for plus the drift. */
  lemma {:induction false} SplicedPrefixLength(text: string, spans: seq<Span>, terms: seq<string>, k: nat)
    requires WellFormed(spans, |text|) && |terms| == |spans| && k <= |spans|
    ensures |SplicedPrefix(text, spans, terms, k)| == ResumeAt(spans, k) + Drift(spans, terms, k)
  {
    if k > 0 {
      SplicedPrefixLength(text, spans, terms, k - 1);
      ResumeBeforeStart(text, spans, k - 1);
    }
  }

  /** A longer spliced prefix extends a shorter one. */
  lemma {:induction false} SplicedPrefixGrows(text: string, spans: seq<Span>, terms: seq<string>, k: nat, m: nat)
    requires WellFormed(spans, |text|) && |terms| == |spans| && k <= m <= |spans|
    ensures |SplicedPrefix(text, spans, terms, k)| <= |SplicedPrefix(text, spans, terms, m)|
    ensures SplicedPrefix(text, spans, terms, m)[..|SplicedPrefix(text, spans, terms, k)|]
            == SplicedPrefix(text, spans, terms, k)
    decreases m - k
  {
    if k < m {
      SplicedPrefixGrows(text, spans, terms, k, m - 1);
      var p := SplicedPrefix(text, spans, terms, m - 1);
      var q := SplicedPrefix(text, spans, terms, k);
      assert SplicedPrefix(text, spans, terms, m)[..|p|] == p;
      assert p[..|q|] == q;
    }
  }

  /** Where the scan writes term `k`: at the span's original start plus the drift
      of the replacements before it. */
  lemma TermPlacement(text: string, spans: seq<Span>, terms: seq<string>, k: nat)
    requires WellFormed(spans, |text|) && |terms| == |spans| && k < |spans|
    ensures 0 <= spans[k].start + Drift(spans, terms, k)
    ensures spans[k].start + Drift(spans, terms, k) + |terms[k]| <= |Spliced(text, spans, terms)|
    ensures Spliced(text, spans, terms)[spans[k].start + Drift(spans, terms, k)..
                                        spans[k].start + Drift(spans, terms, k) + |terms[k]|] == terms[k]
  {
    SplicedPrefixLength(text, spans, terms, k);
    PrefixUnfold(text, spans, terms, k);
    PrefixOfSpliced(text, spans, terms, k + 1);
    PartsOf(Spliced(text, spans, terms), SplicedPrefix(text, spans, terms, k + 1),
            SplicedPrefix(text, spans, terms, k), text[ResumeAt(spans, k)..spans[k].start], terms[k]);
  }

  /** The text between two spans is kept, right before the later span's term. */
  lemma GapPlacement(text: string, spans: seq<Span>, terms: seq<string>, k: nat)
    requires WellFormed(spans, |text|) && |terms| == |spans| && k < |spans|
    ensures 0 <= ResumeAt(spans, k) + Drift(spans, terms, k) <= spans[k].start + Drift(spans, terms, k)
    ensures spans[k].start + Drift(spans, terms, k) <= |Spliced(text, spans, terms)|
    ensures Spliced(text, spans, terms)[ResumeAt(spans, k) + Drift(spans, terms, k)..
                                        spans[k].start + Drift(spans, terms, k)]
            == text[ResumeAt(spans, k)..spans[k].start]
  {
    SplicedPrefixLength(text, spans, terms, k);
    PrefixUnfold(text, spans, terms, k);
    PrefixOfSpliced(text, spans, terms, k + 1);
    var r := Spliced(text, spans, terms);
    var p := SplicedPrefix(text, spans, terms, k);
    var gap := text[ResumeAt(spans, k)..spans[k].start];
    PartsOf(r, SplicedPrefix(text, spans, terms, k + 1), p, gap, terms[k]);
    assert |p| + |gap| == spans[k].start + Drift(spans, terms, k);
  }

  lemma PrefixUnfold(text: string, spans: seq<Span>, terms: seq<string>, k: nat)
    requires WellFormed(spans, |text|) && |terms| == |spans| && k < |spans|
    ensures ResumeAt(spans, k) <= spans[k].start
    ensures SplicedPrefix(text, spans, terms, k + 1)
            == SplicedPrefix(text, spans, terms, k) + text[ResumeAt(spans, k)..spans[k].start] + terms[k]
  {
    ResumeBeforeStart(text, spans, k);
  }

  /** Every spliced prefix begins the spliced text. */
  lemma PrefixOfSpliced(text: string, spans: seq<Span>, terms: seq<string>, k: nat)
    requires WellFormed(spans, |text|) && |terms| == |spans| && k <= |spans|
    ensures |SplicedPrefix(text, spans, terms, k)| <= |Spliced(text, spans, terms)|
    ensures Spliced(text, spans, terms)[..|SplicedPrefix(text, spans, terms, k)|]
            == SplicedPrefix(text, spans, terms, k)
  {
    SplicedPrefixGrows(text, spans, terms, k, |spans|);
    var whole := SplicedPrefix(text, spans, terms, |spans|);
    var r := Spliced(text, spans, terms);
    assert r[..|whole|] == whole;
  }

  lemma PartsOf(r: string, p1: string, p: string, gap: string, t: string)
    requires p1 == p + gap + t && |p1| <= |r| && r[..|p1|] == p1
    ensures |p| + |gap| + |t| <= |r|
    ensures r[|p| + |gap|..|p| + |gap| + |t|] == t
    ensures r[|p|..|p| + |gap|] == gap
  {
    assert r[|p| + |gap|..|p| + |gap| + |t|] == p1[|p| + |gap|..|p1|];
    assert r[|p|..|p| + |gap|] == p1[|p|..|p| + |gap|];
  }

  /** The text after the last span is kept, at the end of the result. */
  lemma TailKept(text: string, spans: seq<Span>, terms: seq<string>)
    requires WellFormed(spans, |text|) && |terms| == |spans|
    ensures var r := Spliced(text, spans, terms);
            var tail := text[ResumeAt(spans, |spans|)..];
            |tail| <= |r| && r[|r| - |tail|..] == tail
  {
  }

  /** Replacing every span by its own text changes nothing. */
  lemma {:induction false} SplicedIdentity(text: string, spans: seq<Span>, terms: seq<string>)
    requires WellFormed(spans, |text|) && |terms| == |spans|
    requires forall k :: 0 <= k < |spans| ==> terms[k] == Piece(text, spans, k)
    ensures Spliced(text, spans, terms) == text
  {
    IdentityPrefix(text, spans, terms, |spans|);
    assert text == text[..ResumeAt(spans, |spans|)] + text[ResumeAt(spans, |spans|)..];
  }

  lemma {:induction false} IdentityPrefix(text: string, spans: seq<Span>, terms: seq<string>, k: nat)
    requires WellFormed(spans, |text|) && |terms| == |spans| && k <= |spans|
    requires forall j :: 0 <= j < |spans| ==> terms[j] == Piece(text, spans, j)
    ensures SplicedPrefix(text, spans, terms, k) == text[..ResumeAt(spans, k)]
  {
    if k > 0 {
      IdentityPrefix(text, spans, terms, k - 1);
      PrefixUnfold(text, spans, terms, k - 1);
      assert terms[k - 1] == Piece(text, spans, k - 1);
      SliceJoin(text, ResumeAt(spans, k - 1), spans[k - 1].start, spans[k - 1].end);
    }
  }

  lemma SliceJoin(s: string, a: nat, b: nat, c: nat)
    requires a <= b <= c <= |s|
    ensures s[..c] == s[..a] + s[a..b] + s[b..c]
  {
  }

  /** One step of the scan: with the first `k` terms spliced in and `Drift` the
      length change so far, cutting the current text at span `k`'s shifted
      bounds and putting term `k` between gives the state after `k + 1` terms. */
  lemma SpliceStep(text: string, spans: seq<Span>, terms: seq<string>, k: nat, cur: string)
    requires WellFormed(spans, |text|) && |terms| == |spans| && k < |spans|
    requires cur == SplicedPrefix(text, spans, terms, k) + text[ResumeAt(spans, k)..]
    ensures 0 <= spans[k].start + Drift(spans, terms, k) <= spans[k].end + Drift(spans, terms, k) <= |cur|
    ensures cur[..spans[k].start + Drift(spans, terms, k)] + terms[k] + cur[spans[k].end + Drift(spans, terms, k)..]
            == SplicedPrefix(text, spans, terms, k + 1) + text[ResumeAt(spans, k + 1)..]
  {
    SplicedPrefixLength(text, spans, terms, k);
    PrefixUnfold(text, spans, terms, k);
    SpliceArith(cur, SplicedPrefix(text, spans, terms, k), text, ResumeAt(spans, k),
                spans[k].start, spans[k].end, Drift(spans, terms, k), terms[k],
                SplicedPrefix(text, spans, terms, k + 1));
  }

  /** `SpliceStep` with the running length change kept in a variable, as the
      passes keep it: `diff` after the step is `Drift` of one more term. */
  lemma SpliceRound(text: string, spans: seq<Span>, terms: seq<string>, k: nat, cur: string, diff: int)
    requires WellFormed(spans, |text|) && |terms| == |spans| && k < |spans|
    requires cur == SplicedPrefix(text, spans, terms, k) + text[ResumeAt(spans, k)..]
    requires diff == Drift(spans, terms, k)
    ensures 0 <= spans[k].start + diff <= spans[k].end + diff <= |cur|
    ensures cur[..spans[k].start + diff] + terms[k] + cur[spans[k].end + diff..]
            == SplicedPrefix(text, spans, terms, k + 1) + text[ResumeAt(spans, k + 1)..]
    ensures |terms[k]| - (spans[k].end - (spans[k].start + diff)) == Drift(spans, terms, k + 1)
  {
    SpliceStep(text, spans, terms, k, cur);
  }

  lemma SpliceArith(cur: string, p: string, text: string, a: nat, st: nat, en: nat, d: int, t: string, q: string)
    requires a <= st <= en <= |text| && cur == p + text[a..] && |p| == a + d
    requires q == p + text[a..st] + t
    ensures 0 <= st + d <= en + d <= |cur|
    ensures cur[..st + d] + t + cur[en + d..] == q + text[en..]
  {
    ThreeParts(text, a, st, en);
    CutAt(cur, p, text[a..st], text[st..en], text[en..], t, st + d, en + d);
  }

  /** Cutting a text at two points and joining the three parts gives it back. */
  lemma CutTwice(s: string, a: int, b: int)
    requires 0 <= a <= b <= |s|
    ensures s[..a] + s[a..b] + s[b..] == s
  {
  }

  lemma ThreeParts(s: string, a: nat, b: nat, c: nat)
    requires a <= b <= c <= |s|
    ensures s[a..] == s[a..b] + s[b..c] + s[c..]
  {
  }

  /** Cutting the middle part `x` out of a four-part text and putting `t` in its place. */
  lemma CutAt(cur: string, p: string, g: string, x: string, tl: string, t: string, s: int, e: int)
    requires cur == p + (g + x + tl) && s == |p| + |g| && e == s + |x|
    ensures 0 <= s <= e <= |cur|
    ensures cur[..s] + t + cur[e..] == p + g + t + tl
  {
    assert cur[..s] == p + g;
    assert cur[e..] == tl;
  }

  /** The texts of all spans, in order: what `group(0)` gives for each match. */
  function Pieces(text: string, spans: seq<Span>): (ps: seq<string>)
    requires WellFormed(spans, |text|)
    ensures |ps| == |spans|
    ensures forall k :: 0 <= k < |spans| ==> ps[k] == Piece(text, spans, k)
  {
    seq(|spans|, k requires 0 <= k < |spans| => text[spans[k].start..spans[k].end])
  }

  /** The scan after `k` spans: the first `k` gaps and terms, then the text
      not yet scanned. */
  function ScanState(text: string, spans: seq<Span>, terms: seq<string>, k: nat): string
    requires WellFormed(spans, |text|) && |terms| == |spans| && k <= |spans|
  {
    SplicedPrefix(text, spans, terms, k) + text[ResumeAt(spans, k)..]
  }

  /** Replacing span `k` at its shifted bounds in the scan after `k` spans
      gives the scan after `k + 1`. */
  lemma ScanStep(text: string, spans: seq<Span>, terms: seq<string>, k: nat)
    requires WellFormed(spans, |text|) && |terms| == |spans| && k < |spans|
    ensures var cur := ScanState(text, spans, terms, k);
            var d := Drift(spans, terms, k);
            && 0 <= spans[k].start + d <= spans[k].end + d <= |cur|
            && cur[..spans[k].start + d] + terms[k] + cur[spans[k].end + d..] == ScanState(text, spans, terms, k + 1)
  {
    SpliceStep(text, spans, terms, k, ScanState(text, spans, terms, k));
  }

  /** Before the first span the scan state is the text itself; after the last
      it is the spliced text. */
  lemma ScanEnds(text: string, spans: seq<Span>, terms: seq<string>)
    requires WellFormed(spans, |text|) && |terms| == |spans|
    ensures ScanState(text, spans, terms, 0) == text
    ensures ScanState(text, spans, terms, |spans|) == Spliced(text, spans, terms)
  {
    assert text[0..] == text;
  }

  /** Replacements that keep their span's length leave every later span where it was. */
  lemma {:induction false} DriftZero(spans: seq<Span>, terms: seq<string>, k: nat)
    requires |terms| == |spans| && k <= |spans|
    requires forall i :: 0 <= i < k ==> |terms[i]| == spans[i].end - spans[i].start
    ensures Drift(spans, terms, k) == 0
  {
    if k > 0 {
      DriftZero(spans, terms, k - 1);
    }
  }

  /** Midway through the scan, the current text read at span `k`'s shifted
      bounds is still the original text of span `k`: `p` is the text written
      so far, as long as the text it stands for plus the drift. */
  lemma ShiftedPiece(text: string, spans: seq<Span>, terms: seq<string>, k: nat, p: string, cur: string)
    requires WellFormed(spans, |text|) && |terms| == |spans| && k < |spans|
    requires cur == p + text[ResumeAt(spans, k)..] && |p| == ResumeAt(spans, k) + Drift(spans, terms, k)
    ensures 0 <= spans[k].start + Drift(spans, terms, k) <= spans[k].end + Drift(spans, terms, k) <= |cur|
    ensures cur[spans[k].start + Drift(spans, terms, k)..spans[k].end + Drift(spans, terms, k)]
            == Piece(text, spans, k)
  {
    ResumeBeforeStart(text, spans, k);
    ReadAt(cur, p, text, ResumeAt(spans, k), spans[k].start, spans[k].end, Drift(spans, terms, k));
  }

  lemma ReadAt(cur: string, p: string, text: string, a: nat, st: nat, en: nat, d: int)
    requires a <= st <= en <= |text| && cur == p + text[a..] && |p| == a + d
    ensures 0 <= st + d <= en + d <= |cur|
    ensures cur[st + d..en + d] == text[st..en]
  {
    assert cur[st + d..en + d] == text[a..][st - a..en - a];
  }

  // ---------------------------------------------------------------------
  // A pass whose term may raise

  /** The terms of the first `k` elements, in order, or the error of the first
      element whose term fails: the loop stops at the first exception. */
  function Collect<X>(term: X -> Result<string>, xs: seq<X>, k: nat): (r: Result<seq<string>>)
    requires k <= |xs|
    ensures r.Ok? ==> |r.value| == k
  {
    if k == 0 then Ok([])
    else
      var before :- Collect(term, xs, k - 1);
      var t :- term(xs[k - 1]);
      Ok(before + [t])
  }

  /** Two elements whose terms succeed collect to those two terms. */
  lemma CollectTwo<X>(term: X -> Result<string>, xs: seq<X>, t0: string, t1: string)
    requires |xs| == 2 && term(xs[0]) == Ok(t0) && term(xs[1]) == Ok(t1)
    ensures Collect(term, xs, 2) == Ok([t0, t1])
  {
    assert Collect(term, xs, 0) == Ok([]);
    assert Collect(term, xs, 1) == Ok([] + [t0]);
    assert [] + [t0] + [t1] == [t0, t1];
  }

  /** The terms, with an empty string where a term fails. */
  function Padded<X>(term: X -> Result<string>, xs: seq<X>): (ts: seq<string>)
    ensures |ts| == |xs|
  {
    seq(|xs|, i requires 0 <= i < |xs| => if term(xs[i]).Ok? then term(xs[i]).value else [])
  }

  /** The scan of a pass: for each match in order compute its term, stop at the
      first failure, and otherwise splice the term in at the match's bounds
      shifted by `diff`, the length the text has gained so far. */
  method SpliceEach<X>(text: string, spans: seq<Span>, xs: seq<X>, term: X -> Result<string>) returns (r: Result<string>)
    requires WellFormed(spans, |text|) && |xs| == |spans|
    ensures r == (var terms :- Collect(term, xs, |xs|); Ok(Spliced(text, spans, terms)))
  {
    ghost var padded := Padded(term, xs);
    ScanEnds(text, spans, padded);
    var diff: int := 0;
    var cur := text;
    for k := 0 to |xs|
      invariant forall i :: 0 <= i < k ==> term(xs[i]).Ok?
      invariant cur == ScanState(text, spans, padded, k)
      invariant diff == Drift(spans, padded, k)
    {
      var t := term(xs[k]);
      if t.Err? {
        r := Err(t.error);
        FirstError(term, xs, k);
        return;
      }
      cur, diff := SpliceNext(text, spans, padded, k, cur, diff, t.value);
    }
    AllCollected(term, xs, |xs|);
    assert padded[..|xs|] == padded;
    r := Ok(cur);
  }

  /** One round of the scan: splice `t`, term `k`, in at span `k`'s bounds
      shifted by `diff`, and update `diff` as the passes do. */
  method SpliceNext(text: string, spans: seq<Span>, ghost terms: seq<string>, k: nat, cur: string, diff: int, t: string)
    returns (next: string, nextDiff: int)
    requires WellFormed(spans, |text|) && |terms| == |spans| && k < |spans| && terms[k] == t
    requires cur == ScanState(text, spans, terms, k) && diff == Drift(spans, terms, k)
    ensures next == ScanState(text, spans, terms, k + 1)
    ensures nextDiff == Drift(spans, terms, k + 1)
  {
    SpliceRound(text, spans, terms, k, cur, diff);
    next := cur[..spans[k].start + diff] + t + cur[spans[k].end + diff..];
    nextDiff := |t| - (spans[k].end - (spans[k].start + diff));
  }

  /** When every term of a prefix succeeds, the prefix collects them. */
  lemma {:induction false} AllCollected<X>(term: X -> Result<string>, xs: seq<X>, k: nat)
    requires k <= |xs| && forall i :: 0 <= i < k ==> term(xs[i]).Ok?
    ensures Collect(term, xs, k) == Ok(Padded(term, xs)[..k])
  {
    if k > 0 {
      AllCollected(term, xs, k - 1);
      assert Padded(term, xs)[..k] == Padded(term, xs)[..k - 1] + [Padded(term, xs)[k - 1]];
    }
  }

  lemma {:induction false} ErrorStays<X>(term: X -> Result<string>, xs: seq<X>, k: nat, m: nat)
    requires 0 < k <= m <= |xs|
    requires Collect(term, xs, k - 1).Ok? && term(xs[k - 1]).Err?
    ensures Collect(term, xs, m) == Err(term(xs[k - 1]).error)
    decreases m - k
  {
    if k < m {
      ErrorStays(term, xs, k, m - 1);
    }
  }

  /** The first term that fails decides the error of the whole pass. */
  lemma FirstError<X>(term: X -> Result<string>, xs: seq<X>, k: nat)
    requires k < |xs| && (forall i :: 0 <= i < k ==> term(xs[i]).Ok?) && term(xs[k]).Err?
    ensures Collect(term, xs, |xs|) == Err(term(xs[k]).error)
  {
    AllCollected(term, xs, k);
    ErrorStays(term, xs, k + 1, |xs|);
  }

  /** The pass succeeds exactly when every term does, and then collects them all. */
  lemma {:induction false} CollectOkIff<X>(term: X -> Result<string>, xs: seq<X>, k: nat)
    requires k <= |xs|
    ensures Collect(term, xs, k).Ok? <==> forall i :: 0 <= i < k ==> term(xs[i]).Ok?
  {
    if k > 0 {
      CollectOkIff(term, xs, k - 1);
    }
  }
}
