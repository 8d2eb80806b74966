/** Acronyms: `_mask_acronym` and `_acronym_phoneme_op`. Both collect one
    (acronym, replacement) pair per detected acronym that is not excluded,
    then replace the first occurrence of each acronym in turn. */
module Acronyms {
  import opened PyStrings
  import opened Outcomes
  import opened Tables
  import opened Spans

  /** The text DETECT_ABBREVIATION matches: two or more capitals, or two or
      more capital-and-dot pairs. */
  predicate IsAcronymText(s: string) {
    || (|s| >= 2 && forall k :: 0 <= k < |s| ==> IsUpperPolish(s[k]))
    || (|s| >= 4 && |s| % 2 == 0 && forall k :: 0 <= k < |s| ==> AcronymCharAt(s, k))
  }

  predicate AcronymCharAt(s: string, k: int)
    requires 0 <= k < |s|
  {
    if k % 2 == 0 then IsUpperPolish(s[k]) else s[k] == '.'
  }

  /** The masked form of an acronym: its letters, dots removed, joined by SEP_MASK. */
  function Masked(abbr: string): string {
    Join([SEP_MASK], Chars(Without(abbr, '.')))
  }

  /** The pairs collected from the first `k` pieces: each piece not in EXCLUDE, with `f` of it. */
  function KeptPairs(ps: seq<string>, f: string -> string, k: nat): seq<(string, string)>
    requires k <= |ps|
  {
    if k == 0 then []
    else KeptPairs(ps, f, k - 1) + (if ps[k - 1] in EXCLUDE then [] else [(ps[k - 1], f(ps[k - 1]))])
  }

  /** The pairs `_mask_acronym` collects from the first `k` matches. */
  function MaskPairs(text: string, spans: seq<Span>, k: nat): seq<(string, string)>
    requires WellFormed(spans, |text|) && k <= |spans|
  {
    KeptPairs(Pieces(text, spans), Masked, k)
  }

  /** The letter names of `letters`, in order; the first letter LETTER lacks is a KeyError. */
  function Spell(letters: string): Result<seq<string>> {
    if letters == [] then Ok([])
    else if letters[0] !in LETTER then Err(KeyError([letters[0]]))
    else
      var rest :- Spell(letters[1..]);
      Ok([LETTER[letters[0]]] + rest)
  }

  /** The phoneme form of an acronym: its letter names joined by SEP_MASK. */
  function Phonemes(abbr: string): Result<string> {
    var names :- Spell(Without(abbr, '.'));
    Ok(Join([SEP_MASK], names))
  }

  /** The pairs `_acronym_phoneme_op` collects from the first `k` matches;
      the first acronym with an unnamed letter aborts the collection. */
  function PhonemePairs(text: string, spans: seq<Span>, k: nat): Result<seq<(string, string)>>
    requires WellFormed(spans, |text|) && k <= |spans|
  {
    if k == 0 then Ok([])
    else
      var before :- PhonemePairs(text, spans, k - 1);
      var p := Piece(text, spans, k - 1);
      if p in EXCLUDE then Ok(before)
      else
        var ph :- Phonemes(p);
        Ok(before + [(p, ph)])
  }

  /** The text after replacing, in turn, the first occurrence of each of the first `k` pairs. */
  function ReplaceEach(text: string, pairs: seq<(string, string)>, k: nat): string
    requires k <= |pairs|
  {
    if k == 0 then text
    else ReplaceFirst(ReplaceEach(text, pairs, k - 1), pairs[k - 1].0, pairs[k - 1].1)
  }

  /** The second loop of both passes: `text = text.replace(m[0], m[1], 1)` for each pair. */
  method ReplaceFirstEach(text: string, pairs: seq<(string, string)>) returns (r: string)
    ensures r == ReplaceEach(text, pairs, |pairs|)
  {
    r := text;
    for k := 0 to |pairs|
      invariant r == ReplaceEach(text, pairs, k)
    {
      r := ReplaceFirst(r, pairs[k].0, pairs[k].1);
    }
  }

  /** `_mask_acronym`: `spans` are the acronym matches in `text`. */
  method MaskAcronym(text: string, spans: seq<Span>) returns (r: string)
    requires WellFormed(spans, |text|)
    ensures r == ReplaceEach(text, MaskPairs(text, spans, |spans|), |MaskPairs(text, spans, |spans|)|)
  {
    var expanded: seq<(string, string)> := [];
    for k := 0 to |spans|
      invariant expanded == MaskPairs(text, spans, k)
    {
      var abbr := text[spans[k].start..spans[k].end];
      if abbr !in EXCLUDE {
        expanded := expanded + [(abbr, Join([SEP_MASK], Chars(Without(abbr, '.'))))];
      }
    }
    r := ReplaceFirstEach(text, expanded);
  }

  /** `_acronym_phoneme_op`: `spans` are the acronym matches in `text`. */
  method AcronymPhoneme(text: string, spans: seq<Span>) returns (r: Result<string>)
    requires WellFormed(spans, |text|)
    ensures r == (var pairs :- PhonemePairs(text, spans, |spans|); Ok(ReplaceEach(text, pairs, |pairs|)))
  {
    var expanded: seq<(string, string)> := [];
    for k := 0 to |spans|
      invariant PhonemePairs(text, spans, k) == Ok(expanded)
    {
      var abbr := text[spans[k].start..spans[k].end];
      if abbr !in EXCLUDE {
        var ph := Phonemes(abbr);
        if ph.Err? {
          r := Err(ph.error);
          PhonemeErrorPropagates(text, spans, k + 1);
          return;
        }
        expanded := expanded + [(abbr, ph.value)];
      }
    }
    var replaced := ReplaceFirstEach(text, expanded);
    r := Ok(replaced);
  }

  // ---------------------------------------------------------------------
  // Facts

  /** Once a prefix of the matches fails, the whole collection fails with the same error. */
  lemma {:induction false} PhonemeErrorPropagates(text: string, spans: seq<Span>, k: nat)
    requires WellFormed(spans, |text|) && 0 < k <= |spans|
    requires PhonemePairs(text, spans, k - 1).Ok?
    requires Piece(text, spans, k - 1) !in EXCLUDE && Phonemes(Piece(text, spans, k - 1)).Err?
    ensures PhonemePairs(text, spans, |spans|) == Err(Phonemes(Piece(text, spans, k - 1)).error)
    decreases |spans| - k
  {
    if k < |spans| {
      ErrorStays(text, spans, k, |spans|);
    }
  }

  lemma {:induction false} ErrorStays(text: string, spans: seq<Span>, k: nat, m: nat)
    requires WellFormed(spans, |text|) && k <= m <= |spans|
    requires PhonemePairs(text, spans, k).Err?
    ensures PhonemePairs(text, spans, m) == Err(PhonemePairs(text, spans, k).error)
    decreases m - k
  {
    if k < m {
      ErrorStays(text, spans, k, m - 1);
    }
  }

  /** Every collected mask pair is a detected, non-excluded acronym with its mask,
      and every detected, non-excluded acronym has its pair. */
  lemma MaskPairsFaithful(text: string, spans: seq<Span>, k: nat, a: string, m: string)
    requires WellFormed(spans, |text|) && k <= |spans|
    ensures (a, m) in MaskPairs(text, spans, k)
            <==> a !in EXCLUDE && m == Masked(a) && exists j :: 0 <= j < k && Piece(text, spans, j) == a
  {
    var ps := Pieces(text, spans);
    KeptPairsFaithful(ps, Masked, k, a, m);
    if exists j :: 0 <= j < k && ps[j] == a {
      var j :| 0 <= j < k && ps[j] == a;
      assert Piece(text, spans, j) == a;
    }
    if exists j :: 0 <= j < k && Piece(text, spans, j) == a {
      var j :| 0 <= j < k && Piece(text, spans, j) == a;
      assert ps[j] == a;
    }
  }

  /** A pair is kept exactly when its first part is one of the pieces, not excluded, and its second is `f` of it. */
  lemma {:induction false} KeptPairsFaithful(ps: seq<string>, f: string -> string, k: nat, a: string, m: string)
    requires k <= |ps|
    ensures (a, m) in KeptPairs(ps, f, k) <==> a !in EXCLUDE && m == f(a) && exists j :: 0 <= j < k && ps[j] == a
  {
    if k > 0 {
      KeptPairsFaithful(ps, f, k - 1, a, m);
    }
  }

  /** When every detected acronym is excluded ('EU', 'USA'), masking changes nothing. */
  lemma ExcludedUntouched(text: string, spans: seq<Span>)
    requires WellFormed(spans, |text|)
    requires forall j :: 0 <= j < |spans| ==> Piece(text, spans, j) in EXCLUDE
    ensures MaskPairs(text, spans, |spans|) == []
    ensures ReplaceEach(text, MaskPairs(text, spans, |spans|), 0) == text
  {
    NoPairs(text, spans, |spans|);
  }

  /** An excluded acronym is not protected from another acronym's
      replacement: on "USA US" the pair for "US" replaces the first
      occurrence of "US" in the text, which lies inside the excluded "USA". */
  lemma ExcludedSpanRewritten()
    ensures var spans := [Span(0, 3), Span(4, 6)];
            && WellFormed(spans, |"USA US"|)
            && MaskPairs("USA US", spans, 2) == [("US", ['U', SEP_MASK, 'S'])]
            && ReplaceEach("USA US", MaskPairs("USA US", spans, 2), 1) == ['U', SEP_MASK, 'S'] + "A US"
  {
    var spans := [Span(0, 3), Span(4, 6)];
    assert Piece("USA US", spans, 0) == "USA";
    assert Piece("USA US", spans, 1) == "US";
    assert Without("US", '.') == "US" by { MapCharAbsent("US", '.', []); }
    assert Chars("US") == ["U", "S"];
    assert Join([SEP_MASK], ["U", "S"]) == "U" + [SEP_MASK] + Join([SEP_MASK], ["S"]);
    assert Masked("US") == ['U', SEP_MASK, 'S'];
    assert MaskPairs("USA US", spans, 2) == [("US", ['U', SEP_MASK, 'S'])];
    assert OccursAt("USA US", "US", 0);
    assert Find("USA US", "US") == 0;
  }

  lemma {:induction false} NoPairs(text: string, spans: seq<Span>, k: nat)
    requires WellFormed(spans, |text|) && k <= |spans|
    requires forall j :: 0 <= j < |spans| ==> Piece(text, spans, j) in EXCLUDE
    ensures MaskPairs(text, spans, k) == []
  {
    if k > 0 {
      NoPairs(text, spans, k - 1);
    }
  }

  /** A single non-excluded acronym: its first occurrence in the text is replaced by its mask. */
  lemma SingleAcronymMasked(text: string, s: Span)
    requires s.start <= s.end <= |text|
    requires text[s.start..s.end] !in EXCLUDE
    ensures var a := text[s.start..s.end];
            var i := Find(text, a);
            && 0 <= i <= s.start
            && ReplaceEach(text, MaskPairs(text, [s], 1), |MaskPairs(text, [s], 1)|)
               == text[..i] + Masked(a) + text[i + |a|..]
  {
    var a := text[s.start..s.end];
    var ps := Pieces(text, [s]);
    assert ps[0] == a;
    assert KeptPairs(ps, Masked, 1) == KeptPairs(ps, Masked, 0) + [(a, Masked(a))];
    assert MaskPairs(text, [s], 1) == [(a, Masked(a))];
    assert OccursAt(text, a, s.start);
  }

  /** Removing the separators from a mask gives back the acronym's letters. */
  lemma {:induction false} UnmaskLetters(letters: string, sep: char)
    requires sep !in letters
    ensures Without(Join([sep], Chars(letters)), sep) == letters
  {
    if |letters| > 1 {
      var cs := Chars(letters);
      assert cs[1..] == Chars(letters[1..]);
      UnmaskLetters(letters[1..], sep);
      var rest := Join([sep], cs[1..]);
      assert Join([sep], cs) == [letters[0]] + ([sep] + rest);
      MapCharConcat([letters[0]], [sep] + rest, sep, []);
      MapCharConcat([sep], rest, sep, []);
      assert letters == [letters[0]] + letters[1..];
    } else if |letters| == 1 {
      assert Join([sep], Chars(letters)) == [letters[0]];
      MapCharAbsent([letters[0]], sep, []);
      assert letters == [letters[0]];
    }
  }

  /** The mask of an acronym: removing SEP_MASK gives back its letters without the dots. */
  lemma MaskRoundTrip(abbr: string)
    requires IsAcronymText(abbr)
    ensures Without(Masked(abbr), SEP_MASK) == Without(abbr, '.')
  {
    NoMaskInAcronym(abbr);
    MapCharKeepsOthers(abbr, '.', [], SEP_MASK);
    UnmaskLetters(Without(abbr, '.'), SEP_MASK);
  }

  lemma NoMaskInAcronym(abbr: string)
    requires IsAcronymText(abbr)
    ensures SEP_MASK !in abbr
  {
    AcronymChars(abbr);
  }

  /** A detected acronym holds only capitals and dots. */
  lemma AcronymChars(abbr: string)
    requires IsAcronymText(abbr)
    ensures forall k :: 0 <= k < |abbr| ==> IsUpperPolish(abbr[k]) || abbr[k] == '.'
  {
    forall k | 0 <= k < |abbr| ensures IsUpperPolish(abbr[k]) || abbr[k] == '.' {
      if !(forall j :: 0 <= j < |abbr| ==> IsUpperPolish(abbr[j])) {
        assert AcronymCharAt(abbr, k);
      }
    }
  }

  /** LETTER names every capital the detector admits except 'Ó'. */
  lemma LetterCoverage(c: char)
    requires IsUpperPolish(c)
    ensures c in LETTER <==> c != 'Ó'
  {
    if 'A' <= c <= 'Z' {
      var n := c as int - 'A' as int;
      assert 0 <= n < 26;
      assert c == (n + 'A' as int) as char;
      assert c in "ABCDEFGHIJKLMNOPQRSTUVWXYZ" by {
        assert "ABCDEFGHIJKLMNOPQRSTUVWXYZ"[n] == c;
      }
    }
  }

  /** Spelling succeeds exactly when LETTER names every letter, and then it names
      each letter in order; otherwise it reports the first unnamed letter. */
  lemma {:induction false} SpellSpec(letters: string)
    ensures Spell(letters).Ok? <==> forall k :: 0 <= k < |letters| ==> letters[k] in LETTER
    ensures Spell(letters).Ok? ==>
              |Spell(letters).value| == |letters|
              && forall k :: 0 <= k < |letters| ==> Spell(letters).value[k] == LETTER[letters[k]]
    ensures Spell(letters).Err? ==>
              exists k :: 0 <= k < |letters| && letters[k] !in LETTER
                && (forall j :: 0 <= j < k ==> letters[j] in LETTER)
                && Spell(letters).error == KeyError([letters[k]])
  {
    if letters != [] {
      SpellSpec(letters[1..]);
      if letters[0] in LETTER && Spell(letters[1..]).Err? {
        var k :| 0 <= k < |letters[1..]| && letters[1..][k] !in LETTER
                 && (forall j :: 0 <= j < k ==> letters[1..][j] in LETTER)
                 && Spell(letters[1..]).error == KeyError([letters[1..][k]]);
        assert letters[k + 1] !in LETTER;
        assert forall j :: 0 <= j < k + 1 ==> letters[j] in LETTER by {
          forall j | 0 <= j < k + 1 ensures letters[j] in LETTER {
            if j > 0 { assert letters[j] == letters[1..][j - 1]; }
          }
        }
      }
      if letters[0] !in LETTER {
        assert !(forall k :: 0 <= k < |letters| ==> letters[k] in LETTER);
      }
    }
  }

  /** The phoneme form of a detected acronym fails exactly when it contains 'Ó',
      and then with a KeyError on 'Ó'. */
  lemma PhonemesFailOnlyOnO(abbr: string)
    requires IsAcronymText(abbr)
    ensures Phonemes(abbr).Err? <==> 'Ó' in abbr
    ensures Phonemes(abbr).Err? ==> Phonemes(abbr).error == KeyError("Ó")
  {
    var letters := Without(abbr, '.');
    SpellSpec(letters);
    WithoutKeepsLetters(abbr);
    MapCharKeepsOthers(abbr, '.', [], 'Ó');
    if Spell(letters).Err? {
      var k :| 0 <= k < |letters| && letters[k] !in LETTER
               && (forall j :: 0 <= j < k ==> letters[j] in LETTER)
               && Spell(letters).error == KeyError([letters[k]]);
      LetterCoverage(letters[k]);
      assert letters[k] == 'Ó';
    } else {
      LetterO();
      assert 'Ó' !in letters;
    }
  }

  /** The letters left after removing the dots of a detected acronym are all capitals. */
  lemma WithoutKeepsLetters(abbr: string)
    requires IsAcronymText(abbr)
    ensures forall k :: 0 <= k < |Without(abbr, '.')| ==> IsUpperPolish(Without(abbr, '.')[k])
  {
    LettersOfAcronym(abbr, abbr);
  }

  lemma {:induction false} LettersOfAcronym(abbr: string, s: string)
    requires IsAcronymText(abbr)
    requires forall c :: c in s ==> c in abbr
    ensures forall k :: 0 <= k < |Without(s, '.')| ==> IsUpperPolish(Without(s, '.')[k])
  {
    if s != [] {
      LettersOfAcronym(abbr, s[1..]);
      var tail := Without(s[1..], '.');
      assert s == [s[0]] + s[1..];
      MapCharConcat([s[0]], s[1..], '.', []);
      if s[0] != '.' {
        AcronymChars(abbr);
        assert s[0] in abbr;
        assert IsUpperPolish(s[0]);
        assert Without(s, '.') == [s[0]] + tail;
        forall k | 0 <= k < |Without(s, '.')| ensures IsUpperPolish(Without(s, '.')[k]) {
          if k > 0 { assert Without(s, '.')[k] == tail[k - 1]; }
        }
      } else {
        assert Without(s, '.') == tail;
      }
    }
  }

  /** A detected "ÓW" stops the phoneme pass with a KeyError. */
  lemma UnnamedLetterFails()
    ensures PhonemePairs("ÓW", [Span(0, 2)], 1) == Err(KeyError("Ó"))
  {
    assert Piece("ÓW", [Span(0, 2)], 0) == "ÓW";
    MapCharAbsent("ÓW", '.', []);
    LetterO();
    assert Spell("ÓW") == Err(KeyError("Ó"));
  }
}
