/** The per-token ops: `_ordinal_op`, `_special_op`, `_math_symbol_op` and
    `_misc_abbreviation_op`. Each takes one token (and, for the ordinal, its
    neighbours) and gives back the rewritten token. */
module Tokens {
  import opened PyStrings
  import opened Outcomes
  import opened Tables
  import opened Numbers
  import opened Dates

  // ---------------------------------------------------------------------
  // Ordinals

  /** `_ordinal_op`: a token the ordinal detector matches at its start and that
      ends in '.' is read as an ordinal unless it is the last token or the
      token after it (looked up in `splitText` at `idx + 1`, where `idx`
      counts the non-empty tokens before this one) is a currency name. Inside
      the text, after a cleaned token ending in 'm', the ordinal takes an 'n'. */
  function OrdinalOp(num: Numerals, word: string, idx: nat, splitText: seq<string>, cleaned: seq<string>): (r: Result<string>)
    ensures !(OrdinalMatch(word) && EndsWith(word, ".")) ==> r == Ok(word)
    ensures r != Ok(word) ==> idx + 1 < |splitText| && splitText[idx + 1] !in CURRENCY_SYMBOL.Values
    ensures r.Err? ==> r.error == ConversionError(word) || (r.error == IndexError && idx > |cleaned|)
    ensures r.Ok? && r.value != word ==>
              num.ordinal(word).Some? && (r.value == num.ordinal(word).value || r.value == num.ordinal(word).value + "n")
  {
    if OrdinalMatch(word) && EndsWith(word, ".") && idx + 1 < |splitText|
       && splitText[idx + 1] !in CURRENCY_SYMBOL.Values then
      var w :- Ordinal(num, word);
      if idx > 0 then
        if idx - 1 >= |cleaned| then Err(IndexError)
        else if EndsWith(cleaned[idx - 1], "m") then Ok(w + "n")
        else Ok(w)
      else Ok(w)
    else Ok(word)
  }

  /** An ordinal inside the text after a cleaned word ending in 'm' is the
      ordinal words followed by 'n'; otherwise the ordinal words alone. */
  lemma OrdinalRead(num: Numerals, word: string, idx: nat, splitText: seq<string>, cleaned: seq<string>)
    requires OrdinalMatch(word) && EndsWith(word, ".") && num.ordinal(word).Some?
    requires idx + 1 < |splitText| && splitText[idx + 1] !in CURRENCY_SYMBOL.Values
    requires idx <= |cleaned|
    ensures var o := num.ordinal(word).value;
            OrdinalOp(num, word, idx, splitText, cleaned)
            == Ok(if idx > 0 && EndsWith(cleaned[idx - 1], "m") then o + "n" else o)
  {
  }

  /** An ordinal before a currency name is left as it is. */
  lemma OrdinalBeforeCurrencyKept(num: Numerals, word: string, idx: nat, splitText: seq<string>, cleaned: seq<string>)
    requires idx + 1 < |splitText| && splitText[idx + 1] in CURRENCY_SYMBOL.Values
    ensures OrdinalOp(num, word, idx, splitText, cleaned) == Ok(word)
  {
  }

  /** "3." is an ordinal literal. */
  lemma ThirdIsOrdinal()
    ensures OrdinalMatch("3.") && EndsWith("3.", ".")
  {
    assert DigitRun("3.") == 1 by {
      assert "3."[1..] == ".";
    }
  }

  /** Because `idx` skips empty tokens while `splitText` keeps them, after a
      double space the lookahead reads the token itself instead of the next
      one: in "a  3. złoty" the "3." is read as an ordinal although a currency
      name follows it, while at its position in `splitText` it is kept. */
  lemma OrdinalLookaheadAfterEmptyToken(num: Numerals)
    requires num.ordinal("3.").Some?
    ensures var splitText := ["a", "", "3.", "złoty"];
            && OrdinalOp(num, "3.", 1, splitText, ["a"]) == Ok(num.ordinal("3.").value)
            && OrdinalOp(num, "3.", 2, splitText, ["a"]) == Ok("3.")
  {
    ThirdIsOrdinal();
    var splitText := ["a", "", "3.", "złoty"];
    assert CURRENCY_SYMBOL["PLN"] == "złoty";
    assert "złoty" in CURRENCY_SYMBOL.Values;
    assert "3." != "złoty";
    assert "3." !in CURRENCY_SYMBOL.Values;
    OrdinalRead(num, "3.", 1, splitText, ["a"]);
    assert !EndsWith("a", "m");
  }

  // ---------------------------------------------------------------------
  // Miscellaneous abbreviations

  /** Entry `k` of MISC applies to `w`: `w` is its short form, with or without
      a dot, and does not already hold its expansion. */
  predicate MatchesEntry(w: string, k: nat)
    requires k < |MISC|
  {
    !Contains(w, MISC[k].1) && (MISC[k].0 + "." == w || MISC[k].0 == w)
  }

  /** The token after the first `k` entries of MISC. */
  function MiscUpTo(w: string, k: nat): string
    requires k <= |MISC|
  {
    if k == 0 then w
    else
      var prev := MiscUpTo(w, k - 1);
      if MatchesEntry(prev, k - 1) then MISC[k - 1].1 else prev
  }

  /** `_misc_abbreviation_op`. */
  method MiscAbbreviationOp(word: string) returns (r: string)
    ensures r == MiscUpTo(word, |MISC|)
  {
    r := word;
    for k := 0 to |MISC|
      invariant r == MiscUpTo(word, k)
    {
      var (short, long) := MISC[k];
      if !Contains(r, long) {
        if short + "." == r || short == r {
          r := long;
        }
      }
    }
  }

  /** A string holds itself. */
  lemma SelfContained(s: string)
    ensures Contains(s, s)
  {
    assert s[0..|s|] == s;
    assert OccursAt(s, s, 0);
  }

  /** No entry applies to an expansion: it holds its own expansion and is no
      other entry's short form. */
  lemma ExpansionMatchesNothing(i: nat, j: nat)
    requires i < |MISC| && j < |MISC|
    ensures !MatchesEntry(MISC[i].1, j)
  {
    SelfContained(MISC[i].1);
  }

  /** The ops applies the FIRST entry that matches the token, and gives back
      a token no entry matches. */
  lemma {:induction false} MiscFirstMatch(w: string, k: nat)
    requires k <= |MISC|
    ensures (forall i :: 0 <= i < k ==> !MatchesEntry(w, i)) ==> MiscUpTo(w, k) == w
    ensures forall i :: 0 <= i < k && MatchesEntry(w, i) && (forall j :: 0 <= j < i ==> !MatchesEntry(w, j))
                        ==> MiscUpTo(w, k) == MISC[i].1
  {
    if k > 0 {
      MiscFirstMatch(w, k - 1);
      forall i | 0 <= i < k - 1 && MatchesEntry(w, i) && (forall j :: 0 <= j < i ==> !MatchesEntry(w, j))
        ensures MiscUpTo(w, k) == MISC[i].1
      {
        ExpansionMatchesNothing(i, k - 1);
      }
    }
  }

  /** Expanding a token a second time changes nothing. */
  lemma MiscIdempotent(w: string)
    ensures MiscUpTo(MiscUpTo(w, |MISC|), |MISC|) == MiscUpTo(w, |MISC|)
  {
    MiscFirstMatch(w, |MISC|);
    var r := MiscUpTo(w, |MISC|);
    if r != w {
      var i :| 0 <= i < |MISC| && MatchesEntry(w, i) && (forall j :: 0 <= j < i ==> !MatchesEntry(w, j));
      forall j | 0 <= j < |MISC| ensures !MatchesEntry(r, j) {
        ExpansionMatchesNothing(i, j);
      }
      MiscFirstMatch(r, |MISC|);
    }
  }

  // ---------------------------------------------------------------------
  // Mathematical symbols

  /** The `continue` branches of `_math_symbol_op` for a word holding `pat`:
      an 'x' at the start of the word or after something that is not a number,
      and a '-' in "--" or with more than one character on either side of it. */
  predicate MathSkips(pat: string, word: string)
    requires Contains(word, pat)
  {
    var i := Find(word, pat);
    if pat == "x" then |word| > 1 && (i == 0 || !IsDecimal(word[..i]))
    else if pat == "-" then word == "--" || (|word| > 1 && (i > 1 || |word| - i - 1 > 1))
    else false
  }

  /** One entry of the table applied to the word. */
  function MathRound(word: string, pat: string, repl: string): string {
    if Contains(word, pat) && !MathSkips(pat, word) then ReplaceFirst(word, pat, repl) else word
  }

  /** The word after the first `k` entries of MATH_SYMBOL. */
  function MathUpTo(word: string, k: nat): string
    requires k <= |MATH_SYMBOL|
  {
    if k == 0 then word else MathRound(MathUpTo(word, k - 1), MATH_SYMBOL[k - 1].0, MATH_SYMBOL[k - 1].1)
  }

  /** `_math_symbol_op`. */
  method MathSymbolOp(word: string) returns (r: string)
    ensures r == MathUpTo(word, |MATH_SYMBOL|)
  {
    r := word;
    for k := 0 to |MATH_SYMBOL|
      invariant r == MathUpTo(word, k)
    {
      var (pat, repl) := MATH_SYMBOL[k];
      r := MathRoundOp(r, pat, repl);
    }
  }

  /** One round of `_math_symbol_op`: the `continue` checks, then the replacement. */
  method MathRoundOp(word: string, pat: string, repl: string) returns (r: string)
    ensures r == MathRound(word, pat, repl)
  {
    r := word;
    if Contains(word, pat) {
      var i := Find(word, pat);
      var skip := false;
      if pat == "x" {
        if |word| > 1 && i == 0 {
          skip := true;
        } else if |word| > 1 && !IsDecimal(word[..i]) {
          skip := true;
        }
      } else if pat == "-" {
        if word == "--" {
          skip := true;
        } else if |word| > 1 && (i > 1 || |word| - i - 1 > 1) {
          skip := true;
        }
      }
      assert skip == MathSkips(pat, word);
      if !skip {
        r := ReplaceFirst(word, pat, repl);
      }
    }
  }

  /** The table has no 'x' entry, so the first guard of the op never fires. */
  lemma NoTimesEntry(k: nat)
    requires k < |MATH_SYMBOL|
    ensures MATH_SYMBOL[k].0 != "x"
  {
  }

  /** A word holding none of the symbols is given back unchanged. */
  lemma {:induction false} MathKeepsPlain(word: string, k: nat)
    requires k <= |MATH_SYMBOL|
    requires forall j :: 0 <= j < k ==> !Contains(word, MATH_SYMBOL[j].0)
    ensures MathUpTo(word, k) == word
  {
    if k > 0 {
      MathKeepsPlain(word, k - 1);
    }
  }

  /** A symbol present in the word is read out, the first occurrence only,
      exactly when no guard passes over it. */
  lemma MathRoundReads(word: string, pat: string, repl: string)
    requires Contains(word, pat) && |repl| != |pat|
    ensures MathRound(word, pat, repl) == word <==> MathSkips(pat, word)
    ensures !MathSkips(pat, word) ==>
              var i := Find(word, pat);
              MathRound(word, pat, repl) == word[..i] + repl + word[i + |pat|..]
  {
    if !MathSkips(pat, word) {
      var i := Find(word, pat);
      assert |word[..i] + repl + word[i + |pat|..]| != |word|;
    }
  }

  /** A sign is read out ("-5" becomes "minus5"), and so is a minus between
      two one-character operands, while a range of longer numbers keeps its
      dash ("10-20" is left to the special table). */
  lemma MinusGuard()
    ensures MathRound("-5", "-", "minus") == "minus5"
    ensures MathRound("a-b", "-", "minus") == "aminusb"
    ensures MathRound("10-20", "-", "minus") == "10-20"
  {
    CharFound("-5", '-', 0);
    CharFound("a-b", '-', 1);
    assert "10-20"[..2] == "10";
    CharFound("10-20", '-', 2);
  }

  // ---------------------------------------------------------------------
  // Special patterns

  /** A piece the number detector matches at its start becomes words. */
  function NumberWord(num: Numerals, w: string): string {
    if NumberMatch(w) > 0 then TransliterateNumber(num, w) else w
  }

  function NumberWords(num: Numerals, ws: seq<string>): (r: seq<string>)
    ensures |r| == |ws|
    ensures forall i :: 0 <= i < |ws| ==> r[i] == NumberWord(num, ws[i])
  {
    seq(|ws|, i requires 0 <= i < |ws| => NumberWord(num, ws[i]))
  }

  /** One entry whose pattern was found: the first `lit` becomes `repl`, then
      every space-separated piece that starts with a number is spelled out. */
  function SpecialRound(num: Numerals, w: string, lit: string, repl: string): string {
    Join(" ", NumberWords(num, Split(ReplaceFirst(w, lit, repl), " ")))
  }

  /** The word after the first `k` entries of SPECIAL; `found(k, w)` says
      whether the regular expression of entry `k` matches `w`. */
  function SpecialUpTo(num: Numerals, word: string, found: (nat, string) -> bool, k: nat): string
    requires k <= |SPECIAL|
  {
    if k == 0 then word
    else
      var prev := SpecialUpTo(num, word, found, k - 1);
      if found(k - 1, prev) then SpecialRound(num, prev, SPECIAL[k - 1].0, SPECIAL[k - 1].1) else prev
  }

  /** `_special_op`. */
  method SpecialOp(num: Numerals, word: string, found: (nat, string) -> bool) returns (r: string)
    ensures r == SpecialUpTo(num, word, found, |SPECIAL|)
  {
    r := word;
    for k := 0 to |SPECIAL|
      invariant r == SpecialUpTo(num, word, found, k)
    {
      if found(k, r) {
        var (lit, repl) := SPECIAL[k];
        r := SpecialRoundOp(num, r, lit, repl);
      }
    }
  }

  /** One round of `_special_op` for an entry whose pattern was found. */
  method SpecialRoundOp(num: Numerals, w: string, lit: string, repl: string) returns (r: string)
    ensures r == SpecialRound(num, w, lit, repl)
  {
    var pieces := Split(ReplaceFirst(w, lit, repl), " ");
    var ws := SpellNumbers(num, pieces);
    r := Join(" ", ws);
  }

  /** The inner loop of `_special_op`: every piece that starts with a number is spelled. */
  method SpellNumbers(num: Numerals, pieces: seq<string>) returns (ws: seq<string>)
    ensures ws == NumberWords(num, pieces)
  {
    ws := [];
    for j := 0 to |pieces|
      invariant |ws| == j
      invariant forall i :: 0 <= i < j ==> ws[i] == NumberWord(num, pieces[i])
    {
      if NumberMatch(pieces[j]) > 0 {
        ws := ws + [TransliterateNumber(num, pieces[j])];
      } else {
        ws := ws + [pieces[j]];
      }
    }
  }

  /** A word no pattern matches is given back unchanged. */
  lemma {:induction false} SpecialKeepsUnmatched(num: Numerals, word: string, found: (nat, string) -> bool, k: nat)
    requires k <= |SPECIAL|
    requires forall j :: 0 <= j < k ==> !found(j, word)
    ensures SpecialUpTo(num, word, found, k) == word
  {
    if k > 0 {
      SpecialKeepsUnmatched(num, word, found, k - 1);
    }
  }

  /** When the literal is absent and no piece starts with a number, a round
      gives the word back: splitting and joining on the blank lose nothing. */
  lemma SpecialRoundPlain(num: Numerals, w: string, lit: string, repl: string)
    requires !Contains(w, lit)
    requires forall i :: 0 <= i < |Split(w, " ")| ==> NumberMatch(Split(w, " ")[i]) == 0
    ensures SpecialRound(num, w, lit, repl) == w
  {
    var pieces := Split(w, " ");
    assert NumberWords(num, pieces) == pieces;
    JoinSplit(w, " ");
  }

  /** The dash of "a-b" becomes " do " when `a` holds none. */
  lemma DashReplaced(a: string, b: string)
    requires '-' !in a
    ensures ReplaceFirst(a + "-" + b, "-", " do ") == a + " " + "do" + " " + b
  {
    var w := a + "-" + b;
    assert w[..|a|] == a;
    CharFound(w, '-', |a|);
    assert w[|a| + 1..] == b;
  }

  /** A range of two plain numbers, "5-10", is read "pięć do dziesięć": the
      dash becomes " do " and both numbers their cardinal words. */
  lemma RangeRead(num: Numerals, a: string, b: string)
    requires IsDecimal(a) && IsDecimal(b)
    ensures SpecialRound(num, a + "-" + b, "-", " do ")
            == Lower(num.cardinal(ValueOf(a))) + " do " + Lower(num.cardinal(ValueOf(b)))
  {
    var x, y := Lower(num.cardinal(ValueOf(a))), Lower(num.cardinal(ValueOf(b)));
    RangePieces(a, b);
    RangeWords(num, a, b);
    IntegerLiteralIsCardinal(num, a);
    IntegerLiteralIsCardinal(num, b);
    assert NumberWords(num, Split(ReplaceFirst(a + "-" + b, "-", " do "), " ")) == [x, "do", y];
    JoinRange(x, y);
  }

  /** Joining two readings around "do" puts " do " between them. */
  lemma JoinRange(x: string, y: string)
    ensures Join(" ", [x, "do", y]) == x + " do " + y
  {
    JoinThree(" ", x, "do", y);
    assert x + " " + "do" + " " + y == x + " do " + y;
  }

  /** "a-b" with the dash replaced splits into `a`, "do" and `b`. */
  lemma RangePieces(a: string, b: string)
    requires IsDecimal(a) && IsDecimal(b)
    ensures Split(ReplaceFirst(a + "-" + b, "-", " do "), " ") == [a, "do", b]
  {
    DecimalShape(a);
    DecimalShape(b);
    assert '-' !in a by {
      forall k | 0 <= k < |a| ensures a[k] != '-' { assert IsDigit(a[k]); }
    }
    DashReplaced(a, b);
    SplitThree(a, " ", "do", b);
  }

  lemma RangeWords(num: Numerals, a: string, b: string)
    requires IsDecimal(a) && IsDecimal(b)
    ensures NumberWords(num, [a, "do", b]) == [TransliterateNumber(num, a), "do", TransliterateNumber(num, b)]
  {
    assert NumberMatch(a) > 0 && NumberMatch(b) > 0;
    assert NumberMatch("do") == 0;
  }
}
