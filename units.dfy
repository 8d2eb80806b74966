/** `_number_unit_op`: unit abbreviations become words that agree with a
    preceding "one", and a number glued to a unit is split and spelled out.
    The op may overwrite the previous entry of the growing list of cleaned
    words, which is the `Cleaned` class below. */
module Units {
  import opened PyStrings
  import opened Outcomes
  import opened Tables
  import opened Numbers

  /** The word the op produces and the list of cleaned words after it. */
  datatype Agreement = Agreement(word: string, cleaned: seq<string>)

  /** Python's `s[:-n]` for `n >= 1`. */
  function DropLast(s: string, n: nat): (r: string)
    ensures |s| >= n ==> r == s[..|s| - n]
    ensures |s| < n ==> r == []
  {
    if |s| >= n then s[..|s| - n] else []
  }

  /** The unit key of a token: one final '.' dropped, the separator mask
      written back as '_'. */
  function UnitKey(word: string): string {
    MapChar(if EndsWith(word, ".") then word[..|word| - 1] else word, SEP_MASK, "_")
  }

  /** The previous cleaned word is a form of "one". */
  predicate IsOne(prev: string) {
    prev == "jeden" || prev == "jedna" || prev == "jedną"
  }

  /** The number literal, signs removed, is one as the op recognises it. */
  predicate OneLiteral(g: string) {
    Without(Without(g, '+'), '-') in ["1", "1.0", "1.00"]
  }

  /** The first half of the op: a bare unit token becomes its table word.
      After a form of "one" a word with a suffix loses it and the previous
      word becomes "jedna"; a unit without a suffix turns only "jeden" into "jedna".
      Looking at the previous word past the end of the list fails. */
  function BareUnit(word: string, idx: nat, cleaned: seq<string>): (r: Result<Agreement>)
    ensures r.Err? <==> (0 < idx && idx - 1 >= |cleaned|
                         && (UnitKey(word) in PLURAL_NO_SUFFIX || UnitKey(word) in PLURAL_SUFFIX_EN
                             || UnitKey(word) in PLURAL_SUFFIX_N))
    ensures r.Err? ==> r.error == IndexError
    ensures r.Ok? ==> |r.value.cleaned| == |cleaned|
                      && forall i :: 0 <= i < |cleaned| && i + 1 != idx ==> r.value.cleaned[i] == cleaned[i]
    ensures r.Ok? && 0 < idx <= |cleaned| ==> r.value.cleaned[idx - 1] in {cleaned[idx - 1], "jedna"}
  {
    var u := UnitKey(word);
    if u in PLURAL_NO_SUFFIX then
      var w := PLURAL_NO_SUFFIX[u];
      if idx > 0 then
        if idx - 1 >= |cleaned| then Err(IndexError)
        else if cleaned[idx - 1] == "jeden" then Ok(Agreement(w, cleaned[idx - 1 := "jedna"]))
        else Ok(Agreement(w, cleaned))
      else Ok(Agreement(w, cleaned))
    else if u in PLURAL_SUFFIX_EN then
      var w := PLURAL_SUFFIX_EN[u];
      if idx > 0 then
        if idx - 1 >= |cleaned| then Err(IndexError)
        else if IsOne(cleaned[idx - 1]) then Ok(Agreement(DropLast(w, 2), cleaned[idx - 1 := "jedna"]))
        else Ok(Agreement(w, cleaned))
      else Ok(Agreement(w, cleaned))
    else if u in PLURAL_SUFFIX_N then
      var w := PLURAL_SUFFIX_N[u];
      if idx > 0 then
        if idx - 1 >= |cleaned| then Err(IndexError)
        else if IsOne(cleaned[idx - 1]) then Ok(Agreement(DropLast(w, 1), cleaned[idx - 1 := "jedna"]))
        else Ok(Agreement(w, cleaned))
      else Ok(Agreement(w, cleaned))
    else Ok(Agreement(word, cleaned))
  }

  /** The unit after a number: its table word, shortened after the literal
      one (which then reads "jedna"), or the text as it is. The flag says
      whether the number is read "jedna". */
  function UnitAfter(g: string, u: string): (string, bool) {
    if u in PLURAL_NO_SUFFIX then (PLURAL_NO_SUFFIX[u], false)
    else if u in PLURAL_SUFFIX_EN then
      if OneLiteral(g) then (DropLast(PLURAL_SUFFIX_EN[u], 2), true) else (PLURAL_SUFFIX_EN[u], false)
    else if u in PLURAL_SUFFIX_N then
      if OneLiteral(g) then (DropLast(PLURAL_SUFFIX_N[u], 1), true) else (PLURAL_SUFFIX_N[u], false)
    else (u, false)
  }

  /** The second half of the op: a token the number detector matches at its
      start is spelled out; text after the number is read as a unit. */
  function NumberWithUnit(num: Numerals, word: string): string {
    var n := NumberMatch(word);
    if n == 0 then word
    else
      var g := word[..n];
      var rest := word[n..];
      if rest == [] then TransliterateNumber(num, word)
      else
        var (unit, one) := UnitAfter(g, if EndsWith(rest, ".") then rest[..|rest| - 1] else rest);
        (if one then "jedna" else TransliterateNumber(num, g)) + " " + unit
  }

  /** `_number_unit_op` on a token, its position and the cleaned words so far. */
  function UnitOp(num: Numerals, word: string, idx: nat, cleaned: seq<string>): (r: Result<Agreement>)
    ensures r.Ok? ==> |r.value.cleaned| == |cleaned|
                      && forall i :: 0 <= i < |cleaned| && i + 1 != idx ==> r.value.cleaned[i] == cleaned[i]
    ensures r.Ok? && 0 < idx <= |cleaned| ==> r.value.cleaned[idx - 1] in {cleaned[idx - 1], "jedna"}
    ensures r.Err? ==> r.error == IndexError && 0 < idx && idx - 1 >= |cleaned|
  {
    var a :- BareUnit(word, idx, cleaned);
    Ok(Agreement(NumberWithUnit(num, a.word), a.cleaned))
  }

  /** The list of cleaned words the token loop builds, which the op reads and
      may overwrite at the previous position. */
  class Cleaned {
    var words: seq<string>

    constructor ()
      ensures words == []
    {
      words := [];
    }

    /** `cleaned_words.append(word)`. */
    method Append(w: string)
      modifies this
      ensures words == old(words) + [w]
    {
      words := words + [w];
    }

    /** `_number_unit_op(word, idx, cleaned_words)`. */
    method NumberUnit(num: Numerals, word: string, idx: nat) returns (r: Result<string>)
      modifies this
      ensures var u := UnitOp(num, word, idx, old(words));
              && (u.Ok? ==> r == Ok(u.value.word) && words == u.value.cleaned)
              && (u.Err? ==> r == Err(u.error) && words == old(words))
    {
      var bare := AgreeWithOne(word, idx);
      if bare.Err? {
        return Err(bare.error);
      }
      var w := SpellNumber(num, bare.value);
      r := Ok(w);
    }

    /** The first half of the op, on the list itself. */
    method AgreeWithOne(word: string, idx: nat) returns (r: Result<string>)
      modifies this
      ensures var b := BareUnit(word, idx, old(words));
              && (b.Ok? ==> r == Ok(b.value.word) && words == b.value.cleaned)
              && (b.Err? ==> r == Err(b.error) && words == old(words))
    {
      var w := word;
      var wUnit := word;
      if EndsWith(wUnit, ".") {
        wUnit := wUnit[..|wUnit| - 1];
      }
      wUnit := MapChar(wUnit, SEP_MASK, "_");
      if wUnit in PLURAL_NO_SUFFIX {
        w := PLURAL_NO_SUFFIX[wUnit];
        if idx > 0 {
          if idx - 1 >= |words| {
            return Err(IndexError);
          }
          if words[idx - 1] == "jeden" {
            words := words[idx - 1 := "jedna"];
          }
        }
      } else if wUnit in PLURAL_SUFFIX_EN {
        w := PLURAL_SUFFIX_EN[wUnit];
        if idx > 0 {
          if idx - 1 >= |words| {
            return Err(IndexError);
          }
          if IsOne(words[idx - 1]) {
            w := DropLast(w, 2);
            words := words[idx - 1 := "jedna"];
          }
        }
      } else if wUnit in PLURAL_SUFFIX_N {
        w := PLURAL_SUFFIX_N[wUnit];
        if idx > 0 {
          if idx - 1 >= |words| {
            return Err(IndexError);
          }
          if IsOne(words[idx - 1]) {
            w := DropLast(w, 1);
            words := words[idx - 1 := "jedna"];
          }
        }
      }
      r := Ok(w);
    }
  }

  /** The second half of the op: a number at the start of the word is split
      from its unit and both are spelled out. */
  method SpellNumber(num: Numerals, word: string) returns (w: string)
    ensures w == NumberWithUnit(num, word)
  {
    w := word;
    var n := NumberMatch(w);
    if n > 0 {
      var g := w[..n];
      var tail := w[n..];
      var one := false;
      if tail != [] {
        if EndsWith(tail, ".") {
          tail := tail[..|tail| - 1];
        }
        tail, one := ReadUnit(g, tail);
        tail := " " + tail;
        w := g;
      }
      if one {
        w := "jedna";
      } else {
        w := TransliterateNumber(num, w);
      }
      w := w + tail;
    }
  }

  /** The unit after the number `g`, looked up in the three tables. */
  method ReadUnit(g: string, key: string) returns (unit: string, one: bool)
    ensures (unit, one) == UnitAfter(g, key)
  {
    unit, one := key, false;
    if unit in PLURAL_NO_SUFFIX {
      unit := PLURAL_NO_SUFFIX[unit];
    } else if unit in PLURAL_SUFFIX_EN {
      unit := PLURAL_SUFFIX_EN[unit];
      if OneLiteral(g) {
        unit := DropLast(unit, 2);
        one := true;
      }
    } else if unit in PLURAL_SUFFIX_N {
      unit := PLURAL_SUFFIX_N[unit];
      if OneLiteral(g) {
        unit := DropLast(unit, 1);
        one := true;
      }
    }
  }

  // ---------------------------------------------------------------------
  // Facts

  /** A word starting with a letter is not a number: the second half keeps it. */
  lemma LetterFirstKept(num: Numerals, w: string)
    requires w != [] && 'a' <= w[0] <= 'z'
    ensures NumberWithUnit(num, w) == w
  {
  }

  /** Every table word, and every shortened one, starts with a letter. */
  lemma NoSuffixWord(u: string)
    ensures u in PLURAL_NO_SUFFIX ==> |PLURAL_NO_SUFFIX[u]| > 2 && 'a' <= PLURAL_NO_SUFFIX[u][0] <= 'z'
  {
  }

  lemma SuffixWord(u: string)
    ensures u in PLURAL_SUFFIX_N ==> |PLURAL_SUFFIX_N[u]| > 2 && 'a' <= PLURAL_SUFFIX_N[u][0] <= 'z'
    ensures u in PLURAL_SUFFIX_EN ==> |PLURAL_SUFFIX_EN[u]| > 2 && 'a' <= PLURAL_SUFFIX_EN[u][0] <= 'z'
  {
  }

  /** A bare unit without a suffix becomes its table word and turns a
      preceding "jeden" into "jedna"; nothing else changes. */
  lemma NoSuffixUnitRead(num: Numerals, word: string, idx: nat, cleaned: seq<string>)
    requires UnitKey(word) in PLURAL_NO_SUFFIX && idx <= |cleaned|
    ensures UnitOp(num, word, idx, cleaned)
            == Ok(Agreement(PLURAL_NO_SUFFIX[UnitKey(word)],
                            if idx > 0 && cleaned[idx - 1] == "jeden" then cleaned[idx - 1 := "jedna"] else cleaned))
  {
    NoSuffixWord(UnitKey(word));
    LetterFirstKept(num, PLURAL_NO_SUFFIX[UnitKey(word)]);
  }

  /** A bare unit with a suffix becomes its table word; after "jeden",
      "jedna" or "jedną" it loses the suffix (one letter for the N table, two
      for the EN table) and the previous word becomes "jedna". */
  lemma SuffixUnitRead(num: Numerals, word: string, idx: nat, cleaned: seq<string>)
    requires UnitKey(word) !in PLURAL_NO_SUFFIX && idx <= |cleaned|
    requires UnitKey(word) in PLURAL_SUFFIX_EN || UnitKey(word) in PLURAL_SUFFIX_N
    ensures var u := UnitKey(word);
            var full := if u in PLURAL_SUFFIX_EN then PLURAL_SUFFIX_EN[u] else PLURAL_SUFFIX_N[u];
            var cut := if u in PLURAL_SUFFIX_EN then 2 else 1;
            UnitOp(num, word, idx, cleaned)
            == Ok(if idx > 0 && IsOne(cleaned[idx - 1])
                  then Agreement(full[..|full| - cut], cleaned[idx - 1 := "jedna"])
                  else Agreement(full, cleaned))
  {
    var u := UnitKey(word);
    SuffixWord(u);
    var full := if u in PLURAL_SUFFIX_EN then PLURAL_SUFFIX_EN[u] else PLURAL_SUFFIX_N[u];
    var cut := if u in PLURAL_SUFFIX_EN then 2 else 1;
    LetterFirstKept(num, full);
    assert full[..|full| - cut][0] == full[0];
    LetterFirstKept(num, full[..|full| - cut]);
  }

  /** A number written as one ("1", "1.0", "1.00", with any signs) glued to a
      unit with a suffix reads "jedna" and the shortened unit. */
  lemma OneWithUnitRead(num: Numerals, word: string, n: nat)
    requires 0 < n < |word| && NumberMatch(word) == n && OneLiteral(word[..n])
    requires !EndsWith(word, ".") && word[n..] !in PLURAL_NO_SUFFIX
    requires word[n..] in PLURAL_SUFFIX_EN || word[n..] in PLURAL_SUFFIX_N
    ensures var u := word[n..];
            NumberWithUnit(num, word)
            == "jedna " + (if u in PLURAL_SUFFIX_EN then DropLast(PLURAL_SUFFIX_EN[u], 2) else DropLast(PLURAL_SUFFIX_N[u], 1))
  {
    RestNoDot(word, n);
    SuffixUnitAfterOne(word[..n], word[n..]);
    ReadAsOne(num, word, n);
  }

  lemma RestNoDot(word: string, n: nat)
    requires n < |word| && !EndsWith(word, ".")
    ensures !EndsWith(word[n..], ".")
  {
    var rest := word[n..];
    assert rest[|rest| - 1] == word[|word| - 1];
  }

  /** When the unit after the number is read with "one", the token is "jedna" and the unit. */
  lemma ReadAsOne(num: Numerals, word: string, n: nat)
    requires 0 < n < |word| && NumberMatch(word) == n && !EndsWith(word[n..], ".")
    requires UnitAfter(word[..n], word[n..]).1
    ensures NumberWithUnit(num, word) == "jedna " + UnitAfter(word[..n], word[n..]).0
  {
    var unit := UnitAfter(word[..n], word[n..]).0;
    assert NumberWithUnit(num, word) == "jedna" + " " + unit;
  }

  /** After a form of "one", a unit with a suffix loses it and the number reads "jedna". */
  lemma SuffixUnitAfterOne(g: string, u: string)
    requires OneLiteral(g) && u !in PLURAL_NO_SUFFIX && (u in PLURAL_SUFFIX_EN || u in PLURAL_SUFFIX_N)
    ensures UnitAfter(g, u).1
    ensures UnitAfter(g, u).0
            == if u in PLURAL_SUFFIX_EN then DropLast(PLURAL_SUFFIX_EN[u], 2) else DropLast(PLURAL_SUFFIX_N[u], 1)
  {
  }

  /** Every unit key starts with a letter. */
  lemma DigitFirstNoUnit(u: string)
    requires u != [] && IsDigit(u[0])
    ensures u !in PLURAL_NO_SUFFIX && u !in PLURAL_SUFFIX_EN && u !in PLURAL_SUFFIX_N
  {
  }

  /** A token with no dot and no mask character is its own unit key. */
  lemma PlainKey(word: string)
    requires word != [] && word[|word| - 1] != '.' && SEP_MASK !in word
    ensures UnitKey(word) == word
  {
    MapCharAbsent(word, SEP_MASK, "_");
  }

  /** "1h" is read "jedna godzi": the hour unit loses one letter, as
      `_number_unit_op` does (core.py:684-689), although the singular is "godzina". */
  lemma OneHourRead(num: Numerals)
    ensures UnitOp(num, "1h", 0, []) == Ok(Agreement("jedna godzi", []))
  {
    PlainKey("1h");
    DigitFirstNoUnit("1h");
    assert BareUnit("1h", 0, []) == Ok(Agreement("1h", []));
    OneHourSpelled(num);
  }

  lemma OneHourSpelled(num: Numerals)
    ensures NumberWithUnit(num, "1h") == "jedna godzi"
  {
    OneHourPieces();
    OneWithUnitRead(num, "1h", 1);
    assert DropLast("godzin", 1) == "godzi";
  }

  lemma OneHourPieces()
    ensures NumberMatch("1h") == 1 && "1h"[1..] == "h" && OneLiteral("1h"[..1])
    ensures !EndsWith("1h", ".") && "h" !in PLURAL_NO_SUFFIX && "h" in PLURAL_SUFFIX_N
  {
    assert "1h"[1..] == "h" && "1h"[..1] == "1";
    MapCharAbsent("1", '+', []);
    MapCharAbsent("1", '-', []);
  }
}
