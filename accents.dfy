/** Accents: `_accent_peculiarity_op` rewrites, class by class in table order,
    every character of a class to the class's ASCII spelling. */
module Accents {
  import opened PyStrings
  import opened Tables

  /** `re.sub('|'.join(chars), mapped, s)`: every character of `cls` in `s` becomes `repl`. */
  function SubClass(s: string, cls: string, repl: string): string {
    if s == [] then [] else (if s[0] in cls then repl else [s[0]]) + SubClass(s[1..], cls, repl)
  }

  /** The text after the first `k` classes of the table have been substituted. */
  function AccentsUpTo(s: string, k: nat): string
    requires k <= |UNICODE_TO_ASCII|
  {
    if k == 0 then s else SubClass(AccentsUpTo(s, k - 1), UNICODE_TO_ASCII[k - 1].0, UNICODE_TO_ASCII[k - 1].1)
  }

  /** `_accent_peculiarity_op`. */
  method StripAccents(text: string) returns (r: string)
    ensures r == Transliterated(text)
  {
    r := text;
    for k := 0 to |UNICODE_TO_ASCII|
      invariant r == AccentsUpTo(text, k)
    {
      r := SubClass(r, UNICODE_TO_ASCII[k].0, UNICODE_TO_ASCII[k].1);
    }
    AccentsUpToIsTransliterated(text, |UNICODE_TO_ASCII|);
  }

  // ---------------------------------------------------------------------
  // The reference: one character at a time

  /** `c` belongs to one of the first `k` classes. */
  predicate InClasses(c: char, k: nat)
    requires k <= |UNICODE_TO_ASCII|
  {
    k > 0 && (InClasses(c, k - 1) || c in UNICODE_TO_ASCII[k - 1].0)
  }

  /** The spelling of `c` after the first `k` classes: the ASCII spelling of the
      first of them that holds `c`, or `c` itself. */
  function SpellingUpTo(c: char, k: nat): string
    requires k <= |UNICODE_TO_ASCII|
  {
    if k == 0 then [c]
    else if InClasses(c, k - 1) then SpellingUpTo(c, k - 1)
    else if c in UNICODE_TO_ASCII[k - 1].0 then UNICODE_TO_ASCII[k - 1].1
    else [c]
  }

  /** The ASCII spelling of one character. */
  function AsciiFor(c: char): string {
    SpellingUpTo(c, |UNICODE_TO_ASCII|)
  }

  function SpelledUpTo(s: string, k: nat): string
    requires k <= |UNICODE_TO_ASCII|
  {
    if s == [] then [] else SpellingUpTo(s[0], k) + SpelledUpTo(s[1..], k)
  }

  /** The reference: every character replaced by its ASCII spelling. */
  function Transliterated(s: string): string {
    SpelledUpTo(s, |UNICODE_TO_ASCII|)
  }

  // ---------------------------------------------------------------------
  // Facts

  predicate IsAscii(c: char) { c as int < 128 }

  /** Every class holds only non-ASCII characters and every spelling is ASCII. */
  lemma TableShape(j: nat)
    requires j < |UNICODE_TO_ASCII|
    ensures forall c :: c in UNICODE_TO_ASCII[j].0 ==> !IsAscii(c)
    ensures forall c :: c in UNICODE_TO_ASCII[j].1 ==> IsAscii(c)
  {
    if j < 7 {
      TableShapeLow(j);
    } else if j < 14 {
      TableShapeMiddle(j);
    } else {
      TableShapeHigh(j);
    }
  }

  /** `TableShape` for the entries before 'k'. */
  lemma TableShapeLow(j: nat)
    requires j < 7
    ensures forall c :: c in UNICODE_TO_ASCII[j].0 ==> !IsAscii(c)
    ensures forall c :: c in UNICODE_TO_ASCII[j].1 ==> IsAscii(c)
  {
  }

  /** `TableShape` for the entries from 'j' to 'oe'. */
  lemma TableShapeMiddle(j: nat)
    requires 7 <= j < 14
    ensures forall c :: c in UNICODE_TO_ASCII[j].0 ==> !IsAscii(c)
    ensures forall c :: c in UNICODE_TO_ASCII[j].1 ==> IsAscii(c)
  {
  }

  /** `TableShape` for the entries from 'r' on. */
  lemma TableShapeHigh(j: nat)
    requires 14 <= j < |UNICODE_TO_ASCII|
    ensures forall c :: c in UNICODE_TO_ASCII[j].0 ==> !IsAscii(c)
    ensures forall c :: c in UNICODE_TO_ASCII[j].1 ==> IsAscii(c)
  {
  }

  lemma {:induction false} SpellingIsAsciiOrSelf(c: char, k: nat)
    requires k <= |UNICODE_TO_ASCII|
    ensures InClasses(c, k) ==> forall d :: d in SpellingUpTo(c, k) ==> IsAscii(d)
    ensures !InClasses(c, k) ==> SpellingUpTo(c, k) == [c]
  {
    if k > 0 {
      SpellingIsAsciiOrSelf(c, k - 1);
      TableShape(k - 1);
    }
  }

  lemma {:induction false} SubClassConcat(a: string, b: string, cls: string, repl: string)
    ensures SubClass(a + b, cls, repl) == SubClass(a, cls, repl) + SubClass(b, cls, repl)
  {
    if a != [] {
      assert (a + b)[0] == a[0];
      assert (a + b)[1..] == a[1..] + b;
      SubClassConcat(a[1..], b, cls, repl);
    } else {
      assert a + b == b;
    }
  }

  lemma {:induction false} SubClassAbsent(s: string, cls: string, repl: string)
    requires forall c :: c in s ==> c !in cls
    ensures SubClass(s, cls, repl) == s
  {
    if s != [] {
      SubClassAbsent(s[1..], cls, repl);
    }
  }

  /** Substituting class `k` spells one more class. */
  lemma SpellingStep(c: char, k: nat)
    requires k < |UNICODE_TO_ASCII|
    ensures SubClass(SpellingUpTo(c, k), UNICODE_TO_ASCII[k].0, UNICODE_TO_ASCII[k].1) == SpellingUpTo(c, k + 1)
  {
    SpellingIsAsciiOrSelf(c, k);
    TableShape(k);
    if InClasses(c, k) {
      SubClassAbsent(SpellingUpTo(c, k), UNICODE_TO_ASCII[k].0, UNICODE_TO_ASCII[k].1);
    } else {
      assert [c][1..] == [];
    }
  }

  lemma {:induction false} SpelledStep(s: string, k: nat)
    requires k < |UNICODE_TO_ASCII|
    ensures SubClass(SpelledUpTo(s, k), UNICODE_TO_ASCII[k].0, UNICODE_TO_ASCII[k].1) == SpelledUpTo(s, k + 1)
  {
    if s != [] {
      SpelledStep(s[1..], k);
      SpellingStep(s[0], k);
      SubClassConcat(SpellingUpTo(s[0], k), SpelledUpTo(s[1..], k), UNICODE_TO_ASCII[k].0, UNICODE_TO_ASCII[k].1);
    }
  }

  lemma {:induction false} SpelledNone(s: string)
    ensures SpelledUpTo(s, 0) == s
  {
    if s != [] {
      SpelledNone(s[1..]);
      assert s == [s[0]] + s[1..];
    }
  }

  /** Substituting the classes one after another, as the pass does, spells every
      character on its own. */
  lemma {:induction false} AccentsUpToIsTransliterated(s: string, k: nat)
    requires k <= |UNICODE_TO_ASCII|
    ensures AccentsUpTo(s, k) == SpelledUpTo(s, k)
  {
    if k == 0 {
      SpelledNone(s);
    } else {
      AccentsUpToIsTransliterated(s, k - 1);
      AccentsStep(s, k);
    }
  }

  lemma AccentsStep(s: string, k: nat)
    requires 0 < k <= |UNICODE_TO_ASCII| && AccentsUpTo(s, k - 1) == SpelledUpTo(s, k - 1)
    ensures AccentsUpTo(s, k) == SpelledUpTo(s, k)
  {
    SpelledStep(s, k - 1);
  }

  /** No character of any class survives the pass. */
  lemma {:induction false} NoClassCharLeft(s: string)
    ensures forall c :: c in Transliterated(s) ==> !InClasses(c, |UNICODE_TO_ASCII|)
  {
    if s != [] {
      NoClassCharLeft(s[1..]);
      SpellingIsAsciiOrSelf(s[0], |UNICODE_TO_ASCII|);
      forall c | c in AsciiFor(s[0]) ensures !InClasses(c, |UNICODE_TO_ASCII|) {
        if InClasses(s[0], |UNICODE_TO_ASCII|) {
          AsciiNotInClasses(c, |UNICODE_TO_ASCII|);
        }
      }
    }
  }

  lemma {:induction false} AsciiNotInClasses(c: char, k: nat)
    requires k <= |UNICODE_TO_ASCII| && IsAscii(c)
    ensures !InClasses(c, k)
  {
    if k > 0 {
      AsciiNotInClasses(c, k - 1);
      TableShape(k - 1);
    }
  }

  /** A text with no character of any class is left as it is. */
  lemma {:induction false} OthersUnchanged(s: string)
    requires forall c :: c in s ==> !InClasses(c, |UNICODE_TO_ASCII|)
    ensures Transliterated(s) == s
  {
    if s != [] {
      OthersUnchanged(s[1..]);
      SpellingIsAsciiOrSelf(s[0], |UNICODE_TO_ASCII|);
      assert s == [s[0]] + s[1..];
    }
  }

  /** Running the pass twice gives what running it once gives. */
  lemma Idempotent(s: string)
    ensures Transliterated(Transliterated(s)) == Transliterated(s)
  {
    NoClassCharLeft(s);
    OthersUnchanged(Transliterated(s));
  }

  /** A character is spelled by the first class that holds it. */
  lemma FirstClassSpelling(c: char, j: nat)
    requires j < |UNICODE_TO_ASCII| && c in UNICODE_TO_ASCII[j].0 && !InClasses(c, j)
    ensures AsciiFor(c) == UNICODE_TO_ASCII[j].1
  {
    SpellingKept(c, j + 1, |UNICODE_TO_ASCII|);
  }

  lemma {:induction false} SpellingKept(c: char, k: nat, m: nat)
    requires 0 < k <= m <= |UNICODE_TO_ASCII| && InClasses(c, k)
    ensures InClasses(c, m) && SpellingUpTo(c, m) == SpellingUpTo(c, k)
    decreases m - k
  {
    if k < m {
      SpellingKept(c, k, m - 1);
    }
  }
}
