/** Numbers: Python's `int()` on a literal, the number and ordinal detectors
    (`DETECT_NUMBER`, `DETECT_ORDINAL`, both matched at the start of a word),
    the numeral converter the normaliser consumes, and `_transliterate_number`. */
module Numbers {
  import opened PyStrings
  import opened Outcomes

  /** The external numeral converter (num2words with the Polish locale), as values:
      nothing is assumed about the words it produces. */
  datatype Numerals = Numerals(
    cardinal: int -> string,            // cardinal words of an integer
    decimal: string -> Option<string>,  // cardinal words of float(s); None when float() refuses s
    ordinal: string -> Option<string>,  // ordinal words of a literal; None when it raises
    year: string -> Option<string>)     // year words of a literal; None when it raises

  /** The decimal value of a digit string, skipping the '_' separators `int()` allows. */
  function ValueOf(s: string): nat {
    if s == [] then 0
    else if s[|s| - 1] == '_' then ValueOf(s[..|s| - 1])
    else ValueOf(s[..|s| - 1]) * 10 + DigitValue(s[|s| - 1])
  }

  function DigitValue(c: char): nat { if IsDigit(c) then c as int - '0' as int else 0 }

  /** The body `int()` accepts after the sign: ASCII digits, with single
      underscores between two digits. */
  predicate IsIntBody(s: string) {
    && s != [] && IsDigit(s[0]) && IsDigit(s[|s| - 1])
    && forall k :: 0 <= k < |s| ==> BodyCharAt(s, k)
  }

  predicate BodyCharAt(s: string, k: int)
    requires 0 <= k < |s|
  {
    IsDigit(s[k]) || (s[k] == '_' && 0 < k < |s| - 1 && IsDigit(s[k - 1]) && IsDigit(s[k + 1]))
  }

  /** `int(s)` for base 10: surrounding whitespace, an optional sign, the body. */
  function ParseInt(s: string): Option<int> {
    var t := Strip(s);
    if t != [] && (t[0] == '+' || t[0] == '-') then
      var v: int := ValueOf(t[1..]);
      if IsIntBody(t[1..]) then Some(if t[0] == '-' then -v else v) else None
    else if IsIntBody(t) then Some(ValueOf(t))
    else None
  }

  /** A character of the repeated tail `[\d\.,]*` of `DETECT_NUMBER`. */
  predicate IsNumberChar(c: char) { IsDigit(c) || c == '.' || c == ',' }

  /** `[\+\-]{0,1}\d+[\d\.,]*` matches the whole of `s`. */
  predicate IsNumberLiteral(s: string) {
    var b := if |s| > 0 && (s[0] == '+' || s[0] == '-') then 1 else 0;
    && b < |s| && IsDigit(s[b])
    && forall k :: b < k < |s| ==> IsNumberChar(s[k])
  }

  function NumberRun(s: string): (n: nat)
    ensures n <= |s|
    ensures forall k :: 0 <= k < n ==> IsNumberChar(s[k])
    ensures n == |s| || !IsNumberChar(s[n])
  {
    if s == [] || !IsNumberChar(s[0]) then 0 else 1 + NumberRun(s[1..])
  }

  /** `DETECT_NUMBER.match(w)`: the length of the match at the start of `w`,
      0 when there is none. The match is a number literal and cannot be extended. */
  function NumberMatch(w: string): (n: nat)
    ensures n <= |w|
    ensures n > 0 ==> IsNumberLiteral(w[..n]) && (n == |w| || !IsNumberChar(w[n]))
    ensures n == 0 <==> forall m :: 0 < m <= |w| ==> !IsNumberLiteral(w[..m])
  {
    if |w| > 1 && (w[0] == '+' || w[0] == '-') && IsDigit(w[1]) then
      2 + NumberRun(w[2..])
    else if |w| > 0 && IsDigit(w[0]) then
      1 + NumberRun(w[1..])
    else
      0
  }

  function DigitRun(s: string): (n: nat)
    ensures n <= |s|
    ensures forall k :: 0 <= k < n ==> IsDigit(s[k])
    ensures n == |s| || !IsDigit(s[n])
  {
    if s == [] || !IsDigit(s[0]) then 0 else 1 + DigitRun(s[1..])
  }

  /** `DETECT_ORDINAL.match(w)` succeeds: an optional opening bracket, digits and a dot
      at the start of `w` (the closing bracket is optional, so it never decides). */
  predicate OrdinalMatch(w: string) {
    var b := if |w| > 0 && (w[0] == '(' || w[0] == '[') then 1 else 0;
    var d := DigitRun(w[b..]);
    d > 0 && b + d < |w| && w[b + d] == '.'
  }

  /** `_transliterate_number`: a literal becomes cardinal words; a literal
      `int()` refuses is given back with its separators rewritten. */
  function TransliterateNumber(num: Numerals, number: string): string {
    var n := if Count(number, ',') == 1 && Count(number, '.') >= 1 then Without(number, '.') else number;
    if Count(n, ',') == 1 then
      var f := MapChar(n, ',', ".");
      match num.decimal(f)
      case Some(w) => Lower(w)
      case None => f
    else if Count(n, '.') >= 1 then
      var i := Without(n, '.');
      match ParseInt(i)
      case Some(v) => Lower(num.cardinal(v))
      case None => i
    else
      match ParseInt(n)
      case Some(v) => Lower(num.cardinal(v))
      case None => n
  }

  // ---------------------------------------------------------------------
  // Facts

  lemma {:induction false} StripDecimal(s: string)
    requires IsDecimal(s)
    ensures Strip(s) == s
  {
    assert !IsSpace(s[0]);
    assert StripLeft(s) == s;
    assert !IsSpace(s[|s| - 1]);
  }

  /** `int()` reads a plain digit string as its decimal value. */
  lemma {:induction false} ParseDecimal(s: string)
    requires IsDecimal(s)
    ensures ParseInt(s) == Some(ValueOf(s))
  {
    StripDecimal(s);
    assert IsIntBody(s);
  }

  lemma {:induction false} CountAbsent(s: string, c: char)
    requires c !in s
    ensures Count(s, c) == 0
  {
    if s != [] {
      assert s[0] != c;
      CountAbsent(s[1..], c);
    }
  }

  lemma {:induction false} CountPresent(s: string, c: char)
    requires c in s
    ensures Count(s, c) >= 1
  {
    if s[0] != c {
      CountPresent(s[1..], c);
    }
  }

  lemma {:induction false} WithoutKeepsOthers(s: string, c: char)
    ensures forall k :: 0 <= k < |Without(s, c)| ==> Without(s, c)[k] in s && Without(s, c)[k] != c
  {
    if s != [] {
      WithoutKeepsOthers(s[1..], c);
      var w := Without(s, c);
      var tail := Without(s[1..], c);
      MapCharConcat([s[0]], s[1..], c, []);
      assert s == [s[0]] + s[1..];
      forall k | 0 <= k < |w| ensures w[k] in s && w[k] != c {
        if s[0] == c {
          assert w == tail;
        } else {
          assert w == [s[0]] + tail;
          if k > 0 { assert w[k] == tail[k - 1]; }
        }
      }
    }
  }

  /** A literal of plain digits becomes the cardinal words of its value. */
  lemma IntegerLiteralIsCardinal(num: Numerals, s: string)
    requires IsDecimal(s)
    ensures TransliterateNumber(num, s) == Lower(num.cardinal(ValueOf(s)))
  {
    CountAbsent(s, ',');
    CountAbsent(s, '.');
    ParseDecimal(s);
  }

  /** Dots between digits are read as thousands separators: "1.000" is a thousand. */
  lemma GroupedLiteralIsCardinal(num: Numerals, s: string)
    requires '.' in s && ',' !in s
    requires IsDecimal(Without(s, '.'))
    ensures TransliterateNumber(num, s) == Lower(num.cardinal(ValueOf(Without(s, '.'))))
  {
    CountAbsent(s, ',');
    CountPresent(s, '.');
    ParseDecimal(Without(s, '.'));
  }

  /** A literal with two or more decimal commas is not a number: it is given back unchanged. */
  lemma CommaListIsKept(num: Numerals, s: string)
    requires Count(s, ',') >= 2 && '.' !in s
    ensures TransliterateNumber(num, s) == s
  {
    CountAbsent(s, '.');
    ParseIntRejectsComma(s);
  }

  /** `int()` refuses any literal with a comma in it. */
  lemma ParseIntRejectsComma(s: string)
    requires Count(s, ',') >= 1
    ensures ParseInt(s).None?
  {
    CommaSurvivesStrip(s);
    var t := Strip(s);
    var k :| 0 <= k < |t| && t[k] == ',';
    if t != [] && (t[0] == '+' || t[0] == '-') {
      var b := t[1..];
      assert b[k - 1] == ',';
      assert !BodyCharAt(b, k - 1);
    } else {
      assert !BodyCharAt(t, k);
    }
  }

  lemma {:induction false} CommaSurvivesStrip(s: string)
    requires Count(s, ',') >= 1
    ensures ',' in Strip(s)
  {
    CommaInStripLeft(s);
    CommaInStripRight(StripLeft(s));
  }

  lemma {:induction false} CommaInStripLeft(s: string)
    requires Count(s, ',') >= 1
    ensures Count(StripLeft(s), ',') >= 1
  {
    if s != [] && IsSpace(s[0]) {
      CommaInStripLeft(s[1..]);
    }
  }

  lemma {:induction false} CommaInStripRight(s: string)
    requires Count(s, ',') >= 1
    ensures ',' in StripRight(s)
  {
    if s != [] && IsSpace(s[|s| - 1]) {
      CountSplitLast(s, ',');
      CommaInStripRight(s[..|s| - 1]);
      assert StripRight(s) == StripRight(s[..|s| - 1]);
    } else {
      CountInSeq(s, ',');
    }
  }

  lemma {:induction false} CountSplitLast(s: string, c: char)
    requires s != []
    ensures Count(s, c) == Count(s[..|s| - 1], c) + (if s[|s| - 1] == c then 1 else 0)
  {
    if |s| > 1 {
      assert s[1..][..|s[1..]| - 1] == s[..|s| - 1][1..];
      CountSplitLast(s[1..], c);
    }
  }

  lemma {:induction false} CountInSeq(s: string, c: char)
    requires Count(s, c) >= 1
    ensures c in s
  {
    if s[0] != c {
      CountInSeq(s[1..], c);
    }
  }

  /** `int()` refuses a literal that ends in something other than a digit. */
  lemma NotAnInt(s: string)
    requires s != [] && !IsSpace(s[0]) && !IsSpace(s[|s| - 1]) && !IsDigit(s[|s| - 1])
    ensures ParseInt(s) == None
  {
    assert StripLeft(s) == s;
    assert Strip(s) == s;
    if s[0] == '+' || s[0] == '-' {
      assert s[1..] == [] || s[1..][|s[1..]| - 1] == s[|s| - 1];
    }
  }
}
