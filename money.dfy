/** Money: `_amount_money_op` rewrites every currency amount as number,
    magnitude word and currency name, splicing each rewritten term into the
    text at the match's start shifted by the running length change. */
module Money {
  import opened PyStrings
  import opened Outcomes
  import opened Tables
  import opened Spans
  import opened Numbers

  /** What the pass reads from one DETECT_CURRENCY match, once the match has been
      through the acronym pass: the first number literal in it, the first
      magnitude word ("mln", "tysiąc", ...) and the currency symbol, with
      SEP_MASK already turned back into '_'. */
  datatype CurrencyMatch = CurrencyMatch(number: Option<string>, magnitude: Option<string>, symbol: string)

  /** The rewritten term of one match. With a decimal comma and no magnitude word
      the comma becomes the currency name (`CommaTerm`). Otherwise the term is
      number, magnitude word and currency name. An unknown symbol is a KeyError. */
  function CurrencyTerm(m: CurrencyMatch): Result<string> {
    var number := if m.number.Some? then m.number.value else [];
    if m.symbol !in CURRENCY_SYMBOL then Err(KeyError(m.symbol))
    else
      var name := CURRENCY_SYMBOL[m.symbol];
      if m.magnitude.None? && ',' in number then CommaTerm(number, name)
      else
        Ok((if m.number.Some? then number + " " else [])
           + (if m.magnitude.Some? then m.magnitude.value + " " else [])
           + name)
  }

  /** A number with a decimal comma: every comma becomes the spaced currency name
      and the fraction is what follows the last name. A zero fraction is dropped,
      a fraction longer than two digits is read as two digits and then digit by
      digit; a fraction `int()` refuses is a ValueError. */
  function CommaTerm(number: string, name: string): Result<string> {
    var n := ReplaceAll(number, ",", " " + name + " ");
    var decStart: nat := RFind(n, " " + name) + |name| + 2;
    var decimals := Drop(n, decStart);
    match ParseInt(decimals)
    case None => Err(ValueError(decimals))
    case Some(v) =>
      if v == 0 then Ok(Take(n, decStart))
      else if |decimals| > 2 then
        Ok(Take(n, decStart) + " " + decimals[..2] + " " + Join(" ", Chars(decimals[2..])))
      else Ok(n)
  }

  /** `_amount_money_op`: `spans` are the bounds of the currency matches of
      `text`, in order, and `ms` what each match holds. The pass fails with the
      first match whose term fails; otherwise every match is replaced by its term. */
  method AmountMoney(text: string, spans: seq<Span>, ms: seq<CurrencyMatch>) returns (r: Result<string>)
    requires WellFormed(spans, |text|) && |ms| == |spans|
    ensures r == (var terms :- Collect(CurrencyTerm, ms, |ms|); Ok(Spliced(text, spans, terms)))
  {
    r := SpliceEach(text, spans, ms, CurrencyTerm);
  }

  // ---------------------------------------------------------------------
  // Facts

  /** A currency name is one word of letters: no space, no digit. */
  predicate IsName(name: string) {
    name != [] && forall k :: 0 <= k < |name| ==> name[k] != ' ' && !IsDigit(name[k])
  }

  lemma NamesAreWords(sym: string)
    requires sym in CURRENCY_SYMBOL
    ensures IsName(CURRENCY_SYMBOL[sym])
  {
  }

  /** Replacing the one comma of `a,z` puts `w` in its place. */
  lemma CommaReplaced(a: string, z: string, w: string)
    requires ',' !in a && ',' !in z
    ensures ReplaceAll(a + "," + z, ",", w) == a + w + z
  {
    var tail := [','] + z;
    assert a + "," + z == a + tail;
    ReplaceCharIsMapChar(a + tail, ',', w);
    MapCharConcat(a, tail, ',', w);
    MapCharAbsent(a, ',', w);
    assert tail[0] == ',' && tail[1..] == z;
    MapCharAbsent(z, ',', w);
    assert MapChar(tail, ',', w) == w + z;
  }

  /** In `a name z`, with `z` all digits, the last " name" is the one after `a`. */
  lemma LastNameAt(a: string, name: string, z: string)
    requires IsName(name) && forall k :: 0 <= k < |z| ==> IsDigit(z[k])
    ensures RFind(a + " " + name + " " + z, " " + name) == |a|
  {
    var n := a + " " + name + " " + z;
    var pat := " " + name;
    assert n[|a|..|a| + |pat|] == pat;
    assert OccursAt(n, pat, |a|);
    forall j | |a| < j
      ensures !OccursAt(n, pat, j)
    {
      if j + |pat| > |n| {
      } else if j <= |a| + |name| {
        assert n[j] == name[j - |a| - 1];
        assert n[j..j + |pat|][0] != pat[0];
      } else if j == |a| + |name| + 1 {
        assert n[j + 1] == z[0];
        assert n[j..j + |pat|][1] != pat[1];
      } else {
        assert n[j] == z[j - |a| - |name| - 2];
        assert n[j..j + |pat|][0] != pat[0];
      }
    }
    var i := RFind(n, pat);
    assert i >= |a|;
  }

  /** `a,z`, with one comma and digits after it, is rewritten as `a name z` and
      the fraction is read from `z`. */
  lemma CommaParts(a: string, z: string, name: string)
    requires IsName(name) && ',' !in a && forall k :: 0 <= k < |z| ==> IsDigit(z[k])
    ensures var n := a + " " + name + " " + z;
            CommaTerm(a + "," + z, name)
            == match ParseInt(z)
               case None => Err(ValueError(z))
               case Some(v) =>
                 if v == 0 then Ok(a + " " + name + " ")
                 else if |z| > 2 then Ok(a + " " + name + " " + " " + z[..2] + " " + Join(" ", Chars(z[2..])))
                 else Ok(n)
  {
    assert ',' !in z by {
      forall k | 0 <= k < |z| ensures z[k] != ',' { assert IsDigit(z[k]); }
    }
    CommaReplaced(a, z, " " + name + " ");
    var n := a + " " + name + " " + z;
    assert a + (" " + name + " ") + z == n;
    LastNameAt(a, name, z);
    var decStart := |a| + |name| + 2;
    assert Drop(n, decStart) == z;
    assert Take(n, decStart) == a + " " + name + " ";
  }

  /** A zero fraction is dropped: "12,00" złoty reads "12 złoty ". */
  lemma ZeroFractionDropped(m: CurrencyMatch, a: string, z: string)
    requires m.symbol in CURRENCY_SYMBOL && m.magnitude.None? && m.number == Some(a + "," + z)
    requires ',' !in a && IsDecimal(z) && ValueOf(z) == 0
    ensures CurrencyTerm(m) == Ok(a + " " + CURRENCY_SYMBOL[m.symbol] + " ")
  {
    NamesAreWords(m.symbol);
    assert ',' in a + "," + z by { assert (a + "," + z)[|a|] == ','; }
    CommaParts(a, z, CURRENCY_SYMBOL[m.symbol]);
    ParseDecimal(z);
  }

  /** A one- or two-digit fraction follows the currency name: "12,50" złoty
      reads "12 złoty 50". */
  lemma ShortFractionKept(m: CurrencyMatch, a: string, z: string)
    requires m.symbol in CURRENCY_SYMBOL && m.magnitude.None? && m.number == Some(a + "," + z)
    requires ',' !in a && IsDecimal(z) && ValueOf(z) != 0 && |z| <= 2
    ensures CurrencyTerm(m) == Ok(a + " " + CURRENCY_SYMBOL[m.symbol] + " " + z)
  {
    NamesAreWords(m.symbol);
    assert ',' in a + "," + z by { assert (a + "," + z)[|a|] == ','; }
    CommaParts(a, z, CURRENCY_SYMBOL[m.symbol]);
    ParseDecimal(z);
  }

  /** A longer fraction keeps its first two digits together and spells the rest
      digit by digit. */
  lemma LongFractionSpelled(m: CurrencyMatch, a: string, z: string)
    requires m.symbol in CURRENCY_SYMBOL && m.magnitude.None? && m.number == Some(a + "," + z)
    requires ',' !in a && IsDecimal(z) && ValueOf(z) != 0 && |z| > 2
    ensures CurrencyTerm(m)
            == Ok(a + " " + CURRENCY_SYMBOL[m.symbol] + " " + " " + z[..2] + " " + Join(" ", Chars(z[2..])))
  {
    NamesAreWords(m.symbol);
    assert ',' in a + "," + z by { assert (a + "," + z)[|a|] == ','; }
    CommaParts(a, z, CURRENCY_SYMBOL[m.symbol]);
    ParseDecimal(z);
  }

  /** An empty fraction, as in "12,", is a ValueError. */
  lemma EmptyFractionFails(m: CurrencyMatch, a: string)
    requires m.symbol in CURRENCY_SYMBOL && m.magnitude.None? && m.number == Some(a + ",")
    requires ',' !in a
    ensures CurrencyTerm(m) == Err(ValueError(""))
  {
    NamesAreWords(m.symbol);
    assert ',' in a + "," by { assert (a + ",")[|a|] == ','; }
    assert a + "," + "" == a + ",";
    CommaParts(a, "", CURRENCY_SYMBOL[m.symbol]);
    assert Strip("") == "";
  }

  /** Without a decimal comma the term is the number and the currency name. */
  lemma WholeAmount(m: CurrencyMatch)
    requires m.symbol in CURRENCY_SYMBOL && m.number.Some? && ',' !in m.number.value && m.magnitude.None?
    ensures CurrencyTerm(m) == Ok(m.number.value + " " + CURRENCY_SYMBOL[m.symbol])
  {
    assert m.number.value + " " + [] == m.number.value + " ";
  }

  /** A magnitude word always goes between the number and the name, comma or not. */
  lemma MagnitudeAmount(m: CurrencyMatch)
    requires m.symbol in CURRENCY_SYMBOL && m.number.Some? && m.magnitude.Some?
    ensures CurrencyTerm(m) == Ok(m.number.value + " " + m.magnitude.value + " " + CURRENCY_SYMBOL[m.symbol])
  {
    var number := m.number.value;
    var mag := m.magnitude.value;
    assert number + " " + (mag + " ") + CURRENCY_SYMBOL[m.symbol]
        == number + " " + mag + " " + CURRENCY_SYMBOL[m.symbol];
  }

  /** A bare symbol reads as the currency name alone. */
  lemma SymbolOnly(m: CurrencyMatch)
    requires m.symbol in CURRENCY_SYMBOL && m.number.None? && m.magnitude.None?
    ensures CurrencyTerm(m) == Ok(CURRENCY_SYMBOL[m.symbol])
  {
    assert [] + [] + CURRENCY_SYMBOL[m.symbol] == CURRENCY_SYMBOL[m.symbol];
  }
}
