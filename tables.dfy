/** The constant lookup tables of the Polish configuration classes
    (`PolishReplacementConfig`, `PolishAcronymPhonemeConfig`, `PolishUnitConfig`,
    `PolishAbbreviationConfig`) and the literal halves of the special-pattern table.
    Tables the normaliser iterates are sequences of pairs in their declaration
    order; tables it only looks up are maps. */
module Tables {
  /** The sentinel that keeps an expanded acronym in one token until the end. */
  const SEP_MASK: char := '\0'

  /** Accented character classes and their ASCII spelling, in table order. */
  const UNICODE_TO_ASCII: seq<(string, string)> := [
    ("àáâãåāăąǟǡǻȁȃȧ", "a"), ("æǣǽ", "ae"), ("çćĉċč", "c"), ("ďđ", "d"),
    ("èéêëēĕėęěȅȇȩ", "e"), ("ĝğġģǥǧǵ", "g"), ("ĥħȟ", "h"), ("ìíîïĩīĭįıȉȋ", "i"),
    ("ĵǰ", "j"), ("ķĸǩκ", "k"), ("ĺļľŀł", "l"), ("ñńņňŉŋǹ", "n"),
    ("òóôõōŏőǫǭȍȏð", "o"), ("œøǿ", "oe"), ("ŕŗřȑȓ", "r"), ("śŝşšș", "s"),
    ("ţťŧț", "t"), ("ùúûũūŭůűųȕȗ", "u"), ("ŵ", "w"), ("ýÿŷ", "y"), ("źżžȥ", "z")]

  /** Acronyms left as they are. */
  const EXCLUDE: set<string> := {"EU", "USA"}

  /** How each capital letter of an acronym is spoken. 'Ó' is missing. */
  const LETTER: map<char, string> := map[
    'A' := "a", 'B' := "be", 'C' := "ce", 'D' := "de", 'E' := "e", 'F' := "ef",
    'G' := "ge", 'H' := "ha", 'I' := "i", 'J' := "jot", 'K' := "ka", 'L' := "el",
    'M' := "em", 'N' := "en", 'O' := "o", 'P' := "pe", 'Q' := "ku", 'R' := "er",
    'S' := "es", 'T' := "te", 'U' := "u", 'V' := "fał", 'W' := "wu", 'X' := "iks",
    'Y' := "y", 'Z' := "zet", 'Ą' := "ą", 'Ć' := "ć", 'Ę' := "ę", 'Ł' := "el",
    'Ń' := "ń", 'Ś' := "ś", 'Ź' := "ź", 'Ż' := "ż"]

  /** LETTER has no name for 'Ó'. */
  lemma LetterO()
    ensures 'Ó' !in LETTER
  {
  }

  /** Units whose word does not change with the count. */
  const PLURAL_NO_SUFFIX: map<string, string> := map[
    "kg" := "kilogram", "g" := "gram", "l" := "litr", "m" := "metr", "km" := "kilometr",
    "m2" := "metr kwadratowy", "m3" := "metr sześcienny", "ml" := "mililitr"]

  /** Units whose singular drops the final letter. */
  const PLURAL_SUFFIX_N: map<string, string> := map[
    "s" := "sekund", "min" := "minut", "h" := "godzin"]

  /** Units whose singular drops the final two letters. */
  const PLURAL_SUFFIX_EN: map<string, string> := map[
    "mln" := "milionów", "mld" := "miliardów", "tys" := "tysięcy"]

  /** Miscellaneous abbreviations, in table order. */
  const MISC: seq<(string, string)> := [
    ("np.", "na przykład"), ("itd.", "i tak dalej"), ("dr", "doktor"), ("mgr", "magister")]

  /** Time units (declared by the configuration, never read by the normaliser). */
  const TIME: map<string, string> := map["s" := "sekunda", "min" := "minuta", "h" := "godzina"]

  const WEEKDAY: map<string, string> := map[
    "pon." := "poniedziałek", "wt." := "wtorek", "śr." := "środa", "czw." := "czwartek",
    "pt." := "piątek", "sob." := "sobota", "ndz." := "niedziela"]

  const MONTH: map<string, string> := map[
    "styczeń" := "styczeń", "luty" := "luty", "marzec" := "marzec", "kwiecień" := "kwiecień",
    "maj" := "maj", "czerwiec" := "czerwiec", "lipiec" := "lipiec", "sierpień" := "sierpień",
    "wrzesień" := "wrzesień", "październik" := "październik", "listopad" := "listopad",
    "grudzień" := "grudzień", "sty." := "styczeń", "lut." := "luty", "mar." := "marzec",
    "kwi." := "kwiecień", "cze." := "czerwiec", "lip." := "lipiec", "sie." := "sierpień",
    "wrz." := "wrzesień", "paź." := "październik", "lis." := "listopad", "gru." := "grudzień"]

  const NUMBER_MONTH: map<string, string> := map[
    "1" := "styczeń", "01" := "styczeń", "2" := "luty", "02" := "luty", "3" := "marzec",
    "03" := "marzec", "4" := "kwiecień", "04" := "kwiecień", "5" := "maj", "05" := "maj",
    "6" := "czerwiec", "06" := "czerwiec", "7" := "lipiec", "07" := "lipiec",
    "8" := "sierpień", "08" := "sierpień", "9" := "wrzesień", "09" := "wrzesień",
    "10" := "październik", "11" := "listopad", "12" := "grudzień"]

  const CURRENCY_SYMBOL: map<string, string> := map[
    "PLN" := "złoty", "USD" := "dolar", "EUR" := "euro", "GBP" := "funt", "CHF" := "frank"]

  /** Mathematical symbols and how they are read, in table order. */
  const MATH_SYMBOL: seq<(string, string)> := [
    ("+", "plus"), ("-", "minus"), ("*", "razy"), ("/", "podzielić przez"), ("=", "równa się"),
    ("<", "mniej niż"), (">", "więcej niż"), ("±", "plus minus"), ("≤", "mniejsze lub równe"),
    ("≥", "większe lub równe"), ("^", "do potęgi"), ("√", "pierwiastek"), ("∑", "suma"),
    ("∏", "iloczyn"), ("%", "procent")]

  /** The (literal, replacement) halves of the special-pattern table, in table order;
      the patterns that guard them are regular expressions and are not modelled. */
  const SPECIAL: seq<(string, string)> := [
    ("+/-", "plus minus"), ("&", " i "), ("-", " do "), ("/", " z "),
    ("1/10", "jedna dziesiąta"), ("⅒", "jedna dziesiąta"), ("1/9", "jedna dziewiąta"),
    ("⅑", "jedna dziewiąta"), ("1/8", "jedna ósma"), ("⅛", "jedna ósma"),
    ("1/7", "jedna siódma"), ("⅐", "jedna siódma"), ("1/6", "jedna szósta"),
    ("⅙", "jedna szósta"), ("1/5", "jedna piąta"), ("⅕", "jedna piąta"),
    ("1/4", "jedna czwarta"), ("¼", "jedna czwarta"), ("1/3", "jedna trzecia"),
    ("⅓", "jedna trzecia"), ("1/2", "pół"), ("½", "pół"), ("1000", "tysiąc")]
}
