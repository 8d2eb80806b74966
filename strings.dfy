/** The Python `str` operations the normaliser relies on, over `seq<char>`:
    find / rfind, `in`, replace (all and first), split / join, strip,
    endswith, count, clamped slicing, lower() and the whitespace class. */
module PyStrings {

  /** `pat` occurs in `s` starting at position `j`. */
  predicate OccursAt(s: string, pat: string, j: int) {
    0 <= j && j + |pat| <= |s| && s[j..j + |pat|] == pat
  }

  /** `s.find(pat)`: the first position where `pat` occurs, or -1. */
  function Find(s: string, pat: string): (i: int)
    ensures -1 <= i <= |s|
    ensures i >= 0 ==> OccursAt(s, pat, i)
    ensures forall j :: 0 <= j && (i < 0 || j < i) ==> !OccursAt(s, pat, j)
  {
    FindFrom(s, pat, 0)
  }

  function FindFrom(s: string, pat: string, k: nat): (i: int)
    decreases |s| + 1 - k
    ensures i == -1 || (k <= i <= |s| && OccursAt(s, pat, i))
    ensures forall j :: k <= j && (i < 0 || j < i) ==> !OccursAt(s, pat, j)
  {
    if k + |pat| > |s| then -1
    else if s[k..k + |pat|] == pat then k
    else FindFrom(s, pat, k + 1)
  }

  /** `s.rfind(pat)`: the last position where `pat` occurs, or -1. */
  function RFind(s: string, pat: string): (i: int)
    ensures -1 <= i <= |s|
    ensures i >= 0 ==> OccursAt(s, pat, i)
    ensures forall j :: i < j ==> !OccursAt(s, pat, j)
  {
    RFindAtMost(s, pat, |s|)
  }

  function RFindAtMost(s: string, pat: string, k: int): (i: int)
    requires k <= |s|
    requires forall j :: k < j ==> !OccursAt(s, pat, j)
    decreases k + 1
    ensures -1 <= i && (i >= 0 ==> i <= k && OccursAt(s, pat, i))
    ensures forall j :: i < j ==> !OccursAt(s, pat, j)
  {
    if k < 0 then -1
    else if OccursAt(s, pat, k) then k
    else RFindAtMost(s, pat, k - 1)
  }

  /** Python's `pat in s`. */
  predicate Contains(s: string, pat: string) {
    Find(s, pat) >= 0
  }

  /** `s.replace(old, new, 1)`. */
  function ReplaceFirst(s: string, pat: string, repl: string): string {
    var i := Find(s, pat);
    if i < 0 then s else s[..i] + repl + s[i + |pat|..]
  }

  /** `s.replace(old, new)`: every non-overlapping occurrence, left to right;
      an empty `old` inserts `new` before every character and at the end. */
  function ReplaceAll(s: string, pat: string, repl: string): string
    decreases |s|
  {
    if pat == [] then
      if s == [] then repl else repl + [s[0]] + ReplaceAll(s[1..], pat, repl)
    else
      var i := Find(s, pat);
      if i < 0 then s else s[..i] + repl + ReplaceAll(s[i + |pat|..], pat, repl)
  }

  /** Every `c` of `s` replaced by `repl`, character by character. */
  function MapChar(s: string, c: char, repl: string): string {
    if s == [] then [] else (if s[0] == c then repl else [s[0]]) + MapChar(s[1..], c, repl)
  }

  /** `s.replace(c, '')` for a single character `c`. */
  function Without(s: string, c: char): string {
    MapChar(s, c, [])
  }

  /** `s.count(c)` for a single character `c`. */
  function Count(s: string, c: char): nat {
    if s == [] then 0 else (if s[0] == c then 1 else 0) + Count(s[1..], c)
  }

  predicate EndsWith(s: string, suffix: string) {
    |suffix| <= |s| && s[|s| - |suffix|..] == suffix
  }

  function Min(a: int, b: int): int { if a <= b then a else b }

  /** `s[i:j]` for non-negative bounds, clamped as Python clamps them. */
  function Slice(s: string, i: nat, j: nat): string {
    var a := Min(i, |s|);
    var b := Min(j, |s|);
    if a <= b then s[a..b] else []
  }

  /** `s[:n]` for a non-negative `n`. */
  function Take(s: string, n: nat): string { s[..Min(n, |s|)] }

  /** `s[n:]` for a non-negative `n`. */
  function Drop(s: string, n: nat): string { s[Min(n, |s|)..] }

  /** `s.split(sep)` for a non-empty separator (Python refuses an empty one). */
  function Split(s: string, sep: string): (parts: seq<string>)
    requires sep != []
    ensures |parts| >= 1
    decreases |s|
  {
    var i := Find(s, sep);
    if i < 0 then [s] else [s[..i]] + Split(s[i + |sep|..], sep)
  }

  /** `sep.join(parts)`. */
  function Join(sep: string, parts: seq<string>): string {
    if |parts| == 0 then []
    else if |parts| == 1 then parts[0]
    else parts[0] + sep + Join(sep, parts[1..])
  }

  /** The one-character strings of `s`, as `[c for c in s]` builds them. */
  function Chars(s: string): (cs: seq<string>)
    ensures |cs| == |s|
    ensures forall k :: 0 <= k < |s| ==> cs[k] == [s[k]]
  {
    seq(|s|, k requires 0 <= k < |s| => [s[k]])
  }

  /** The characters `str.isspace()` and the regular expression `\s` accept. */
  predicate IsSpace(c: char) {
    || c == ' ' || '\t' <= c <= '\r' || '\U{1C}' <= c <= '\U{1F}'
    || c == '\U{85}' || c == '\U{A0}' || c == '\U{1680}' || '\U{2000}' <= c <= '\U{200A}'
    || c == '\U{2028}' || c == '\U{2029}' || c == '\U{202F}' || c == '\U{205F}' || c == '\U{3000}'
  }

  function StripLeft(s: string): string {
    if s != [] && IsSpace(s[0]) then StripLeft(s[1..]) else s
  }

  function StripRight(s: string): string {
    if s != [] && IsSpace(s[|s| - 1]) then StripRight(s[..|s| - 1]) else s
  }

  /** `s.strip()`. */
  function Strip(s: string): string { StripRight(StripLeft(s)) }

  predicate IsDigit(c: char) { '0' <= c <= '9' }

  /** `s.isdecimal()`, for ASCII digits. */
  predicate IsDecimal(s: string) {
    s != [] && forall k :: 0 <= k < |s| ==> IsDigit(s[k])
  }

  /** The upper-case letters the acronym detector accepts: A-Z and the Polish ones. */
  predicate IsUpperPolish(c: char) {
    'A' <= c <= 'Z' || c in "ĄĆĘŁŃÓŚŹŻ"
  }

  /** `c.lower()` on ASCII and the Polish upper-case letters; other characters stay. */
  function LowerChar(c: char): (d: char)
    ensures !IsUpperPolish(d)
    ensures !IsUpperPolish(c) ==> d == c
  {
    if 'A' <= c <= 'Z' then (c as int + 32) as char
    else if c == 'Ą' then 'ą' else if c == 'Ć' then 'ć' else if c == 'Ę' then 'ę'
    else if c == 'Ł' then 'ł' else if c == 'Ń' then 'ń' else if c == 'Ó' then 'ó'
    else if c == 'Ś' then 'ś' else if c == 'Ź' then 'ź' else if c == 'Ż' then 'ż'
    else c
  }

  /** `s.lower()`, restricted to the letters `LowerChar` knows. */
  function Lower(s: string): (r: string)
    ensures |r| == |s|
    ensures forall k :: 0 <= k < |r| ==> r[k] == LowerChar(s[k])
  {
    seq(|s|, k requires 0 <= k < |s| => LowerChar(s[k]))
  }

  // ---------------------------------------------------------------------
  // Facts about the helpers

  lemma {:induction false} FindAbsent(s: string, pat: string)
    requires forall j :: !OccursAt(s, pat, j)
    ensures Find(s, pat) == -1
  {
  }

  /** A single character that does not occur is not found. */
  lemma CharNotFound(s: string, c: char)
    requires c !in s
    ensures Find(s, [c]) == -1
  {
    OccursAtChar(s, c);
  }

  lemma OccursAtChar(s: string, c: char)
    ensures forall j :: OccursAt(s, [c], j) ==> s[j] == c
  {
    forall j | OccursAt(s, [c], j) ensures s[j] == c {
      assert s[j..j + 1][0] == s[j];
    }
  }

  /** A single character is found at its first occurrence. */
  lemma CharFound(s: string, c: char, i: nat)
    requires i < |s| && s[i] == c && c !in s[..i]
    ensures Find(s, [c]) == i
  {
    assert s[i..i + 1] == [c];
    assert OccursAt(s, [c], i);
  }

  lemma {:induction false} MapCharConcat(a: string, b: string, c: char, repl: string)
    ensures MapChar(a + b, c, repl) == MapChar(a, c, repl) + MapChar(b, c, repl)
  {
    if a == [] {
      assert a + b == b;
    } else {
      assert (a + b)[0] == a[0];
      assert (a + b)[1..] == a[1..] + b;
      MapCharConcat(a[1..], b, c, repl);
    }
  }

  lemma {:induction false} MapCharAbsent(s: string, c: char, repl: string)
    requires c !in s
    ensures MapChar(s, c, repl) == s
  {
    if s != [] {
      assert s[0] != c;
      MapCharAbsent(s[1..], c, repl);
    }
  }

  /** The first position of a character, as a plain loop over the string finds it. */
  function FirstOf(s: string, c: char): (i: nat)
    ensures i <= |s|
    ensures c !in s[..i]
    ensures i < |s| ==> s[i] == c
  {
    if s == [] || s[0] == c then 0 else 1 + FirstOf(s[1..], c)
  }

  lemma ReplaceAllAt(s: string, c: char, repl: string, i: nat)
    requires i < |s| && Find(s, [c]) == i
    ensures ReplaceAll(s, [c], repl) == s[..i] + repl + ReplaceAll(s[i + 1..], [c], repl)
  {
  }

  /** `s.replace(c, new)` on one character is the character-by-character map. */
  lemma {:induction false} ReplaceCharIsMapChar(s: string, c: char, repl: string)
    ensures ReplaceAll(s, [c], repl) == MapChar(s, c, repl)
    decreases |s|
  {
    var i := FirstOf(s, c);
    if i == |s| {
      assert s[..i] == s;
      CharNotFound(s, c);
      MapCharAbsent(s, c, repl);
    } else {
      CharFound(s, c, i);
      var rest := s[i + 1..];
      ReplaceAllAt(s, c, repl, i);
      ReplaceCharIsMapChar(rest, c, repl);
      MapCharAt(s, c, repl, i);
    }
  }

  lemma MapCharAt(s: string, c: char, repl: string, i: nat)
    requires i < |s| && s[i] == c && c !in s[..i]
    ensures MapChar(s, c, repl) == s[..i] + repl + MapChar(s[i + 1..], c, repl)
  {
    assert s == s[..i] + ([c] + s[i + 1..]);
    MapCharConcat(s[..i], [c] + s[i + 1..], c, repl);
    MapCharConcat([c], s[i + 1..], c, repl);
    MapCharAbsent(s[..i], c, repl);
    assert MapChar([c], c, repl) == repl;
  }

  /** After `MapChar`, `c` is gone when the replacement does not contain it. */
  lemma {:induction false} MapCharRemoves(s: string, c: char, repl: string)
    requires c !in repl
    ensures c !in MapChar(s, c, repl)
  {
    if s != [] {
      MapCharRemoves(s[1..], c, repl);
    }
  }

  lemma {:induction false} MapCharKeepsOthers(s: string, c: char, repl: string, d: char)
    requires d != c && d !in repl
    ensures d in MapChar(s, c, repl) <==> d in s
  {
    if s != [] {
      MapCharKeepsOthers(s[1..], c, repl, d);
      assert s == [s[0]] + s[1..];
    }
  }

  /** Joining what `Split` cut gives the text back. */
  lemma {:induction false} JoinSplit(s: string, sep: string)
    requires sep != []
    ensures Join(sep, Split(s, sep)) == s
    decreases |s|
  {
    var i := Find(s, sep);
    if i >= 0 {
      var rest := s[i + |sep|..];
      var tail := Split(rest, sep);
      assert Split(s, sep) == [s[..i]] + tail;
      JoinSplit(rest, sep);
      assert ([s[..i]] + tail)[1..] == tail;
      assert Join(sep, [s[..i]] + tail) == s[..i] + sep + Join(sep, tail);
      assert s[i..i + |sep|] == sep;
      assert s == s[..i] + s[i..i + |sep|] + rest;
    }
  }

  /** No piece `Split` returns contains the separator. */
  lemma {:induction false} SplitPiecesFree(s: string, sep: string)
    requires sep != []
    ensures forall k :: 0 <= k < |Split(s, sep)| ==> !Contains(Split(s, sep)[k], sep)
    decreases |s|
  {
    var i := Find(s, sep);
    if i >= 0 {
      SplitPiecesFree(s[i + |sep|..], sep);
      forall j | OccursAt(s[..i], sep, j) ensures false {
        assert s[..i][j..j + |sep|] == s[j..j + |sep|];
        assert OccursAt(s, sep, j);
      }
    } else {
      assert !Contains(s, sep);
    }
  }

  /** Splitting on a character that no piece contains undoes joining on it. */
  lemma {:induction false} SplitJoinChar(parts: seq<string>, c: char)
    requires |parts| >= 1
    requires forall k :: 0 <= k < |parts| ==> c !in parts[k]
    ensures Split(Join([c], parts), [c]) == parts
    decreases |parts|
  {
    if |parts| == 1 {
      CharNotFound(parts[0], c);
    } else {
      var rest := Join([c], parts[1..]);
      var s := parts[0] + [c] + rest;
      assert s[..|parts[0]|] == parts[0];
      CharFound(s, c, |parts[0]|);
      assert s[|parts[0]| + 1..] == rest;
      SplitJoinChar(parts[1..], c);
    }
  }

  /** A pattern whose first character does not occur is not replaced. */
  lemma FirstCharAbsent(s: string, pat: string, repl: string)
    requires pat != [] && pat[0] !in s
    ensures Find(s, pat) == -1
    ensures ReplaceAll(s, pat, repl) == s
  {
    forall j | 0 <= j && j + |pat| <= |s| ensures !OccursAt(s, pat, j) {
      assert s[j..j + |pat|][0] == s[j];
    }
    FindAbsent(s, pat);
  }

  /** The one occurrence of a character is replaced. */
  lemma CharReplaced(a: string, c: char, z: string, w: string)
    requires c !in a && c !in z
    ensures ReplaceAll(a + [c] + z, [c], w) == a + w + z
  {
    var tail := [c] + z;
    assert a + [c] + z == a + tail;
    ReplaceCharIsMapChar(a + tail, c, w);
    MapCharConcat(a, tail, c, w);
    MapCharAbsent(a, c, w);
    assert tail[0] == c && tail[1..] == z;
    MapCharAbsent(z, c, w);
    assert MapChar(tail, c, w) == w + z;
  }

  /** Splitting `a sep b` on `sep` when neither side holds the separator's first character. */
  lemma SplitTwo(a: string, sep: string, b: string)
    requires sep != [] && sep[0] !in a && sep[0] !in b
    ensures Split(a + sep + b, sep) == [a, b]
  {
    var s := a + sep + b;
    assert s[|a|..|a| + |sep|] == sep;
    assert OccursAt(s, sep, |a|);
    forall j | 0 <= j < |a| ensures !OccursAt(s, sep, j) {
      assert s[j..j + |sep|][0] == a[j];
    }
    assert Find(s, sep) == |a|;
    assert s[|a| + |sep|..] == b && s[..|a|] == a;
    FirstCharAbsent(b, sep, []);
    assert Split(b, sep) == [b];
  }

  /** Splitting `a sep b sep c` on `sep` under the same condition. */
  lemma SplitThree(a: string, sep: string, b: string, c: string)
    requires sep != [] && sep[0] !in a && sep[0] !in b && sep[0] !in c
    ensures Split(a + sep + b + sep + c, sep) == [a, b, c]
  {
    var s := a + sep + b + sep + c;
    var rest := b + sep + c;
    assert s == a + sep + rest;
    assert s[|a|..|a| + |sep|] == sep;
    assert OccursAt(s, sep, |a|);
    forall j | 0 <= j < |a| ensures !OccursAt(s, sep, j) {
      assert s[j..j + |sep|][0] == a[j];
    }
    assert Find(s, sep) == |a|;
    assert s[|a| + |sep|..] == rest && s[..|a|] == a;
    SplitTwo(b, sep, c);
  }

  /** A pattern at the end of a string holding none of its first character is cut off. */
  lemma SuffixRemoved(a: string, pat: string)
    requires pat != [] && pat[0] !in a
    ensures ReplaceAll(a + pat, pat, []) == a
  {
    var s := a + pat;
    assert s[|a|..|a| + |pat|] == pat;
    assert OccursAt(s, pat, |a|);
    forall j | 0 <= j < |a| ensures !OccursAt(s, pat, j) {
      assert s[j..j + |pat|][0] == a[j];
    }
    assert Find(s, pat) == |a|;
    assert s[..|a|] == a && s[|a| + |pat|..] == [];
  }

  /** A pattern cannot occur when the only text after a stretch free of its
      first character is shorter than the pattern. */
  lemma ShortTailKept(a: string, t: string, pat: string, repl: string)
    requires pat != [] && pat[0] !in a && |t| < |pat|
    ensures ReplaceAll(a + t, pat, repl) == a + t
  {
    var s := a + t;
    forall j | 0 <= j && j + |pat| <= |s| ensures !OccursAt(s, pat, j) {
      assert s[j..j + |pat|][0] == a[j];
    }
    FindAbsent(s, pat);
  }

  /** The first piece of a split ends at the first separator. */
  lemma SplitHead(a: string, sep: string, b: string)
    requires sep != [] && sep[0] !in a
    ensures Split(a + sep + b, sep) == [a] + Split(b, sep)
  {
    var s := a + sep + b;
    assert s[|a|..|a| + |sep|] == sep;
    assert OccursAt(s, sep, |a|);
    forall j | 0 <= j < |a| ensures !OccursAt(s, sep, j) {
      assert s[j..j + |sep|][0] == a[j];
    }
    assert Find(s, sep) == |a|;
    assert s[|a| + |sep|..] == b && s[..|a|] == a;
  }

  /** Joining three pieces puts the separator between each pair. */
  lemma JoinThree(sep: string, a: string, b: string, c: string)
    ensures Join(sep, [a, b, c]) == a + sep + b + sep + c
  {
    assert [a, b, c][1..] == [b, c];
    assert [b, c][1..] == [c];
    assert Join(sep, [c]) == c;
    assert Join(sep, [b, c]) == b + sep + c;
    assert Join(sep, [a, b, c]) == a + sep + (b + sep + c);
  }

  /** `strip()` keeps a string whose ends are not white space, and removes one
      leading blank before it. */
  lemma StripBare(x: string)
    requires x != [] && !IsSpace(x[0]) && !IsSpace(x[|x| - 1])
    ensures Strip(x) == x && Strip(" " + x) == x
  {
    assert StripLeft(x) == x;
    assert (" " + x)[1..] == x;
  }

  /** A digit string holds no dot, no blank and no white space at its ends. */
  lemma DecimalShape(s: string)
    requires IsDecimal(s)
    ensures '.' !in s && ' ' !in s && !IsSpace(s[0]) && !IsSpace(s[|s| - 1])
  {
    assert IsDigit(s[0]) && IsDigit(s[|s| - 1]);
  }
}
