/** The Python string operations the backend relies on, over `string` (a sequence of
    Unicode scalar values). Case mapping is ASCII-only. White space is the set that
    `str.isspace` accepts, which is also the set `str.strip()`, `str.split()` and the
    regular-expression class `\s` use. */
module Text {
  import opened Common

  /** `c.isspace()` */
  predicate IsSpace(c: char) {
    || ('\t' <= c <= '\r')
    || ('\U{001C}' <= c <= ' ')
    || c == '\U{0085}' || c == '\U{00A0}' || c == '\U{1680}'
    || ('\U{2000}' <= c <= '\U{200A}')
    || c == '\U{2028}' || c == '\U{2029}' || c == '\U{202F}' || c == '\U{205F}' || c == '\U{3000}'
  }

  predicate NotSpace(c: char) { !IsSpace(c) }

  predicate IsUpper(c: char) { 'A' <= c <= 'Z' }

  predicate IsLower(c: char) { 'a' <= c <= 'z' }

  predicate IsLetter(c: char) { IsUpper(c) || IsLower(c) }

  predicate IsDigit(c: char) { '0' <= c <= '9' }

  /** A character that `\w` matches; `\b` stands between such a character and one that is not. */
  predicate IsWordChar(c: char) { IsLetter(c) || IsDigit(c) || c == '_' }

  function ToLower(c: char): (r: char)
    ensures !IsUpper(r)
    ensures IsUpper(c) || r == c
    ensures IsLetter(r) <==> IsLetter(c)
  {
    if IsUpper(c) then (c as int + 32) as char else c
  }

  function ToUpper(c: char): (r: char)
    ensures !IsLower(r)
    ensures IsLower(c) || r == c
    ensures IsLetter(r) <==> IsLetter(c)
  {
    if IsLower(c) then (c as int - 32) as char else c
  }

  /** `s.lower()`: no upper-case letter is left, and nothing but letters changes. */
  function Lower(s: string): (r: string)
    ensures |r| == |s|
    ensures forall i :: 0 <= i < |s| ==> r[i] == ToLower(s[i]) && !IsUpper(r[i])
  {
    seq(|s|, i requires 0 <= i < |s| => ToLower(s[i]))
  }

  /** `s.upper()` */
  function Upper(s: string): (r: string)
    ensures |r| == |s|
    ensures forall i :: 0 <= i < |s| ==> r[i] == ToUpper(s[i]) && !IsLower(r[i])
  {
    seq(|s|, i requires 0 <= i < |s| => ToUpper(s[i]))
  }

  /** Drops the longest prefix of characters satisfying `drop`. */
  function TrimStart(s: string, drop: char -> bool): (r: string)
    ensures |r| <= |s|
    decreases |s|
  {
    if s != [] && drop(s[0]) then TrimStart(s[1..], drop) else s
  }

  /** Drops the longest suffix of characters satisfying `drop`. */
  function TrimEnd(s: string, drop: char -> bool): (r: string)
    ensures |r| <= |s|
    decreases |s|
  {
    if s != [] && drop(s[|s| - 1]) then TrimEnd(s[..|s| - 1], drop) else s
  }

  /** `TrimStart` keeps a suffix that does not start with a dropped character, and every
      character it drops is one. */
  lemma {:induction false} TrimStartSpec(s: string, drop: char -> bool)
    ensures var r := TrimStart(s, drop);
      && r == s[|s| - |r|..]
      && (r == [] || !drop(r[0]))
      && forall i :: 0 <= i < |s| - |r| ==> drop(s[i])
    decreases |s|
  {
    if s != [] && drop(s[0]) {
      TrimStartSpec(s[1..], drop);
    }
  }

  /** `TrimEnd` keeps a prefix that does not end with a dropped character, and every
      character it drops is one. */
  lemma {:induction false} TrimEndSpec(s: string, drop: char -> bool)
    ensures var r := TrimEnd(s, drop);
      && r == s[..|r|]
      && (r == [] || !drop(r[|r| - 1]))
      && forall i :: |r| <= i < |s| ==> drop(s[i])
    decreases |s|
  {
    if s != [] && drop(s[|s| - 1]) {
      TrimEndSpec(s[..|s| - 1], drop);
    }
  }

  /** `s.strip(chars)` where `drop` tells the characters of `chars`. */
  function Trim(s: string, drop: char -> bool): (r: string)
    ensures |r| <= |s|
  {
    TrimEnd(TrimStart(s, drop), drop)
  }

  /** Where `Trim` starts in `s`. */
  function TrimOffset(s: string, drop: char -> bool): nat
    requires |TrimStart(s, drop)| <= |s|
  {
    |s| - |TrimStart(s, drop)|
  }

  /** The result of `Trim` is the slice of `s` that remains after dropping the longest prefix
      and suffix of dropped characters; it neither starts nor ends with one. */
  lemma TrimSpec(s: string, drop: char -> bool)
    ensures var r, k := Trim(s, drop), TrimOffset(s, drop);
      && k + |r| <= |s| && r == s[k..k + |r|]
      && (forall i :: 0 <= i < k ==> drop(s[i]))
      && (forall i :: k + |r| <= i < |s| ==> drop(s[i]))
      && (r != [] ==> !drop(r[0]) && !drop(r[|r| - 1]))
  {
    TrimStartSpec(s, drop);
    TrimEndSpec(TrimStart(s, drop), drop);
    TrimSlice(s, drop);
    TrimTailDrops(s, drop);
  }

  /** What is left after trimming both ends is a slice of `s`. */
  lemma TrimSlice(s: string, drop: char -> bool)
    ensures var r, k := Trim(s, drop), TrimOffset(s, drop); k + |r| <= |s| && r == s[k..k + |r|]
  {
    var t := TrimStart(s, drop);
    TrimStartSpec(s, drop);
    TrimEndSpec(t, drop);
    var r := TrimEnd(t, drop);
    assert r == s[|s| - |t|..|s| - |t| + |r|];
  }

  /** Every character after what is left is dropped. */
  lemma TrimTailDrops(s: string, drop: char -> bool)
    ensures var r, k := Trim(s, drop), TrimOffset(s, drop); forall i :: k + |r| <= i < |s| ==> drop(s[i])
  {
    var t := TrimStart(s, drop);
    TrimStartSpec(s, drop);
    TrimEndSpec(t, drop);
    var r, k := TrimEnd(t, drop), |s| - |t|;
    forall i | k + |r| <= i < |s| ensures drop(s[i]) {
      assert s[i] == t[i - k];
    }
  }

  /** `s.strip()` */
  function Strip(s: string): (r: string)
    ensures |r| <= |s|
  {
    Trim(s, IsSpace)
  }

  /** Trimming a string that neither starts nor ends with a dropped character changes nothing. */
  lemma TrimUnchanged(s: string, drop: char -> bool)
    requires s != [] ==> !drop(s[0]) && !drop(s[|s| - 1])
    ensures Trim(s, drop) == s
  {
    if s != [] {
      assert TrimStart(s, drop) == s;
    }
  }

  /** `w` is the slice of `s` that starts at `i`. */
  predicate OccursAt(w: string, s: string, i: int) {
    0 <= i <= |s| - |w| && s[i..i + |w|] == w
  }

  /** Python's `w in s`: `w` is the slice of `s` at some position. */
  predicate Occurs(w: string, s: string) {
    exists i :: 0 <= i <= |s| - |w| && OccursAt(w, s, i)
  }

  /** A word that occurs inside `v` occurs wherever `v` does. */
  lemma OccursWithin(w: string, v: string, s: string, k: nat)
    requires OccursAt(w, v, k) && Occurs(v, s)
    ensures Occurs(w, s)
  {
    var i :| 0 <= i <= |s| - |v| && OccursAt(v, s, i);
    assert forall j :: 0 <= j < |w| ==> s[i + k + j] == s[i..i + |v|][k + j] == v[k + j] == w[j];
    assert s[i + k..i + k + |w|] == w;
    assert OccursAt(w, s, i + k);
  }

  /** Any of `ws` occurs in `s` (Python's `any(w in s for w in ws)`). */
  predicate OccursAny(ws: seq<string>, s: string) {
    exists i :: 0 <= i < |ws| && Occurs(ws[i], s)
  }

  /** The length of the longest prefix of `s` whose characters all satisfy `keep`. */
  function RunLength(s: string, keep: char -> bool): (n: nat)
    ensures n <= |s|
    ensures forall i :: 0 <= i < n ==> keep(s[i])
    ensures n == |s| || !keep(s[n])
    decreases |s|
  {
    if s != [] && keep(s[0]) then 1 + RunLength(s[1..], keep) else 0
  }

  /** The maximal runs of characters satisfying `keep`, left to right. With `keep == NotSpace`
      this is `s.split()`. */
  function Tokens(s: string, keep: char -> bool): (r: seq<string>)
    ensures forall k :: 0 <= k < |r| ==> r[k] != [] && forall j :: 0 <= j < |r[k]| ==> keep(r[k][j])
    decreases |s|
  {
    if s == [] then []
    else if !keep(s[0]) then Tokens(s[1..], keep)
    else
      var n := RunLength(s, keep);
      [s[..n]] + Tokens(s[n..], keep)
  }

  /** The length of the first piece: the run of characters up to the first separator. */
  function PieceLength(s: string, isSep: char -> bool): (n: nat)
    ensures n <= |s|
    ensures forall i :: 0 <= i < n ==> !isSep(s[i])
    ensures n == |s| || isSep(s[n])
    decreases |s|
  {
    if s != [] && !isSep(s[0]) then 1 + PieceLength(s[1..], isSep) else 0
  }

  /** The pieces between the characters satisfying `isSep`, empty pieces included
      (`s.split(sep)` for a one-character separator). */
  function Split(s: string, isSep: char -> bool): (r: seq<string>)
    ensures |r| >= 1
    decreases |s|
  {
    var n := PieceLength(s, isSep);
    if n == |s| then [s] else [s[..n]] + Split(s[n + 1..], isSep)
  }

  /** `sep.join(parts)` */
  function Join(parts: seq<string>, sep: string): string
    decreases |parts|
  {
    if |parts| == 0 then ""
    else if |parts| == 1 then parts[0]
    else parts[0] + sep + Join(parts[1..], sep)
  }

  /** Splitting at one separator character and joining with it again gives the input back. */
  lemma {:induction false} SplitJoin(s: string, isSep: char -> bool, sep: char)
    requires forall c :: isSep(c) <==> c == sep
    ensures Join(Split(s, isSep), [sep]) == s
    decreases |s|
  {
    var n := PieceLength(s, isSep);
    if n < |s| {
      assert s == s[..n] + [sep] + s[n + 1..];
      SplitAppend(s[..n], sep, s[n + 1..], isSep);
      SplitJoin(s[n + 1..], isSep, sep);
      JoinCons(s[..n], Split(s[n + 1..], isSep), [sep]);
    }
  }

  lemma JoinCons(a: string, rest: seq<string>, sep: string)
    requires rest != []
    ensures Join([a] + rest, sep) == a + sep + Join(rest, sep)
  {
    assert ([a] + rest)[1..] == rest;
  }

  /** A separator splits the string into the pieces of its two sides. */
  lemma {:induction false} SplitAppend(a: string, sep: char, b: string, isSep: char -> bool)
    requires isSep(sep)
    requires forall j :: 0 <= j < |a| ==> !isSep(a[j])
    ensures Split(a + [sep] + b, isSep) == [a] + Split(b, isSep)
  {
    var s := a + [sep] + b;
    var n := PieceLength(s, isSep);
    forall j | 0 <= j < |a| ensures !isSep(s[j]) {
      assert s[j] == a[j];
    }
    assert s[|a|] == sep;
    assert n == |a|;
    assert s[..n] == a && s[n + 1..] == b;
  }

  /** A string without separators is a single piece. */
  lemma SplitNone(s: string, isSep: char -> bool)
    requires forall j :: 0 <= j < |s| ==> !isSep(s[j])
    ensures Split(s, isSep) == [s]
  {
    var n := PieceLength(s, isSep);
  }

  /** Python's slice `s[:n]`, where a negative `n` counts from the end. */
  function Prefix(s: string, n: int): (r: string)
    ensures n >= 0 ==> |r| == if n < |s| then n else |s|
    ensures n < 0 ==> |r| == if |s| + n > 0 then |s| + n else 0
    ensures r == s[..|r|]
  {
    if n >= 0 then (if n < |s| then s[..n] else s)
    else (if |s| + n > 0 then s[..|s| + n] else [])
  }

  /** No position of a suffix free of `c` holds `c`. */
  lemma NotInSuffix<T>(s: seq<T>, a: nat, k: nat, c: T)
    requires a <= |s| && c !in s[a..]
    ensures a <= k < |s| ==> s[k] != c
  {
    if a <= k < |s| {
      assert s[a..][k - a] == s[k];
    }
  }

  /** The index of the last occurrence of `c` in `s`, if any. */
  function LastIndex(s: string, c: char): (r: Option<nat>)
    ensures r.None? <==> c !in s
    ensures r.Some? ==> r.value < |s| && s[r.value] == c && c !in s[r.value + 1..]
    decreases |s|
  {
    if s == [] then None
    else if s[|s| - 1] == c then Some(|s| - 1)
    else
      var r := LastIndex(s[..|s| - 1], c);
      assert s == s[..|s| - 1] + [s[|s| - 1]];
      assert r.Some? ==> s[r.value + 1..] == s[..|s| - 1][r.value + 1..] + [s[|s| - 1]];
      r
  }

  /* ---- Python's int() on a string ---- */

  function DigitValue(c: char): nat
    requires IsDigit(c)
  {
    c as int - '0' as int
  }

  /** Digits with single underscores between them, as `int()` accepts them. */
  predicate IsNumeral(b: string) {
    && |b| > 0 && IsDigit(b[0]) && IsDigit(b[|b| - 1])
    && (forall i :: 0 <= i < |b| ==> IsDigit(b[i]) || b[i] == '_')
    && (forall i :: 0 <= i < |b| - 1 && b[i] == '_' ==> IsDigit(b[i + 1]))
  }

  /** The value of the digits of `b`, underscores skipped. */
  function NumeralValue(b: string): nat
    requires forall i :: 0 <= i < |b| ==> IsDigit(b[i]) || b[i] == '_'
    decreases |b|
  {
    if b == [] then 0
    else if b[|b| - 1] == '_' then NumeralValue(b[..|b| - 1])
    else 10 * NumeralValue(b[..|b| - 1]) + DigitValue(b[|b| - 1])
  }

  /** Python's `int(s)` for a string: surrounding white space, an optional sign, then a
      numeral; `None` stands for the `ValueError` it raises otherwise. */
  function ParseInt(s: string): Option<int> {
    var t := Strip(s);
    if t == [] then None
    else
      var neg := t[0] == '-';
      var body := if t[0] == '-' || t[0] == '+' then t[1..] else t;
      if IsNumeral(body) then
        var v: int := NumeralValue(body);
        Some(if neg then -v else v)
      else None
  }

  /** The decimal digits of `n`, most significant first. */
  function ShowNat(n: nat): (r: string)
    ensures |r| > 0 && forall i :: 0 <= i < |r| ==> IsDigit(r[i])
  {
    if n < 10 then ['0' + n as char] else ShowNat(n / 10) + ['0' + (n % 10) as char]
  }

  /** `str(n)` */
  function Show(n: int): string {
    if n < 0 then "-" + ShowNat(-n) else ShowNat(n)
  }

  lemma {:induction false} ShowNatValue(n: nat)
    ensures NumeralValue(ShowNat(n)) == n
  {
    var r := ShowNat(n);
    if n >= 10 {
      ShowNatValue(n / 10);
      assert r[..|r| - 1] == ShowNat(n / 10);
    }
  }

  /** `int(str(n)) == n`: the parser reads back every integer's decimal form. */
  lemma ParseShow(n: int)
    ensures ParseInt(Show(n)) == Some(n)
  {
    var s := Show(n);
    var m := if n < 0 then -n else n;
    ShowNatValue(m);
    TrimUnchanged(s, IsSpace);
    assert Strip(s) == s;
    var body := if n < 0 then s[1..] else s;
    assert body == ShowNat(m);
    assert IsNumeral(body);
  }
}
