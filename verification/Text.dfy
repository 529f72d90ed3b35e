/**
 The string primitives the modelled code takes from its runtime: substring search, splitting,
 stripping, and the decimal print and parse of numbers. A byte string is written with one
 character for each byte.

 Searching is for the first occurrence, splitting undoes joining for pieces without the
 separator, and a printed number reads back. The white space stripped is that of
 `str.strip`, and numbers are read as `int()` reads plain decimal ones.

 At the end are the facts about concatenated sequences that proofs elsewhere name one by one.
 */
module Text {
  import opened Wrappers

  /** `pat` occurs in `s` at index `i`. */
  predicate At(s: string, pat: string, i: int) {
    0 <= i <= |s| - |pat| && s[i..i + |pat|] == pat
  }

  predicate StartsWith(s: string, pat: string) {
    At(s, pat, 0)
  }

  /** A text does not occur where its first character does not. */
  lemma NotAt(s: string, pat: string, i: nat)
    requires pat != "" && i < |s| && s[i] != pat[0]
    ensures !At(s, pat, i)
  {
    if i <= |s| - |pat| {
      assert s[i..i + |pat|][0] == s[i];
    }
  }

  function FindFrom(s: string, pat: string, from: nat): (i: int)
    requires from <= |s|
    ensures i == -1 || from <= i <= |s| - |pat|
    decreases |s| - from
  {
    if At(s, pat, from) then from
    else if from == |s| then -1
    else FindFrom(s, pat, from + 1)
  }

  /** The index of the first occurrence of `pat` in `s`, or -1. */
  function Find(s: string, pat: string): (i: int)
    ensures i == -1 || 0 <= i <= |s| - |pat|
  {
    FindFrom(s, pat, 0)
  }

  lemma {:induction false} FindFromFirst(s: string, pat: string, from: nat)
    requires from <= |s|
    ensures var i := FindFrom(s, pat, from);
            (i >= 0 ==> At(s, pat, i)) && forall j :: from <= j && (i < 0 || j < i) ==> !At(s, pat, j)
    decreases |s| - from
  {
    if from < |s| && !At(s, pat, from) {
      FindFromFirst(s, pat, from + 1);
    }
  }

  /** `Find` returns an occurrence and there is none before it. */
  lemma FindFirst(s: string, pat: string)
    ensures Find(s, pat) >= 0 ==> At(s, pat, Find(s, pat))
    ensures forall j :: (Find(s, pat) < 0 || j < Find(s, pat)) ==> !At(s, pat, j)
  {
    FindFromFirst(s, pat, 0);
  }

  /** An index with a first occurrence at it is what `Find` returns. */
  lemma FindIs(s: string, pat: string, i: nat)
    requires At(s, pat, i)
    requires forall j :: 0 <= j < i ==> !At(s, pat, j)
    ensures Find(s, pat) == i
  {
    FindFirst(s, pat);
  }

  /** Text appended after a first occurrence does not move it. */
  lemma FindStable(a: string, b: string, pat: string)
    requires Find(a, pat) >= 0
    ensures Find(a + b, pat) == Find(a, pat)
  {
    FindFirst(a, pat);
    var i := Find(a, pat);
    assert (a + b)[i..i + |pat|] == a[i..i + |pat|];
    forall j | 0 <= j < i
      ensures !At(a + b, pat, j)
    {
      assert !At(a, pat, j);
      assert (a + b)[j..j + |pat|] == a[j..j + |pat|];
    }
    FindIs(a + b, pat, i);
  }

  /** The pieces of `s` between occurrences of the separator `sep`. */
  function Split(s: string, sep: string): (pieces: seq<string>)
    requires sep != ""
    decreases |s|
  {
    var i := Find(s, sep);
    if i < 0 then [s] else [s[..i]] + Split(s[i + |sep|..], sep)
  }

  /** `sep.join(parts)`. */
  function Join(parts: seq<string>, sep: string): string {
    if parts == [] then ""
    else if |parts| == 1 then parts[0]
    else parts[0] + (sep + Join(parts[1..], sep))
  }

  lemma SeparatorFirst(piece: string, sep: char, rest: string)
    requires sep !in piece
    ensures Find(piece + ([sep] + rest), [sep]) == |piece|
  {
    var s := piece + ([sep] + rest);
    assert s[|piece|..|piece| + 1] == [sep];
    forall j | 0 <= j < |piece|
      ensures !At(s, [sep], j)
    {
      NotAt(s, [sep], j);
    }
    FindIs(s, [sep], |piece|);
  }

  lemma NoSeparator(piece: string, sep: char)
    requires sep !in piece
    ensures Find(piece, [sep]) < 0
  {
    FindFirst(piece, [sep]);
    forall j | 0 <= j < |piece|
      ensures !At(piece, [sep], j)
    {
      NotAt(piece, [sep], j);
    }
  }

  /** Splitting undoes joining. */
  lemma {:induction false} SplitJoined(pieces: seq<string>, sep: char)
    requires pieces != [] && forall i :: 0 <= i < |pieces| ==> sep !in pieces[i]
    ensures Split(Join(pieces, [sep]), [sep]) == pieces
  {
    if |pieces| == 1 {
      NoSeparator(pieces[0], sep);
    } else {
      var rest := Join(pieces[1..], [sep]);
      SeparatorFirst(pieces[0], sep, rest);
      var s := pieces[0] + ([sep] + rest);
      assert s[..|pieces[0]|] == pieces[0] && s[|pieces[0]| + 1..] == rest;
      SplitJoined(pieces[1..], sep);
    }
  }

  /** White space, as `str.strip` understands it. */
  predicate IsSpace(c: char) {
    || '\t' <= c <= '\r' || '\U{1c}' <= c <= ' ' || c == '\U{85}' || c == '\U{a0}' || c == '\U{1680}'
    || '\U{2000}' <= c <= '\U{200a}' || c == '\U{2028}' || c == '\U{2029}' || c == '\U{202f}' || c == '\U{205f}'
    || c == '\U{3000}'
  }

  function Strip(s: string): string {
    if s != "" && IsSpace(s[0]) then Strip(s[1..])
    else if s != "" && IsSpace(s[|s| - 1]) then Strip(s[..|s| - 1])
    else s
  }

  function LowerChar(c: char): char {
    if 'A' <= c <= 'Z' then c - 'A' + 'a' else c
  }

  function Lower(s: string): (r: string)
    ensures |r| == |s|
    ensures forall i :: 0 <= i < |s| ==> r[i] == LowerChar(s[i])
  {
    if s == "" then "" else [LowerChar(s[0])] + Lower(s[1..])
  }

  predicate IsDigit(c: char) {
    '0' <= c <= '9'
  }

  function DigitValue(c: char): (d: nat)
    requires IsDigit(c)
    ensures d < 10
  {
    c as int - '0' as int
  }

  function DigitChar(d: nat): (c: char)
    requires d < 10
    ensures IsDigit(c) && DigitValue(c) == d
  {
    (d + '0' as int) as char
  }

  /** The decimal digits of `n`, most significant first. */
  function Decimal(n: nat): (s: string)
    ensures s != ""
    ensures forall i :: 0 <= i < |s| ==> IsDigit(s[i])
  {
    if n < 10 then [DigitChar(n)] else Decimal(n / 10) + [DigitChar(n % 10)]
  }

  /** Python's digit runs: digits, with single underscores allowed between two of them. */
  function ParseDigits(s: string): Option<nat> {
    if s == "" || !IsDigit(s[|s| - 1]) then None
    else if |s| == 1 then Some(DigitValue(s[0]))
    else
      var high := if s[|s| - 2] == '_' then s[..|s| - 2] else s[..|s| - 1];
      match ParseDigits(high)
      case None => None
      case Some(n) => Some(10 * n + DigitValue(s[|s| - 1]))
  }

  /** Python's `int()` on a string that is already stripped. */
  function ParseInt(s: string): Option<int> {
    if s != "" && s[0] in "+-" then
      match ParseDigits(s[1..])
      case None => None
      case Some(n) =>
        var m: int := n;
        Some(if s[0] == '-' then -m else m)
    else
      match ParseDigits(s)
      case None => None
      case Some(n) => Some(n)
  }

  lemma {:induction false} ParseDigitsDecimal(n: nat)
    ensures ParseDigits(Decimal(n)) == Some(n)
  {
    if n >= 10 {
      ParseDigitsDecimal(n / 10);
      var s := Decimal(n);
      assert s[..|s| - 1] == Decimal(n / 10);
      assert IsDigit(s[|s| - 2]);
    }
  }

  /** Reading a printed number gives the number back. */
  lemma ParseIntDecimal(n: nat)
    ensures ParseInt(Decimal(n)) == Some(n as int)
  {
    ParseDigitsDecimal(n);
    assert IsDigit(Decimal(n)[0]);
  }

  /** The concatenation of `parts`. */
  function Concat<T>(parts: seq<seq<T>>): seq<T> {
    if parts == [] then [] else parts[0] + Concat(parts[1..])
  }

  lemma Associative<T>(a: seq<T>, b: seq<T>, c: seq<T>)
    ensures a + (b + c) == (a + b) + c
  {
  }

  lemma AppendNone<T>(a: seq<T>)
    ensures a + [] == a
  {
  }

  lemma TakeBeyond<T>(a: seq<T>, b: seq<T>, n: nat)
    requires |a| <= n <= |a| + |b|
    ensures (a + b)[..n] == a + b[..n - |a|]
  {
  }

  lemma TakeWithin<T>(a: seq<T>, b: seq<T>, n: nat)
    requires n <= |a|
    ensures (a + b)[..n] == a[..n]
  {
  }

  lemma TakeCons<T>(a: seq<T>, n: nat)
    requires 0 < n <= |a|
    ensures a[..n] == [a[0]] + a[1..][..n - 1]
  {
  }

  lemma SliceWithin<T>(a: seq<T>, b: seq<T>, i: nat, j: nat)
    requires i <= j <= |a|
    ensures (a + b)[i..j] == a[i..j]
    ensures (a + b)[j..] == a[j..] + b
  {
  }
}
