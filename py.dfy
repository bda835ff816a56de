/**
 * Python built-in semantics that the modelled code relies on: slice-bound
 * normalisation, str.split / str.join, int() on decimal digit strings,
 * whitespace stripping, prefix/suffix tests and lexicographic comparison of
 * strings. Bytes are modelled as sequences of `byte`.
 */
module Py {

  datatype Option<+T> = None | Some(value: T)

  /** The exceptions the modelled code can raise. */
  datatype Error = IndexError | ValueError | TypeError | KeyError

  /** A value, or the exception raised while computing it. */
  datatype Result<+T> = Ok(value: T) | Raise(error: Error)

  newtype byte = b: int | 0 <= b < 256

  type Bytes = seq<byte>

  /** The normalised bound of a Python slice `s[:k]` / `s[k:]` over a sequence of length `n`. */
  function Clip(n: nat, k: int): (r: nat)
    ensures r <= n
    ensures 0 <= k ==> r == if k <= n then k else n
    ensures k < 0 ==> r + (-k) == n || (r == 0 && n < -k)
  {
    if k < 0 then (if n + k < 0 then 0 else n + k) else if k > n then n else k
  }

  /** `s[:k]` */
  function Prefix<T>(s: seq<T>, k: int): (r: seq<T>)
    ensures r == s[..Clip(|s|, k)]
  {
    s[..Clip(|s|, k)]
  }

  /** `s[k:]` */
  function Suffix<T>(s: seq<T>, k: int): (r: seq<T>)
    ensures r == s[Clip(|s|, k)..]
  {
    s[Clip(|s|, k)..]
  }

  predicate StartsWith<T(==)>(s: seq<T>, p: seq<T>) {
    |p| <= |s| && s[..|p|] == p
  }

  predicate EndsWith<T(==)>(s: seq<T>, p: seq<T>) {
    |p| <= |s| && s[|s| - |p|..] == p
  }

  /** Index of the first occurrence of `x` in `s`. */
  function IndexOf<T(==)>(s: seq<T>, x: T): (i: nat)
    requires x in s
    ensures i < |s| && s[i] == x
    ensures forall j :: 0 <= j < i ==> s[j] != x
  {
    if s[0] == x then 0 else 1 + IndexOf(s[1..], x)
  }

  /** Index of the last occurrence of `x` in `s`. */
  function LastIndexOf<T(==)>(s: seq<T>, x: T): (i: nat)
    requires x in s
    ensures i < |s| && s[i] == x
    ensures forall j :: i < j < |s| ==> s[j] != x
  {
    if s[|s| - 1] == x then |s| - 1 else LastIndexOf(s[..|s| - 1], x)
  }

  /** The concatenation of a sequence of sequences, as `''.join` / `sum(lists, [])`. */
  function Concat<T>(ss: seq<seq<T>>): seq<T>
    decreases |ss|
  {
    if ss == [] then [] else ss[0] + Concat(ss[1..])
  }

  /** `s.split(sep)` for a one-element separator. */
  function Split<T(==)>(s: seq<T>, sep: T): (r: seq<seq<T>>)
    ensures |r| >= 1
    ensures forall i :: 0 <= i < |r| ==> sep !in r[i]
    decreases |s|
  {
    if sep in s then
      var i := IndexOf(s, sep);
      [s[..i]] + Split(s[i + 1..], sep)
    else
      [s]
  }

  /** `sep.join(pieces)` for a one-element separator. */
  function Join<T>(pieces: seq<seq<T>>, sep: T): seq<T>
    requires |pieces| >= 1
  {
    if |pieces| == 1 then pieces[0] else pieces[0] + [sep] + Join(pieces[1..], sep)
  }

  /** Splitting and re-joining with the same separator gives back the input. */
  lemma {:induction false} JoinSplit<T>(s: seq<T>, sep: T)
    ensures Join(Split(s, sep), sep) == s
    decreases |s|
  {
    if sep in s {
      var i := IndexOf(s, sep);
      var rest := Split(s[i + 1..], sep);
      var pieces := Split(s, sep);
      assert pieces == [s[..i]] + rest;
      assert pieces[1..] == rest;
      JoinSplit(s[i + 1..], sep);
      calc {
        Join(pieces, sep);
        pieces[0] + [sep] + Join(rest, sep);
        s[..i] + [sep] + s[i + 1..];
        s;
      }
    }
  }

  /** Joining separator-free pieces and splitting again gives back the pieces. */
  lemma {:induction false} SplitJoin<T>(pieces: seq<seq<T>>, sep: T)
    requires |pieces| >= 1
    requires forall i :: 0 <= i < |pieces| ==> sep !in pieces[i]
    ensures Split(Join(pieces, sep), sep) == pieces
    decreases |pieces|
  {
    var p := pieces[0];
    if |pieces| > 1 {
      var rest := Join(pieces[1..], sep);
      var s := Join(pieces, sep);
      assert s == p + [sep] + rest;
      assert s[|p|] == sep;
      var i := IndexOf(s, sep);
      assert i == |p|;
      assert s[..i] == p && s[i + 1..] == rest;
      SplitJoin(pieces[1..], sep);
    }
  }

  /** The pieces of a split are separator-free and their count is one more than the separators. */
  lemma {:induction false} SplitCount<T>(s: seq<T>, sep: T)
    ensures |Split(s, sep)| == 1 + multiset(s)[sep]
    decreases |s|
  {
    if sep in s {
      var i := IndexOf(s, sep);
      SplitCount(s[i + 1..], sep);
      assert s == s[..i] + [sep] + s[i + 1..];
      assert multiset(s[..i])[sep] == 0 by {
        assert sep !in s[..i];
      }
    } else {
      assert multiset(s)[sep] == 0;
    }
  }

  predicate IsDigit(c: char) {
    '0' <= c <= '9'
  }

  predicate AllDigits(s: string) {
    forall i :: 0 <= i < |s| ==> IsDigit(s[i])
  }

  function DigitValue(c: char): (d: nat)
    requires IsDigit(c)
    ensures d < 10
  {
    c as int - '0' as int
  }

  /** The value of a non-empty decimal digit string. */
  function DecimalValue(s: string): nat
    requires AllDigits(s)
  {
    if s == [] then 0 else 10 * DecimalValue(s[..|s| - 1]) + DigitValue(s[|s| - 1])
  }

  /**
   * `int(s)` for strings made of the characters the modelled scanners admit:
   * a ValueError (None) unless `s` is a non-empty string of decimal digits.
   */
  function ParseInt(s: string): (r: Option<nat>)
    ensures r.Some? <==> |s| > 0 && AllDigits(s)
  {
    if |s| > 0 && AllDigits(s) then Some(DecimalValue(s)) else None
  }

  /** The decimal digit string of `n`, as str(n). */
  function DecimalString(n: nat): (s: string)
    ensures |s| > 0 && AllDigits(s)
  {
    if n < 10 then ['0' + n as char] else DecimalString(n / 10) + ['0' + (n % 10) as char]
  }

  /** int() inverts str() on naturals. */
  lemma {:induction false} ParseDecimalString(n: nat)
    ensures ParseInt(DecimalString(n)) == Some(n)
  {
    var s := DecimalString(n);
    if n >= 10 {
      ParseDecimalString(n / 10);
      assert s[..|s| - 1] == DecimalString(n / 10);
      assert DigitValue(s[|s| - 1]) == n % 10;
      assert DecimalValue(s) == 10 * (n / 10) + n % 10;
    } else {
      assert DigitValue(s[0]) == n;
      assert s[..0] == [];
    }
  }

  /** Python's str.isspace() on one character. */
  predicate IsSpace(c: char) {
    '\t' <= c <= '\r' || '\U{1c}' <= c <= ' ' || c == '\U{85}' || c == '\U{a0}' || c == '\U{1680}'
    || '\U{2000}' <= c <= '\U{200a}' || c == '\U{2028}' || c == '\U{2029}' || c == '\U{202f}'
    || c == '\U{205f}' || c == '\U{3000}'
  }

  /** Python's bytes.isspace() on one byte: space, \t, \n, \v, \f, \r. */
  predicate IsByteSpace(b: byte) {
    b == 32 || 9 <= b <= 13
  }

  /** `s.rstrip()` */
  function RStrip(s: string): (r: string)
    ensures |r| <= |s| && r == s[..|r|]
    ensures r == [] || !IsSpace(r[|r| - 1])
    ensures forall i :: |r| <= i < |s| ==> IsSpace(s[i])
  {
    if s != [] && IsSpace(s[|s| - 1]) then RStrip(s[..|s| - 1]) else s
  }

  /** `s.lstrip()` */
  function LStrip(s: string): (r: string)
    ensures |r| <= |s| && r == s[|s| - |r|..]
    ensures r == [] || !IsSpace(r[0])
    ensures forall i :: 0 <= i < |s| - |r| ==> IsSpace(s[i])
  {
    if s != [] && IsSpace(s[0]) then LStrip(s[1..]) else s
  }

  /** `s.strip()` */
  function Strip(s: string): string {
    LStrip(RStrip(s))
  }

  /** `b.rstrip()` on bytes */
  function RStripBytes(s: Bytes): (r: Bytes)
    ensures |r| <= |s| && r == s[..|r|]
    ensures r == [] || !IsByteSpace(r[|r| - 1])
  {
    if s != [] && IsByteSpace(s[|s| - 1]) then RStripBytes(s[..|s| - 1]) else s
  }

  /** `b.lstrip()` on bytes */
  function LStripBytes(s: Bytes): (r: Bytes)
    ensures |r| <= |s| && r == s[|s| - |r|..]
    ensures r == [] || !IsByteSpace(r[0])
  {
    if s != [] && IsByteSpace(s[0]) then LStripBytes(s[1..]) else s
  }

  /** `b.strip()` on bytes */
  function StripBytes(s: Bytes): Bytes {
    LStripBytes(RStripBytes(s))
  }

  /** Python's `a <= b` on strings: lexicographic by code point, a proper prefix is smaller. */
  predicate StrLe(a: string, b: string)
    decreases |a|
  {
    a == [] || (b != [] && (a[0] < b[0] || (a[0] == b[0] && StrLe(a[1..], b[1..]))))
  }

  /** The text of a byte string, one character per byte. */
  function DecodeBytes(b: Bytes): (s: string)
    ensures |s| == |b|
    ensures forall i :: 0 <= i < |b| ==> s[i] as int == b[i] as int
  {
    seq(|b|, i requires 0 <= i < |b| => b[i] as char)
  }
}
