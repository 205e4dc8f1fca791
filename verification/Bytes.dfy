/** Bytes, decimal numerals and first-occurrence search: the vocabulary every other module shares. */
module Bytes {

  newtype byte = x: int | 0 <= x < 256

  datatype Option<+T> = None | Some(value: T)

  const NL: byte := 10
  const CR: byte := 13
  const MINUS: byte := 45
  const PLUS: byte := 43
  const ZERO: byte := 48
  const DOT: byte := 46

  const CRLF: seq<byte> := [CR, NL]

  const MAX_INT64: int := 0x7fff_ffff_ffff_ffff
  const MAX_INT32: int := 0x7fff_ffff

  function Min(a: int, b: int): int { if a < b then a else b }

  /** Position of the first `c` in `s`, or -1 (bytes.IndexByte). */
  function IndexOf(s: seq<byte>, c: byte): (i: int)
    ensures -1 <= i < |s|
    ensures i == -1 ==> c !in s
    ensures i >= 0 ==> s[i] == c && c !in s[..i]
    ensures forall k :: 0 <= k < (if i == -1 then |s| else i) ==> s[k] != c
  {
    if s == [] then -1
    else if s[0] == c then 0
    else
      var j := IndexOf(s[1..], c);
      if j == -1 then -1 else assert s[..j + 1] == [s[0]] + s[1..][..j]; j + 1
  }

  /** The first occurrence is the only position with no earlier one. */
  lemma IndexOfUnique(s: seq<byte>, c: byte, i: nat)
    requires i < |s| && s[i] == c && c !in s[..i]
    ensures IndexOf(s, c) == i
  {
    assert c in s;
    assert forall k :: 0 <= k < i ==> s[..i][k] == s[k];
  }

  lemma Assoc<T>(a: seq<T>, b: seq<T>, c: seq<T>)
    ensures (a + b) + c == a + (b + c)
  {
  }

  lemma Units<T>(a: seq<T>)
    ensures a + [] == a && [] + a == a
  {
  }

  /** Moving the first n of `after` to the end of `before`. */
  lemma Glue<T>(before: seq<T>, after: seq<T>, n: nat)
    requires n <= |after|
    ensures (before + after[..n]) + after[n..] == before + after
  {
  }

  predicate IsDigit(b: byte) { 48 <= b <= 57 }

  /** unicode.IsSpace on ASCII. */
  predicate IsSpace(b: byte) { b == 32 || 9 <= b <= 13 }

  predicate AllDigits(s: seq<byte>) { forall k :: 0 <= k < |s| ==> IsDigit(s[k]) }

  /** Decimal rendering of a natural number (strconv.AppendUint with base 10). */
  function Dec(n: nat): (s: seq<byte>)
    ensures s != [] && AllDigits(s)
  {
    if n < 10 then [(48 + n) as byte] else Dec(n / 10) + [(48 + n % 10) as byte]
  }

  function DecInt(n: int): seq<byte> {
    if n < 0 then [MINUS] + Dec(-n) else Dec(n)
  }

  /** The number a digit string denotes. */
  function Denotes(s: seq<byte>): nat
    requires AllDigits(s)
  {
    if s == [] then 0 else 10 * Denotes(s[..|s| - 1]) + (s[|s| - 1] as int - 48)
  }

  /** strconv.ParseInt with base 10; None stands for both the syntax and the range error. */
  function ParseInt(s: seq<byte>, max: nat): Option<int> {
    var negative := s != [] && s[0] == MINUS;
    var digits := if s != [] && (s[0] == MINUS || s[0] == PLUS) then s[1..] else s;
    if digits == [] || !AllDigits(digits) then None
    else
      var magnitude: int := Denotes(digits);
      var v := if negative then -magnitude else magnitude;
      if -(max as int) - 1 <= v <= max then Some(v) else None
  }

  lemma {:induction false} DenotesDec(n: nat)
    ensures Denotes(Dec(n)) == n
  {
    if n >= 10 {
      DenotesDec(n / 10);
      assert Dec(n)[..|Dec(n)| - 1] == Dec(n / 10);
    }
  }

  /** Parsing undoes printing exactly on the numbers that fit the integer width. */
  lemma ParseIntDec(n: int, max: nat)
    ensures ParseInt(DecInt(n), max) == if -(max as int) - 1 <= n <= max then Some(n) else None
    ensures forall k :: 0 <= k < |DecInt(n)| ==> DecInt(n)[k] != NL && DecInt(n)[k] != CR
  {
    if n < 0 {
      DenotesDec(-n);
      assert DecInt(n)[1..] == Dec(-n);
    } else {
      DenotesDec(n);
      assert IsDigit(Dec(n)[0]);
    }
  }

  lemma {:induction false} DecLength(n: nat, digits: nat)
    requires digits >= 1 && n < Pow10(digits)
    ensures |Dec(n)| <= digits
  {
    if n >= 10 {
      DecLength(n / 10, digits - 1);
    }
  }

  function Pow10(k: nat): nat { if k == 0 then 1 else 10 * Pow10(k - 1) }
}
