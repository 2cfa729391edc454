/** Bytes and decimal numbers as the FIX code reads and writes them. */
module FixText {
  import opened Options

  type byte = x: int | 0 <= x < 256

  const SOH: byte := 1
  const EQ: byte := 61
  const ZERO: byte := 48
  const PLUS: byte := 43
  const MINUS: byte := 45

  const TWO63: int := 0x8000_0000_0000_0000

  /** First position of `b` at or after `from`, or -1. */
  function IndexByte(data: seq<byte>, from: nat, b: byte): (r: int)
    requires from <= |data|
    ensures r == -1 || from <= r < |data|
    ensures r == -1 ==> forall i | from <= i < |data| :: data[i] != b
    ensures r != -1 ==> data[r] == b && forall i | from <= i < r :: data[i] != b
    decreases |data| - from
  {
    if from == |data| then -1 else if data[from] == b then from else IndexByte(data, from + 1, b)
  }

  predicate IsDigit(b: byte) {
    ZERO <= b <= ZERO + 9
  }

  predicate AllDigits(s: seq<byte>) {
    forall i | 0 <= i < |s| :: IsDigit(s[i])
  }

  /** The number a string of digits stands for. */
  function Value(s: seq<byte>): nat
    requires AllDigits(s)
  {
    if s == [] then 0 else 10 * Value(s[..|s| - 1]) + (s[|s| - 1] - ZERO)
  }

  /** Decimal text to a 64-bit integer, with an optional sign; nothing else is accepted. */
  function Atoi(s: seq<byte>): Option<int> {
    var neg := s != [] && s[0] == MINUS;
    var digits := if s != [] && (s[0] == MINUS || s[0] == PLUS) then s[1..] else s;
    if digits == [] || !AllDigits(digits) then None
    else if neg then (if Value(digits) <= TWO63 then Some(0 - Value(digits)) else None)
    else if Value(digits) < TWO63 then Some(Value(digits))
    else None
  }

  function Dec(n: nat): seq<byte> {
    if n < 10 then [ZERO + n] else Dec(n / 10) + [ZERO + n % 10]
  }

  function DecInt(n: int): seq<byte> {
    if n < 0 then [MINUS] + Dec(0 - n) else Dec(n)
  }

  /** Exactly three digits. */
  function Dec3(n: nat): seq<byte>
    requires n < 1000
  {
    [ZERO + n / 100, ZERO + n / 10 % 10, ZERO + n % 10]
  }

  /** Two's complement wrap-around to 64 bits. */
  function Wrap64(x: int): (r: int)
    ensures 0 - TWO63 <= r < TWO63
    ensures 0 - TWO63 <= x < TWO63 ==> r == x
  {
    (x + TWO63) % (2 * TWO63) - TWO63
  }

  lemma ModMultiple(x: int, k: int)
    ensures (x + k * 0x1_0000_0000_0000_0000) % 0x1_0000_0000_0000_0000 == x % 0x1_0000_0000_0000_0000
  {
  }

  /** Wrapping keeps a number modulo 2^64, so wrapping at every step is wrapping once. */
  lemma WrapStep(x: int, d: int)
    ensures Wrap64(x) % 0x1_0000_0000_0000_0000 == x % 0x1_0000_0000_0000_0000
    ensures Wrap64(Wrap64(x) * 10 + d) == Wrap64(x * 10 + d)
  {
    var k := (x + TWO63) / 0x1_0000_0000_0000_0000;
    assert Wrap64(x) == x + (0 - k) * 0x1_0000_0000_0000_0000;
    ModMultiple(x, 0 - k);
    ModMultiple(x * 10 + d + TWO63, 0 - 10 * k);
  }

  lemma {:induction false} DecValue(n: nat)
    ensures Dec(n) != [] && AllDigits(Dec(n)) && Value(Dec(n)) == n
  {
    if n >= 10 {
      DecValue(n / 10);
      assert Dec(n)[..|Dec(n)| - 1] == Dec(n / 10);
    } else {
      assert Dec(n)[..0] == [];
    }
  }

  /** Printing and reading a number are inverse within the 64-bit range. */
  lemma AtoiDec(n: nat)
    ensures Atoi(Dec(n)) == if n < TWO63 then Some(n) else None
  {
    DecValue(n);
    assert Dec(n)[0] != MINUS && Dec(n)[0] != PLUS by { assert IsDigit(Dec(n)[0]); }
  }

  lemma FirstOf(d: seq<byte>)
    requires d != [] && AllDigits(d)
    ensures d[0] != MINUS && d[0] != PLUS
  {
    assert IsDigit(d[0]);
  }

  /** Digits with or without a sign are read as the number they stand for, if it fits 64 bits. */
  lemma AtoiSigned(d: seq<byte>)
    requires d != [] && AllDigits(d)
    ensures Atoi(d) == Atoi([PLUS] + d) == if Value(d) < TWO63 then Some(Value(d)) else None
    ensures Atoi([MINUS] + d) == if Value(d) <= TWO63 then Some(0 - Value(d)) else None
  {
    hide Value;
    FirstOf(d);
    assert ([PLUS] + d)[1..] == d && ([MINUS] + d)[1..] == d;
  }

  /** Everything else is refused: no digits at all, or anything but digits after an optional sign. */
  lemma AtoiRefuses(s: seq<byte>)
    ensures s == [] || s == [PLUS] || s == [MINUS] ==> Atoi(s) == None
    ensures s != [] && !IsDigit(s[0]) && s[0] != PLUS && s[0] != MINUS ==> Atoi(s) == None
    ensures (exists i | 1 <= i < |s| :: !IsDigit(s[i])) ==> Atoi(s) == None
  {
    if i :| 1 <= i < |s| && !IsDigit(s[i]) {
      assert s[1..][i - 1] == s[i];
    }
  }

  lemma Dec3Value(n: nat)
    requires n < 1000
    ensures AllDigits(Dec3(n)) && Value(Dec3(n)) == n
  {
    var a, b, c: byte := ZERO + n / 100, ZERO + n / 10 % 10, ZERO + n % 10;
    assert Dec3(n)[..2] == [a, b] && [a, b][..1] == [a] && [a][..0] == [];
    assert Value([a]) == n / 100;
    assert Value([a, b]) == n / 10;
  }

  predicate Free(s: seq<byte>, b: byte) {
    forall i | 0 <= i < |s| :: s[i] != b
  }

  lemma DecFree(n: nat)
    ensures Free(Dec(n), SOH) && Free(Dec(n), EQ)
  {
    DecValue(n);
    assert forall i | 0 <= i < |Dec(n)| :: IsDigit(Dec(n)[i]);
  }

  lemma DecIntFree(n: int)
    ensures Free(DecInt(n), SOH)
  {
    DecFree(if n < 0 then 0 - n else n);
  }
}
