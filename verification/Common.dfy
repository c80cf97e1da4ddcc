/** Bytes, optional values and the few sequence facts that every component uses. */
module Common {

  // One `unsigned char`. Bit masks and shifts of the C code are written as division and remainder.
  type byte = b: int | 0 <= b < 256

  datatype Option<+T> = None | Some(value: T)

  // The largest `size_t` of the 64-bit target.
  const SIZE_MAX: nat := 0xFFFF_FFFF_FFFF_FFFF

  // src/app/password_worker.h
  const PASSWORD_QUEUE_CAPACITY: nat := 16

  const INT_MAX: int := 0x7FFF_FFFF

  lemma Associative<T>(a: seq<T>, b: seq<T>, c: seq<T>)
    ensures (a + b) + c == a + (b + c)
  {
  }

  predicate NoDup<T(==)>(s: seq<T>) {
    forall i, j :: 0 <= i < j < |s| ==> s[i] != s[j]
  }

  lemma {:induction false} NoDupOnce<T>(s: seq<T>, x: T)
    requires NoDup(s)
    ensures multiset(s)[x] <= 1
  {
    if s != [] {
      var rest := s[1..];
      assert s == [s[0]] + rest;
      NoDupOnce(rest, x);
      assert s[0] !in rest;
    }
  }

  lemma RemoveAt<T>(s: seq<T>, i: nat)
    requires i < |s|
    ensures multiset(s) == multiset(s[..i] + s[i + 1..]) + multiset{s[i]}
  {
    assert s == s[..i] + [s[i]] + s[i + 1..];
  }

  predicate IsDigit(c: byte) {
    0x30 <= c <= 0x39
  }

  predicate All(s: seq<byte>, p: byte -> bool) {
    forall i :: 0 <= i < |s| ==> p(s[i])
  }

  predicate IsHex(c: byte) {
    0x30 <= c <= 0x39 || 0x61 <= c <= 0x66 || 0x41 <= c <= 0x46
  }

  function HexDigit(c: byte): nat
    requires IsHex(c)
  {
    if c <= 0x39 then c - 0x30 else if c <= 0x46 then c - 0x41 + 10 else c - 0x61 + 10
  }

  // The digit of that value, as a capital or a small letter from ten on.
  function HexChar(n: nat, capital: bool): byte
    requires n < 16
  {
    (if capital then "0123456789ABCDEF" else "0123456789abcdef")[n] as int
  }

  /** The hexadecimal digits are these characters, with their places as values. */
  lemma HexCharIs(n: nat, capital: bool)
    requires n < 16
    ensures IsHex(HexChar(n, capital)) && HexDigit(HexChar(n, capital)) == n
  {
    CharAt(n, capital);
    hide HexChar;
  }

  lemma CharAt(n: nat, capital: bool)
    requires n < 16
    ensures HexChar(n, capital) == if n < 10 then 0x30 + n else if capital then 0x37 + n else 0x57 + n
  {
  }

  lemma HexIsChar(c: byte) returns (capital: bool)
    requires IsHex(c)
    ensures HexDigit(c) < 16 && c == HexChar(HexDigit(c), capital)
  {
    hide HexChar;
    capital := c < 0x60;
    CharAt(HexDigit(c), capital);
  }

  // The bytes of a text of ASCII characters.
  function Ascii(s: string): seq<byte> {
    seq(|s|, i requires 0 <= i < |s| => s[i] as int % 128)
  }

  lemma SameText(s: string, b: seq<byte>)
    requires |b| == |s| && forall i :: 0 <= i < |s| ==> b[i] < 128 && s[i] as int == b[i]
    ensures Ascii(s) == b
  {
  }

  // The number that decimal digits stand for.
  function Decimal(digits: seq<byte>): nat
    requires All(digits, IsDigit)
  {
    if digits == [] then 0
    else Decimal(digits[..|digits| - 1]) * 10 + (digits[|digits| - 1] - 0x30)
  }

  // Reading on never makes the number smaller, so an overflow seen early is an overflow.
  lemma {:induction false} DecimalGrows(digits: seq<byte>, n: nat)
    requires All(digits, IsDigit) && n <= |digits|
    ensures Decimal(digits[..n]) <= Decimal(digits)
  {
    if n < |digits| {
      DecimalGrows(digits[..|digits| - 1], n);
      assert digits[..|digits| - 1][..n] == digits[..n];
    } else {
      assert digits[..n] == digits;
    }
  }

  // The guard the C code computes without overflowing is the overflow test itself.
  lemma OverflowGuard(value: nat, digit: nat, max: nat)
    requires digit < 10 <= max
    ensures value > (max - digit) / 10 <==> value * 10 + digit > max
  {
  }

  lemma DecimalNext(t: seq<byte>, n: nat)
    requires n < |t| && All(t[..n + 1], IsDigit)
    ensures All(t[..n], IsDigit)
    ensures Decimal(t[..n + 1]) == Decimal(t[..n]) * 10 + (t[n] - 0x30)
  {
    assert t[..n + 1][..n] == t[..n];
  }
}
