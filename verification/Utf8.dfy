/** UTF-8 as sections 3 and 4 of RFC 3629 define it, and the reader's multi-byte decoding. */
module Utf8 {
  import opened Common

  // A Unicode scalar value.
  type scalar = v: int | 0 <= v < 0xD800 || 0xE000 <= v <= 0x10FFFF

  predicate IsScalar(v: int) {
    0 <= v < 0xD800 || 0xE000 <= v <= 0x10FFFF
  }

  // The bytes that json_string_decode writes for one scalar value.
  function Encode(v: scalar): (b: seq<byte>)
    ensures 1 <= |b| <= 4
  {
    if v < 0x80 then [v]
    else if v < 0x800 then [0xC0 + v / 64, 0x80 + v % 64]
    else if v < 0x10000 then [0xE0 + v / 4096, 0x80 + v / 64 % 64, 0x80 + v % 64]
    else [0xF0 + v / 262144, 0x80 + v / 4096 % 64, 0x80 + v / 64 % 64, 0x80 + v % 64]
  }

  function EncodeAll(vs: seq<scalar>): seq<byte> {
    if vs == [] then [] else Encode(vs[0]) + EncodeAll(vs[1..])
  }

  /** The first and the last scalar value of each length, and the first examples of section 7 of RFC 3629. */
  lemma EncodeExamples()
    ensures Encode(0) == [0x00] && Encode(0x7F) == [0x7F]
    ensures Encode(0x80) == [0xC2, 0x80] && Encode(0x7FF) == [0xDF, 0xBF]
    ensures Encode(0x800) == [0xE0, 0xA0, 0x80] && Encode(0xFFFF) == [0xEF, 0xBF, 0xBF]
    ensures Encode(0x1_0000) == [0xF0, 0x90, 0x80, 0x80] && Encode(0x10_FFFF) == [0xF4, 0x8F, 0xBF, 0xBF]
    ensures Encode(0x2262) == [0xE2, 0x89, 0xA2] && Encode(0x0391) == [0xCE, 0x91]
    ensures Encode(0x65E5) == [0xE6, 0x97, 0xA5] && Encode(0x2_33B4) == [0xF0, 0xA3, 0x8E, 0xB4]
  {
  }

  predicate IsContinuation(b: byte) {
    0x80 <= b < 0xC0
  }

  // What a lead byte announces: continuation bytes, the smallest value allowed and the first bits.
  datatype Lead = Lead(count: nat, minimum: nat, bits: nat)

  function ReadLead(c: byte): Option<Lead> {
    if 0xC2 <= c <= 0xDF then Some(Lead(1, 0x80, c % 32))
    else if 0xE0 <= c <= 0xEF then Some(Lead(2, 0x800, c % 16))
    else if 0xF0 <= c <= 0xF4 then Some(Lead(3, 0x10000, c % 8))
    else None
  }

  // The six bits a continuation byte carries.
  function Low6(b: byte): nat {
    b % 64
  }

  // Appends six bits for every byte of `t`, all of which must be continuation bytes.
  function Continue(bits: nat, t: seq<byte>): Option<nat>
    decreases |t|
  {
    if t == [] then Some(bits)
    else if !IsContinuation(t[0]) then None
    else Continue(bits * 64 + Low6(t[0]), t[1..])
  }

  // Decodes the multi-byte sequence at the front of `t`: its value and its length.
  function ReadMultibyte(t: seq<byte>): (r: Option<(scalar, nat)>)
    requires t != []
    ensures r.Some? ==> 2 <= r.value.1 <= 4 && r.value.1 <= |t| && r.value.0 >= 0x80
  {
    match ReadLead(t[0])
    case None => None
    case Some(lead) =>
      if |t| - 1 < lead.count then None
      else match Continue(lead.bits, t[1..1 + lead.count])
        case None => None
        case Some(v) => if lead.minimum <= v && IsScalar(v) then Some((v, 1 + lead.count)) else None
  }

  // The scalar value at the front of `t`, in one to four bytes.
  function First(t: seq<byte>): Option<(scalar, nat)>
    requires t != []
  {
    if t[0] < 0x80 then Some((t[0], 1)) else ReadMultibyte(t)
  }

  lemma {:induction false} ContinueOne(bits: nat, t: seq<byte>)
    requires |t| == 1
    ensures Continue(bits, t) == if IsContinuation(t[0]) then Some(bits * 64 + Low6(t[0])) else None
  {
    assert t[1..] == [];
  }

  lemma {:induction false} ContinueTwo(bits: nat, t: seq<byte>)
    requires |t| == 2
    ensures Continue(bits, t)
         == if IsContinuation(t[0]) && IsContinuation(t[1])
            then Some(bits * 4096 + Low6(t[0]) * 64 + Low6(t[1])) else None
  {
    if IsContinuation(t[0]) {
      ContinueOne(bits * 64 + Low6(t[0]), t[1..]);
    }
  }

  lemma {:induction false} ContinueThree(bits: nat, t: seq<byte>)
    requires |t| == 3
    ensures Continue(bits, t)
         == if IsContinuation(t[0]) && IsContinuation(t[1]) && IsContinuation(t[2])
            then Some(bits * 262144 + Low6(t[0]) * 4096 + Low6(t[1]) * 64 + Low6(t[2])) else None
  {
    if IsContinuation(t[0]) {
      ContinueTwo(bits * 64 + Low6(t[0]), t[1..]);
    }
  }

  // A number is the sum of its base-64 digits, and its digits are those of the sum.
  lemma Digits64(v: nat)
    ensures v == v / 64 * 64 + v % 64
    ensures v / 4096 == v / 64 / 64 && v / 262144 == v / 4096 / 64
    ensures v / 64 == v / 4096 * 64 + v / 64 % 64
    ensures v / 4096 == v / 262144 * 64 + v / 4096 % 64
  {
  }

  lemma DigitsOfSum(a: nat, b: nat, c: nat, d: nat)
    requires b < 64 && c < 64 && d < 64
    ensures var v := a * 262144 + b * 4096 + c * 64 + d;
      && v / 262144 == a && v / 4096 % 64 == b && v / 64 % 64 == c && v % 64 == d
  {
    var v := a * 262144 + b * 4096 + c * 64 + d;
    assert v / 64 == a * 4096 + b * 64 + c;
    assert v / 4096 == a * 64 + b;
  }

  lemma {:induction false} TwoBytes(t: seq<byte>)
    requires |t| >= 2 && 0xC2 <= t[0] <= 0xDF && ReadMultibyte(t).Some?
    ensures Encode(ReadMultibyte(t).value.0) == t[..2] && ReadMultibyte(t).value.1 == 2
  {
    ContinueOne(t[0] % 32, t[1..2]);
  }

  lemma EncodedThree(a: nat, b: nat, c: nat, v: scalar)
    requires a < 16 && b < 64 && c < 64 && v == a * 4096 + b * 64 + c && 0x800 <= v
    ensures Encode(v) == [0xE0 + a, 0x80 + b, 0x80 + c]
  {
    DigitsOfSum(0, a, b, c);
    assert v / 4096 == a;
  }

  lemma EncodedFour(a: nat, b: nat, c: nat, d: nat, v: scalar)
    requires b < 64 && c < 64 && d < 64 && v == a * 262144 + b * 4096 + c * 64 + d && 0x10000 <= v
    ensures Encode(v) == [0xF0 + a, 0x80 + b, 0x80 + c, 0x80 + d]
  {
    DigitsOfSum(a, b, c, d);
  }

  lemma {:induction false} ThreeBytes(t: seq<byte>)
    requires |t| >= 3 && 0xE0 <= t[0] <= 0xEF && ReadMultibyte(t).Some?
    ensures Encode(ReadMultibyte(t).value.0) == t[..3] && ReadMultibyte(t).value.1 == 3
  {
    hide Continue, Encode;
    var a: int, b: int, c: int := t[0] % 16, Low6(t[1]), Low6(t[2]);
    ContinueTwo(a, t[1..3]);
    assert ReadMultibyte(t) == Some((a * 4096 + b * 64 + c, 3));
    EncodedThree(a, b, c, ReadMultibyte(t).value.0);
    assert t[..3] == [0xE0 + a, 0x80 + b, 0x80 + c];
  }

  lemma {:induction false} FourBytes(t: seq<byte>)
    requires |t| >= 4 && 0xF0 <= t[0] <= 0xF4 && ReadMultibyte(t).Some?
    ensures Encode(ReadMultibyte(t).value.0) == t[..4] && ReadMultibyte(t).value.1 == 4
  {
    hide Continue, Encode;
    var a: int, b: int, c: int, d: int := t[0] % 8, Low6(t[1]), Low6(t[2]), Low6(t[3]);
    ContinueThree(a, t[1..4]);
    assert ReadMultibyte(t) == Some((a * 262144 + b * 4096 + c * 64 + d, 4));
    EncodedFour(a, b, c, d, ReadMultibyte(t).value.0);
    assert t[..4] == [0xF0 + a, 0x80 + b, 0x80 + c, 0x80 + d];
  }

  // Only the encoding of a scalar value decodes, and it decodes to that value.
  lemma {:induction false} FirstIsEncode(t: seq<byte>)
    requires t != [] && First(t).Some?
    ensures First(t).value.1 == |Encode(First(t).value.0)| <= |t|
    ensures t[..First(t).value.1] == Encode(First(t).value.0)
  {
    if t[0] < 0x80 {
    } else if t[0] <= 0xDF {
      TwoBytes(t);
    } else if t[0] <= 0xEF {
      ThreeBytes(t);
    } else {
      FourBytes(t);
    }
  }

  lemma {:induction false} TwoBytesOf(v: scalar, rest: seq<byte>)
    requires 0x80 <= v < 0x800
    ensures First(Encode(v) + rest) == Some((v, 2))
  {
    var t := Encode(v) + rest;
    assert t[0] == 0xC0 + v / 64 && t[1] == 0x80 + v % 64;
    ContinueOne(v / 64, t[1..2]);
    assert ReadLead(t[0]) == Some(Lead(1, 0x80, v / 64));
  }

  lemma {:induction false} ThreeBytesOf(v: scalar, rest: seq<byte>)
    requires 0x800 <= v < 0x10000
    ensures First(Encode(v) + rest) == Some((v, 3))
  {
    var t := Encode(v) + rest;
    Digits64(v);
    var a, b, c := v / 4096, v / 64 % 64, v % 64;
    assert t[0] == 0xE0 + a && t[1] == 0x80 + b && t[2] == 0x80 + c;
    assert ReadLead(t[0]) == Some(Lead(2, 0x800, a));
    ContinueTwo(a, t[1..3]);
    assert Continue(a, t[1..3]) == Some(a * 4096 + b * 64 + c);
  }

  lemma {:induction false} FourBytesOf(v: scalar, rest: seq<byte>)
    requires 0x10000 <= v
    ensures First(Encode(v) + rest) == Some((v, 4))
  {
    hide Continue, Encode;
    var t := Encode(v) + rest;
    var a, b, c, d := v / 262144, v / 4096 % 64, v / 64 % 64, v % 64;
    Digits64(v);
    EncodedFour(a, b, c, d, v);
    assert t[0] == 0xF0 + a && t[1..4] == [0x80 + b, 0x80 + c, 0x80 + d];
    assert ReadLead(t[0]) == Some(Lead(3, 0x10000, a));
    ContinueThree(a, t[1..4]);
    assert Continue(a, t[1..4]) == Some(v);
  }

  lemma {:induction false} FirstOfEncode(v: scalar, rest: seq<byte>)
    ensures First(Encode(v) + rest) == Some((v, |Encode(v)|))
  {
    if v < 0x80 {
    } else if v < 0x800 {
      TwoBytesOf(v, rest);
    } else if v < 0x10000 {
      ThreeBytesOf(v, rest);
    } else {
      FourBytesOf(v, rest);
    }
  }

  // UTF-8 is uniquely decodable: different scalar sequences never share an encoding.
  lemma {:induction false} EncodeAllInjective(a: seq<scalar>, b: seq<scalar>)
    requires EncodeAll(a) == EncodeAll(b)
    ensures a == b
  {
    if a != [] && b != [] {
      var e := Encode(a[0]);
      FirstOfEncode(a[0], EncodeAll(a[1..]));
      FirstOfEncode(b[0], EncodeAll(b[1..]));
      assert EncodeAll(a)[|e|..] == EncodeAll(a[1..]);
      assert EncodeAll(b)[|e|..] == EncodeAll(b[1..]);
      EncodeAllInjective(a[1..], b[1..]);
    }
  }

  lemma {:induction false} EncodeAllAppend(a: seq<scalar>, b: seq<scalar>)
    ensures EncodeAll(a + b) == EncodeAll(a) + EncodeAll(b)
  {
    if a == [] {
      assert a + b == b;
    } else {
      assert (a + b)[0] == a[0] && (a + b)[1..] == a[1..] + b;
      EncodeAllAppend(a[1..], b);
    }
  }
}
