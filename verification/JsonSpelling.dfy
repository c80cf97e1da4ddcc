/** Section 7 of RFC 8259 the other way round: the ways in which a character may be spelled in a string literal,
    computed from its code point, and what the decoder makes of them. */
module JsonSpelling {
  import opened Common
  import opened Utf8
  import opened JsonString

  /** The eight short escapes: quotation mark, backslash, slash, backspace, form feed, line feed, carriage return and
      tab. */
  lemma ShortEscapes(rest: seq<byte>)
    ensures ReadCodepoint([0x5C, 0x22] + rest) == Some((34, 2)) && DecodeAll([0x5C, 0x22]) == Some([34])
    ensures ReadCodepoint([0x5C, 0x5C] + rest) == Some((92, 2)) && DecodeAll([0x5C, 0x5C]) == Some([92])
    ensures ReadCodepoint([0x5C, 0x2F] + rest) == Some((47, 2)) && DecodeAll([0x5C, 0x2F]) == Some([47])
    ensures ReadCodepoint([0x5C, 0x62] + rest) == Some((8, 2)) && DecodeAll([0x5C, 0x62]) == Some([8])
    ensures ReadCodepoint([0x5C, 0x66] + rest) == Some((12, 2)) && DecodeAll([0x5C, 0x66]) == Some([12])
    ensures ReadCodepoint([0x5C, 0x6E] + rest) == Some((10, 2)) && DecodeAll([0x5C, 0x6E]) == Some([10])
    ensures ReadCodepoint([0x5C, 0x72] + rest) == Some((13, 2)) && DecodeAll([0x5C, 0x72]) == Some([13])
    ensures ReadCodepoint([0x5C, 0x74] + rest) == Some((9, 2)) && DecodeAll([0x5C, 0x74]) == Some([9])
  {
    assert EscapeValue(0x22) == 34 && EscapeValue(0x5C) == 92 && EscapeValue(0x2F) == 47 && EscapeValue(0x62) == 8;
    assert EscapeValue(0x66) == 12 && EscapeValue(0x6E) == 10 && EscapeValue(0x72) == 13 && EscapeValue(0x74) == 9;
    hide EscapeValue, DecodeAll;
    forall c: byte | IsEscape(c)
      ensures ReadCodepoint([0x5C, c] + rest) == Some((EscapeValue(c), 2))
      ensures DecodeAll([0x5C, c]) == Some([EscapeValue(c)])
    {
      ShortDecodes(c, rest);
    }
  }

  lemma ShortDecodes(c: byte, rest: seq<byte>)
    requires IsEscape(c)
    ensures ReadCodepoint([0x5C, c] + rest) == Some((EscapeValue(c), 2))
    ensures DecodeAll([0x5C, c]) == Some([EscapeValue(c)])
  {
    CodepointOfUnit(Esc(c), rest);
    CodepointOfUnit(Esc(c), []);
    var t: seq<byte> := [0x5C, c];
    assert t + [] == t && t[2..] == [];
    assert [EscapeValue(c)] + [] == [EscapeValue(c)];
  }

  // Four hexadecimal digits, each as a capital or a small letter.
  function Quad(n: nat, capitals: seq<bool>): (q: seq<byte>)
    requires n < 0x10000 && |capitals| == 4
    ensures |q| == 4
  {
    [HexChar(n / 4096, capitals[0]), HexChar(n / 256 % 16, capitals[1]),
     HexChar(n / 16 % 16, capitals[2]), HexChar(n % 16, capitals[3])]
  }

  lemma QuadValue(n: nat, capitals: seq<bool>)
    requires n < 0x10000 && |capitals| == 4
    ensures HexAt(Quad(n, capitals), 0)
    ensures var q := Quad(n, capitals); HexValue(q[0], q[1], q[2], q[3]) == n
  {
    hide HexChar, IsHex, HexDigit;
    HexCharIs(n / 4096, capitals[0]);
    HexCharIs(n / 256 % 16, capitals[1]);
    HexCharIs(n / 16 % 16, capitals[2]);
    HexCharIs(n % 16, capitals[3]);
    FourDigits(n);
  }

  lemma FourDigits(n: nat)
    ensures ((n / 4096 * 16 + n / 256 % 16) * 16 + n / 16 % 16) * 16 + n % 16 == n
  {
    Halves(n, 256);
    Halves(n, 16);
    LastDigit(n);
  }

  // Dividing by sixteen once more.
  lemma Halves(n: nat, d: nat)
    requires d == 16 || d == 256
    ensures n / (16 * d) * 16 + n / d % 16 == n / d
  {
    LastDigit(n / d);
    assert n / d / 16 == n / (16 * d);
  }

  lemma LastDigit(n: nat)
    ensures n / 16 * 16 + n % 16 == n
  {
  }

  // `\u` and the digits; two of them, for a high and a low surrogate, above the first 65536 code points.
  function Escaped(v: scalar, capitals: seq<bool>): seq<byte>
    requires |capitals| == 8
  {
    if v < 0x10000 then [0x5C, 0x75] + Quad(v, capitals[..4])
    else
      [0x5C, 0x75] + Quad(0xD800 + (v - 0x10000) / 1024, capitals[..4])
      + ([0x5C, 0x75] + Quad(0xDC00 + (v - 0x10000) % 1024, capitals[4..]))
  }

  /** Every scalar value can be spelled with `\u`, in any mixture of letter cases. */
  lemma EscapedDecodes(v: scalar, capitals: seq<bool>, rest: seq<byte>)
    requires |capitals| == 8
    ensures ReadCodepoint(Escaped(v, capitals) + rest) == Some((v, |Escaped(v, capitals)|))
  {
    hide HexChar, Quad, HexValue;
    if v < 0x10000 {
      var q := Quad(v, capitals[..4]);
      QuadValue(v, capitals[..4]);
      QuadRead(q, rest);
    } else {
      var high, low := 0xD800 + (v - 0x10000) / 1024, 0xDC00 + (v - 0x10000) % 1024;
      QuadValue(high, capitals[..4]);
      QuadValue(low, capitals[4..]);
      PairRead(Quad(high, capitals[..4]), Quad(low, capitals[4..]), rest);
    }
  }

  lemma QuadRead(q: seq<byte>, rest: seq<byte>)
    requires |q| == 4 && HexAt(q, 0) && IsScalar(HexValue(q[0], q[1], q[2], q[3]))
    ensures ReadCodepoint([0x5C, 0x75] + q + rest) == Some((HexValue(q[0], q[1], q[2], q[3]), 6))
  {
    var u := Hex(q[0], q[1], q[2], q[3]);
    assert q == [q[0], q[1], q[2], q[3]];
    assert PrintUnit(u) == [0x5C, 0x75] + q;
    CodepointOfUnit(u, rest);
  }

  lemma PairRead(q: seq<byte>, w: seq<byte>, rest: seq<byte>)
    requires |q| == 4 && HexAt(q, 0) && |w| == 4 && HexAt(w, 0)
    requires 0xD800 <= HexValue(q[0], q[1], q[2], q[3]) <= 0xDBFF
    requires 0xDC00 <= HexValue(w[0], w[1], w[2], w[3]) <= 0xDFFF
    ensures ReadCodepoint(([0x5C, 0x75] + q + ([0x5C, 0x75] + w)) + rest) ==
      Some((PairValue(HexValue(q[0], q[1], q[2], q[3]), HexValue(w[0], w[1], w[2], w[3])), 12))
  {
    hide HexValue, PairValue;
    var t := ([0x5C, 0x75] + q + ([0x5C, 0x75] + w)) + rest;
    assert t[2] == q[0] && t[3] == q[1] && t[4] == q[2] && t[5] == q[3];
    assert t[8] == w[0] && t[9] == w[1] && t[10] == w[2] && t[11] == w[3];
  }

  datatype Spelling = AsItIs | Short | Unicode(capitals: seq<bool>)

  // Which spellings a character has.
  predicate MaySpell(v: scalar, s: Spelling) {
    match s
    case AsItIs => v >= 0x20 && v != 0x22 && v != 0x5C
    case Short => v == 34 || v == 92 || v == 47 || v == 8 || v == 12 || v == 10 || v == 13 || v == 9
    case Unicode(capitals) => |capitals| == 8
  }

  function Spell(v: scalar, s: Spelling): seq<byte>
    requires MaySpell(v, s)
  {
    match s
    case AsItIs => Encode(v)
    case Short =>
      [0x5C, if v == 8 then 'b' as int else if v == 12 then 'f' as int else if v == 10 then 'n' as int
             else if v == 13 then 'r' as int else if v == 9 then 't' as int else v]
    case Unicode(capitals) => Escaped(v, capitals)
  }

  function SpellAll(vs: seq<scalar>, ss: seq<Spelling>): seq<byte>
    requires |ss| == |vs| && forall i :: 0 <= i < |vs| ==> MaySpell(vs[i], ss[i])
  {
    if vs == [] then [] else Spell(vs[0], ss[0]) + SpellAll(vs[1..], ss[1..])
  }

  lemma SpellRead(v: scalar, s: Spelling, rest: seq<byte>)
    requires MaySpell(v, s)
    ensures ReadCodepoint(Spell(v, s) + rest) == Some((v, |Spell(v, s)|))
  {
    hide ReadCodepoint, Escaped, Encode;
    match s
    case AsItIs => CodepointOfUnit(Raw(v), rest);
    case Short => ShortEscapes(rest);
    case Unicode(capitals) => EscapedDecodes(v, capitals, rest);
  }

  /** Whatever the text and however each of its characters is spelled, the decoder finds the text. */
  lemma {:induction false} SpelledDecodes(vs: seq<scalar>, ss: seq<Spelling>)
    requires |ss| == |vs| && forall i :: 0 <= i < |vs| ==> MaySpell(vs[i], ss[i])
    ensures DecodeAll(SpellAll(vs, ss)) == Some(vs) && Decoded(SpellAll(vs, ss)) == Some(EncodeAll(vs))
  {
    hide Spell, MaySpell, ReadCodepoint;
    if vs != [] {
      var t, rest := Spell(vs[0], ss[0]), SpellAll(vs[1..], ss[1..]);
      SpellRead(vs[0], ss[0], rest);
      SpelledDecodes(vs[1..], ss[1..]);
      assert (t + rest)[|t|..] == rest && [vs[0]] + vs[1..] == vs;
      assert SpellAll(vs, ss) == t + rest;
    }
  }
}
