/** String literals of section 7 of RFC 8259: what the reader accepts and what the decoder makes of it. */
module JsonString {
  import opened Common
  import opened Utf8

  const QUOTE: byte := 0x22
  const BACKSLASH: byte := 0x5C
  const LOWER_U: byte := 0x75

  function HexValue(a: byte, b: byte, c: byte, d: byte): (v: nat)
    requires IsHex(a) && IsHex(b) && IsHex(c) && IsHex(d)
    ensures v < 0x10000
  {
    ((HexDigit(a) * 16 + HexDigit(b)) * 16 + HexDigit(c)) * 16 + HexDigit(d)
  }

  // The characters that may follow a backslash, other than `u`.
  predicate IsEscape(c: byte) {
    c == QUOTE || c == BACKSLASH || c == 0x2F || c == 0x62 || c == 0x66 || c == 0x6E || c == 0x72 || c == 0x74
  }

  function EscapeValue(c: byte): scalar
    requires IsEscape(c)
  {
    if c == 0x62 then 8 else if c == 0x66 then 12 else if c == 0x6E then 10
    else if c == 0x72 then 13 else if c == 0x74 then 9 else c
  }

  // ---------------------------------------------------------------- the grammar

  /** One `char` of the grammar: an unescaped scalar value, a short escape or a `\u` escape. */
  datatype Unit =
    | Raw(v: scalar)
    | Esc(c: byte)
    | Hex(a: byte, b: byte, c: byte, d: byte)

  predicate IsPlain(v: scalar) {
    v >= 0x20 && v != QUOTE && v != BACKSLASH
  }

  predicate ValidUnit(u: Unit) {
    match u
    case Raw(v) => IsPlain(v)
    case Esc(c) => IsEscape(c)
    case Hex(a, b, c, d) => IsHex(a) && IsHex(b) && IsHex(c) && IsHex(d)
  }

  predicate ValidUnits(us: seq<Unit>) {
    forall i :: 0 <= i < |us| ==> ValidUnit(us[i])
  }

  function PrintUnit(u: Unit): (b: seq<byte>)
    ensures b != []
  {
    match u
    case Raw(v) => Encode(v)
    case Esc(c) => [BACKSLASH, c]
    case Hex(a, b, c, d) => [BACKSLASH, LOWER_U, a, b, c, d]
  }

  function PrintUnits(us: seq<Unit>): seq<byte> {
    if us == [] then [] else PrintUnit(us[0]) + PrintUnits(us[1..])
  }

  predicate IsHighSurrogate(u: Unit) {
    u.Hex? && ValidUnit(u) && 0xD800 <= HexValue(u.a, u.b, u.c, u.d) <= 0xDBFF
  }

  predicate IsLowSurrogate(u: Unit) {
    u.Hex? && ValidUnit(u) && 0xDC00 <= HexValue(u.a, u.b, u.c, u.d) <= 0xDFFF
  }

  // Every high surrogate is followed by a low one and every low one preceded by a high one.
  predicate Paired(us: seq<Unit>) {
    && (forall i :: 0 <= i < |us| && IsHighSurrogate(us[i]) ==> i + 1 < |us| && IsLowSurrogate(us[i + 1]))
    && (forall i :: 0 <= i < |us| && IsLowSurrogate(us[i]) ==> 0 < i && IsHighSurrogate(us[i - 1]))
  }

  // ---------------------------------------------------------------- the reader

  predicate HexAt(t: seq<byte>, i: nat)
    requires i + 4 <= |t|
  {
    IsHex(t[i]) && IsHex(t[i + 1]) && IsHex(t[i + 2]) && IsHex(t[i + 3])
  }

  // One iteration of parse_json_str: the unit at the front of `t` and its length.
  function ReadUnit(t: seq<byte>): (r: Option<(Unit, nat)>)
    requires t != [] && t[0] != QUOTE
    ensures r.Some? ==> 0 < r.value.1 <= |t|
  {
    if t[0] < 0x20 then None
    else if t[0] == BACKSLASH then
      if |t| < 2 then None
      else if t[1] == LOWER_U then
        if |t| >= 6 && HexAt(t, 2) then Some((Hex(t[2], t[3], t[4], t[5]), 6)) else None
      else if IsEscape(t[1]) then Some((Esc(t[1]), 2))
      else None
    else match First(t)
      case None => None
      case Some((v, n)) => Some((Raw(v), n))
  }

  // What follows an opening quote: the units up to the closing quote and the text behind it.
  function ScanBody(t: seq<byte>): (r: Option<(seq<Unit>, seq<byte>)>)
    ensures r.Some? ==> |r.value.1| < |t|
    decreases |t|
  {
    if t == [] then None
    else if t[0] == QUOTE then Some(([], t[1..]))
    else match ReadUnit(t)
      case None => None
      case Some((u, n)) =>
        match ScanBody(t[n..])
        case None => None
        case Some((us, rest)) => Some(([u] + us, rest))
  }

  lemma {:induction false} ReadUnitSound(t: seq<byte>)
    requires t != [] && t[0] != QUOTE && ReadUnit(t).Some?
    ensures ValidUnit(ReadUnit(t).value.0)
    ensures ReadUnit(t).value.1 == |PrintUnit(ReadUnit(t).value.0)|
    ensures t == PrintUnit(ReadUnit(t).value.0) + t[ReadUnit(t).value.1..]
  {
    if t[0] != BACKSLASH {
      FirstIsEncode(t);
      assert IsPlain(First(t).value.0);
    }
  }

  lemma {:induction false} ReadUnitComplete(u: Unit, rest: seq<byte>)
    requires ValidUnit(u)
    ensures PrintUnit(u)[0] != QUOTE
    ensures ReadUnit(PrintUnit(u) + rest) == Some((u, |PrintUnit(u)|))
  {
    if u.Raw? {
      FirstOfEncode(u.v, rest);
      assert PrintUnit(u)[0] != QUOTE && PrintUnit(u)[0] != BACKSLASH && PrintUnit(u)[0] >= 0x20;
    }
  }

  // The reader accepts only string bodies of the grammar ...
  lemma {:induction false} ScanSound(t: seq<byte>)
    requires ScanBody(t).Some?
    ensures ValidUnits(ScanBody(t).value.0)
    ensures t == PrintUnits(ScanBody(t).value.0) + ([QUOTE] + ScanBody(t).value.1)
    decreases |t|
  {
    if t[0] != QUOTE {
      var (u, n) := ReadUnit(t).value;
      ReadUnitSound(t);
      ScanSound(t[n..]);
      var (us, rest) := ScanBody(t[n..]).value;
      assert ([u] + us)[1..] == us;
      Associative(PrintUnit(u), PrintUnits(us), [QUOTE] + rest);
    }
  }

  // ... and all of them, stopping exactly behind the closing quote.
  lemma {:induction false} ScanComplete(us: seq<Unit>, rest: seq<byte>)
    requires ValidUnits(us)
    ensures ScanBody(PrintUnits(us) + ([QUOTE] + rest)) == Some((us, rest))
  {
    var t := PrintUnits(us) + ([QUOTE] + rest);
    if us == [] {
      assert t == [QUOTE] + rest;
    } else {
      var e := PrintUnit(us[0]);
      var tail := PrintUnits(us[1..]) + ([QUOTE] + rest);
      Associative(e, PrintUnits(us[1..]), [QUOTE] + rest);
      ReadUnitComplete(us[0], tail);
      assert t[|e|..] == tail;
      ScanComplete(us[1..], rest);
      assert [us[0]] + us[1..] == us;
    }
  }

  // ---------------------------------------------------------------- the decoder

  // One call of read_codepoint: the scalar value at the front of `t` and the bytes it takes.
  function ReadCodepoint(t: seq<byte>): (r: Option<(scalar, nat)>)
    requires t != []
    ensures r.Some? ==> 0 < r.value.1 <= |t|
  {
    if t[0] == BACKSLASH then
      if |t| < 2 then None
      else if IsEscape(t[1]) then Some((EscapeValue(t[1]), 2))
      else if t[1] != LOWER_U || |t| < 6 || !HexAt(t, 2) then None
      else
        var high := HexValue(t[2], t[3], t[4], t[5]);
        if 0xD800 <= high <= 0xDBFF then
          if |t| < 12 || t[6] != BACKSLASH || t[7] != LOWER_U || !HexAt(t, 8) then None
          else
            var low := HexValue(t[8], t[9], t[10], t[11]);
            if 0xDC00 <= low <= 0xDFFF then Some((PairValue(high, low), 12)) else None
        else if 0xDC00 <= high <= 0xDFFF then None
        else Some((high, 6))
    else if t[0] < 0x20 || t[0] == QUOTE then None
    else First(t)
  }

  function PairValue(high: nat, low: nat): scalar
    requires 0xD800 <= high <= 0xDBFF && 0xDC00 <= low <= 0xDFFF
  {
    0x10000 + (high - 0xD800) * 1024 + low - 0xDC00
  }

  // All scalar values of an escaped slice, None when any of it is invalid.
  function DecodeAll(t: seq<byte>): Option<seq<scalar>>
    decreases |t|
  {
    if t == [] then Some([])
    else match ReadCodepoint(t)
      case None => None
      case Some((v, n)) => Prefixed([v], DecodeAll(t[n..]))
  }

  function Prefixed<T>(front: seq<T>, back: Option<seq<T>>): Option<seq<T>> {
    match back
    case None => None
    case Some(vs) => Some(front + vs)
  }

  // The UTF-8 text an escaped slice stands for.
  function Decoded(t: seq<byte>): Option<seq<byte>> {
    match DecodeAll(t)
    case None => None
    case Some(vs) => Some(EncodeAll(vs))
  }

  // What the units of a literal stand for, read off the grammar.
  function UnitsValue(us: seq<Unit>): Option<seq<scalar>>
    requires ValidUnits(us)
    decreases |us|
  {
    if us == [] then Some([])
    else match us[0]
      case Raw(v) => Prefixed([v], UnitsValue(us[1..]))
      case Esc(c) => Prefixed([EscapeValue(c)], UnitsValue(us[1..]))
      case Hex(a, b, c, d) =>
        var high := HexValue(a, b, c, d);
        if IsLowSurrogate(us[0]) then None
        else if !IsHighSurrogate(us[0]) then Prefixed([high], UnitsValue(us[1..]))
        else if |us| == 1 || !IsLowSurrogate(us[1]) then None
        else
          var low := HexValue(us[1].a, us[1].b, us[1].c, us[1].d);
          Prefixed([PairValue(high, low)], UnitsValue(us[2..]))
  }

  lemma PairedAfterOther(us: seq<Unit>)
    requires us != [] && !IsHighSurrogate(us[0])
    ensures Paired(us) <==> !IsLowSurrogate(us[0]) && Paired(us[1..])
  {
    var tail := us[1..];
    assert forall i {:trigger us[i]} :: 1 <= i < |us| ==> tail[i - 1] == us[i];
    assert forall i {:trigger tail[i]} :: 0 <= i < |tail| ==> us[i + 1] == tail[i];
  }

  lemma PairedAfterPair(us: seq<Unit>)
    requires |us| > 1 && IsHighSurrogate(us[0]) && IsLowSurrogate(us[1])
    ensures Paired(us) <==> Paired(us[2..])
  {
    var tail := us[2..];
    assert !IsLowSurrogate(us[0]) && !IsHighSurrogate(us[1]);
    assert forall i {:trigger us[i]} :: 2 <= i < |us| ==> tail[i - 2] == us[i];
    assert forall i {:trigger tail[i]} :: 0 <= i < |tail| ==> us[i + 2] == tail[i];
  }

  // Exactly the literals without a lone surrogate escape have a value.
  lemma {:induction false} ValueIffPaired(us: seq<Unit>)
    requires ValidUnits(us)
    ensures UnitsValue(us).Some? <==> Paired(us)
    decreases |us|
  {
    if us == [] {
    } else if !IsHighSurrogate(us[0]) {
      PairedAfterOther(us);
      ValueIffPaired(us[1..]);
    } else if |us| > 1 && IsLowSurrogate(us[1]) {
      PairedAfterPair(us);
      ValueIffPaired(us[2..]);
    }
  }

  // The first unit of a printed literal is what the decoder sees first.
  lemma {:induction false} CodepointOfUnit(u: Unit, rest: seq<byte>)
    requires ValidUnit(u)
    ensures var r := ReadCodepoint(PrintUnit(u) + rest);
      match u
      case Raw(v) => r == Some((v, |PrintUnit(u)|))
      case Esc(c) => r == Some((EscapeValue(c), 2))
      case Hex(a, b, c, d) =>
        && (IsLowSurrogate(u) ==> r == None)
        && (!IsLowSurrogate(u) && !IsHighSurrogate(u) ==> r == Some((HexValue(a, b, c, d), 6)))
  {
    if u.Raw? {
      FirstOfEncode(u.v, rest);
      assert PrintUnit(u)[0] != QUOTE && PrintUnit(u)[0] != BACKSLASH && PrintUnit(u)[0] >= 0x20;
    }
  }

  lemma {:induction false} CodepointOfHigh(u: Unit, next: seq<Unit>)
    requires ValidUnit(u) && IsHighSurrogate(u) && ValidUnits(next)
    ensures var r := ReadCodepoint(PrintUnit(u) + PrintUnits(next));
      if next == [] || !IsLowSurrogate(next[0]) then r == None
      else r == Some((PairValue(HexValue(u.a, u.b, u.c, u.d),
                                HexValue(next[0].a, next[0].b, next[0].c, next[0].d)), 12))
  {
    var t := PrintUnit(u) + PrintUnits(next);
    if next != [] {
      var p := PrintUnit(next[0]);
      assert forall i :: 0 <= i < |p| ==> t[6 + i] == p[i];
      if next[0].Raw? {
        ReadUnitComplete(next[0], []);
        assert p[0] != BACKSLASH;
      }
    }
  }

  // The decoder, run on the text of a literal, gives the value the grammar gives it.
  lemma HexLength(u: Unit)
    requires u.Hex?
    ensures |PrintUnit(u)| == 6
  {
  }

  lemma BehindTwo(p: seq<byte>, q: seq<byte>, rest: seq<byte>)
    ensures (p + (q + rest))[|p| + |q|..] == rest
  {
  }

  lemma {:induction false} DecodePrinted(us: seq<Unit>)
    requires ValidUnits(us)
    ensures DecodeAll(PrintUnits(us)) == UnitsValue(us)
    decreases |us|
  {
    if us != [] {
      hide PrintUnit;
      var p := PrintUnit(us[0]);
      var t := PrintUnits(us);
      assert t == p + PrintUnits(us[1..]);
      assert t[|p|..] == PrintUnits(us[1..]);
      DecodePrinted(us[1..]);
      CodepointOfUnit(us[0], PrintUnits(us[1..]));
      if IsHighSurrogate(us[0]) {
        CodepointOfHigh(us[0], us[1..]);
        if |us| > 1 && IsLowSurrogate(us[1]) {
          var q := PrintUnit(us[1]);
          assert us[1..][1..] == us[2..];
          assert PrintUnits(us[1..]) == q + PrintUnits(us[2..]);
          HexLength(us[0]);
          HexLength(us[1]);
          BehindTwo(p, q, PrintUnits(us[2..]));
          DecodePrinted(us[2..]);
        }
      }
    }
  }

  lemma PrintFirst(u: Unit, us: seq<Unit>)
    ensures PrintUnits([u] + us) == PrintUnit(u) + PrintUnits(us)
  {
    assert ([u] + us)[1..] == us;
  }

  lemma {:induction false} UnitsConcat(a: seq<Unit>, b: seq<Unit>)
    ensures PrintUnits(a + b) == PrintUnits(a) + PrintUnits(b)
    ensures ValidUnits(a) && ValidUnits(b) ==> ValidUnits(a + b)
  {
    hide PrintUnit;
    if a == [] {
      assert a + b == b;
    } else {
      UnitsConcat(a[1..], b);
      assert (a + b)[1..] == a[1..] + b;
      Associative(PrintUnit(a[0]), PrintUnits(a[1..]), PrintUnits(b));
    }
  }

  // One scalar value is the text of one unit, or of two.
  lemma CodepointIsPrinted(t: seq<byte>) returns (us: seq<Unit>)
    requires t != [] && ReadCodepoint(t).Some?
    ensures var n := ReadCodepoint(t).value.1; ValidUnits(us) && t == PrintUnits(us) + t[n..]
  {
    var n := ReadCodepoint(t).value.1;
    var u := ReadUnit(t).value.0;
    ReadUnitSound(t);
    assert [u][1..] == [];
    if n == 12 && t[0] == BACKSLASH {
      PairIsPrinted(t, u);
      us := [u, Hex(t[8], t[9], t[10], t[11])];
    } else {
      us := [u];
    }
  }

  lemma PairIsPrinted(t: seq<byte>, u: Unit)
    requires |t| >= 12 && t[6] == BACKSLASH && t[7] == LOWER_U && HexAt(t, 8) && t == PrintUnit(u) + t[6..]
    ensures PrintUnits([u, Hex(t[8], t[9], t[10], t[11])]) + t[12..] == t
  {
    var w := Hex(t[8], t[9], t[10], t[11]);
    PrintFirst(u, [w]);
    PrintFirst(w, []);
    assert [u] + [w] == [u, w] && [w] + [] == [w];
    assert t[6..] == PrintUnit(w) + t[12..];
    hide PrintUnit;
  }

  // Whatever the decoder accepts is the text of some literal.
  lemma {:induction false} DecodableIsPrinted(t: seq<byte>) returns (us: seq<Unit>)
    requires DecodeAll(t).Some?
    ensures ValidUnits(us) && PrintUnits(us) == t
    decreases |t|
  {
    if t == [] {
      us := [];
    } else {
      hide PrintUnit, PrintUnits, ReadCodepoint, ValidUnits;
      var tail := DecodableIsPrinted(t[ReadCodepoint(t).value.1..]);
      var first := CodepointIsPrinted(t);
      us := first + tail;
      UnitsConcat(first, tail);
    }
  }

  // The decoder accepts a slice exactly when the reader accepts it between quotes, whole, and it
  // has no lone surrogate escape.
  lemma DecodableIffReadablePaired(t: seq<byte>)
    ensures DecodeAll(t).Some?
       <==> ScanBody(t + [QUOTE]).Some? && ScanBody(t + [QUOTE]).value.1 == [] && Paired(ScanBody(t + [QUOTE]).value.0)
  {
    if DecodeAll(t).Some? {
      var us := DecodableIsPrinted(t);
      assert t + [QUOTE] == PrintUnits(us) + ([QUOTE] + []);
      ScanComplete(us, []);
      DecodePrinted(us);
      ValueIffPaired(us);
    }
    if ScanBody(t + [QUOTE]).Some? && ScanBody(t + [QUOTE]).value.1 == [] {
      var us := ScanBody(t + [QUOTE]).value.0;
      ScanSound(t + [QUOTE]);
      assert PrintUnits(us) == (PrintUnits(us) + ([QUOTE] + []))[..|t|] == t;
      DecodePrinted(us);
      ValueIffPaired(us);
    }
  }

  // Decoding never lengthens a slice, so a buffer of the slice's length is enough.
  lemma {:induction false} DecodedNeverLonger(t: seq<byte>)
    requires DecodeAll(t).Some?
    ensures |EncodeAll(DecodeAll(t).value)| <= |t|
    decreases |t|
  {
    if t != [] {
      var (v, n) := ReadCodepoint(t).value;
      CodepointFits(t);
      DecodedNeverLonger(t[n..]);
      var tail := DecodeAll(t[n..]).value;
      assert ([v] + tail)[1..] == tail;
    }
  }

  lemma {:induction false} CodepointFits(t: seq<byte>)
    requires t != [] && ReadCodepoint(t).Some?
    ensures |Encode(ReadCodepoint(t).value.0)| <= ReadCodepoint(t).value.1
  {
    if t[0] != BACKSLASH {
      FirstIsEncode(t);
    }
  }

  // Valid UTF-8 without quotes, backslashes and control characters decodes to itself.
  lemma {:induction false} DecodeIsIdentityOnPlain(vs: seq<scalar>)
    requires forall i :: 0 <= i < |vs| ==> IsPlain(vs[i])
    ensures DecodeAll(EncodeAll(vs)) == Some(vs)
    ensures Decoded(EncodeAll(vs)) == Some(EncodeAll(vs))
  {
    hide Encode, ReadCodepoint;
    if vs != [] {
      var e := Encode(vs[0]);
      CodepointOfUnit(Raw(vs[0]), EncodeAll(vs[1..]));
      assert EncodeAll(vs)[|e|..] == EncodeAll(vs[1..]);
      DecodeIsIdentityOnPlain(vs[1..]);
      assert [vs[0]] + vs[1..] == vs;
    }
  }
}
