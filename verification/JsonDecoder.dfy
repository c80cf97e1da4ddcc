/** The loops of src/app/json_string.c, proved against the functions of JsonString. */
module JsonDecoder {
  import opened Common
  import opened Utf8
  import opened JsonString

  // A `string_t`: a null pointer, or the bytes of a slice.
  datatype Slice = Null | Slice(bytes: seq<byte>)

  function HexNumber(digits: seq<byte>): nat
    requires forall i :: 0 <= i < |digits| ==> IsHex(digits[i])
  {
    if digits == [] then 0
    else HexNumber(digits[..|digits| - 1]) * 16 + HexDigit(digits[|digits| - 1])
  }

  lemma {:induction false} HexNumberOfFour(t: seq<byte>, i: nat)
    requires i + 4 <= |t| && HexAt(t, i)
    ensures HexNumber(t[i..i + 4]) == HexValue(t[i], t[i + 1], t[i + 2], t[i + 3])
  {
    assert t[i..i + 1][..0] == [];
    assert HexNumber(t[i..i + 1]) == HexDigit(t[i]);
    assert t[i..i + 2][..1] == t[i..i + 1];
    assert HexNumber(t[i..i + 2]) == HexDigit(t[i]) * 16 + HexDigit(t[i + 1]);
    assert t[i..i + 3][..2] == t[i..i + 2] && t[i..i + 4][..3] == t[i..i + 3];
  }

  method HexQuad(t: seq<byte>, cur: nat) returns (ok: bool, value: nat, next: nat)
    requires cur <= |t|
    ensures ok <==> cur + 4 <= |t| && HexAt(t, cur)
    ensures ok ==> next == cur + 4 && value == HexValue(t[cur], t[cur + 1], t[cur + 2], t[cur + 3])
  {
    ok, value, next := false, 0, cur;
    if |t| - cur < 4 {
      return;
    }
    var i := 0;
    while i < 4
      invariant 0 <= i <= 4 && next == cur + i
      invariant forall k :: cur <= k < next ==> IsHex(t[k])
      invariant value == HexNumber(t[cur..next])
    {
      var c := t[next];
      var digit;
      if 0x30 <= c <= 0x39 {
        digit := c - 0x30;
      } else if 0x61 <= c <= 0x66 {
        digit := c - 0x61 + 10;
      } else if 0x41 <= c <= 0x46 {
        digit := c - 0x41 + 10;
      } else {
        assert !IsHex(t[cur + i]);
        return;
      }
      assert t[cur..next + 1][..i] == t[cur..next];
      value := value * 16 + digit;
      next, i := next + 1, i + 1;
    }
    assert HexAt(t, cur);
    HexNumberOfFour(t, cur);
    ok := true;
  }

  // The continuation bytes behind a lead byte, shared by the two readers' loops.
  method ReadContinuation(t: seq<byte>, cur: nat, lead: Lead) returns (ok: bool, value: nat, next: nat)
    requires cur + lead.count <= |t|
    ensures ok <==> Continue(lead.bits, t[cur..cur + lead.count]).Some?
    ensures ok ==> Continue(lead.bits, t[cur..cur + lead.count]) == Some(value) && next == cur + lead.count
  {
    ok, value, next := false, lead.bits, cur;
    var i := 0;
    while i < lead.count
      invariant 0 <= i <= lead.count && next == cur + i
      invariant Continue(lead.bits, t[cur..cur + lead.count]) == Continue(value, t[next..cur + lead.count])
    {
      var c := t[next];
      assert t[next..cur + lead.count][0] == c;
      assert t[next..cur + lead.count][1..] == t[next + 1..cur + lead.count];
      if !IsContinuation(c) {
        return;
      }
      value := value * 64 + Low6(c);
      next, i := next + 1, i + 1;
    }
    ok := true;
  }

  method ReadMultibyteAt(t: seq<byte>, cur: nat) returns (ok: bool, value: nat, next: nat)
    requires cur < |t|
    ensures ok <==> ReadMultibyte(t[cur..]).Some?
    ensures ok ==> ReadMultibyte(t[cur..]) == Some((value, next - cur)) && cur < next <= |t|
  {
    ok, value, next := false, 0, cur + 1;
    var lead := ReadLead(t[cur]);
    if lead.None? || |t| - next < lead.value.count {
      return;
    }
    assert t[cur..][1..1 + lead.value.count] == t[next..next + lead.value.count];
    ok, value, next := ReadContinuation(t, next, lead.value);
    ok := ok && lead.value.minimum <= value && IsScalar(value);
  }

  method ReadCodepointAt(t: seq<byte>, cur: nat) returns (ok: bool, value: nat, next: nat)
    requires cur < |t|
    ensures ok <==> ReadCodepoint(t[cur..]).Some?
    ensures ok ==> ReadCodepoint(t[cur..]) == Some((value, next - cur)) && cur < next <= |t|
  {
    var c := t[cur];
    ok, value, next := false, 0, cur + 1;
    if c == BACKSLASH {
      if next == |t| {
        return;
      }
      c := t[next];
      next := next + 1;
      if IsEscape(c) {
        ok, value := true, EscapeValue(c);
      } else if c == LOWER_U {
        ok, value, next := HexQuad(t, next);
        if ok && 0xD800 <= value <= 0xDBFF {
          if |t| - next < 6 || t[next] != BACKSLASH || t[next + 1] != LOWER_U {
            ok := false;
            return;
          }
          var low;
          ok, low, next := HexQuad(t, next + 2);
          ok := ok && 0xDC00 <= low <= 0xDFFF;
          value := if ok then 0x10000 + (value - 0xD800) * 1024 + low - 0xDC00 else value;
        }
        ok := ok && !(0xDC00 <= value <= 0xDFFF);
      }
    } else if c >= 0x20 && c != QUOTE {
      if c < 0x80 {
        ok, value := true, c;
      } else {
        ok, value, next := ReadMultibyteAt(t, cur);
      }
    }
  }

  // What decoding must give when `done` has been decoded already and `t[cur..]` is left.
  ghost function Remaining(t: seq<byte>, cur: nat, done: seq<scalar>): Option<seq<scalar>>
    requires cur <= |t|
  {
    Prefixed(done, DecodeAll(t[cur..]))
  }

  lemma RemainingEnds(t: seq<byte>, done: seq<scalar>)
    ensures Remaining(t, 0, []) == DecodeAll(t)
    ensures Remaining(t, |t|, done) == Some(done)
  {
    assert t[0..] == t && t[|t|..] == [] && done + [] == done;
    if DecodeAll(t).Some? {
      assert [] + DecodeAll(t).value == DecodeAll(t).value;
    }
  }

  // One read_codepoint of a decoding loop.
  method DecodeNext(t: seq<byte>, cur: nat, ghost done: seq<scalar>) returns (ok: bool, value: nat, next: nat)
    requires cur < |t|
    ensures !ok ==> Remaining(t, cur, done) == None
    ensures ok ==> IsScalar(value) && cur + |Encode(value)| <= next <= |t|
    ensures ok ==> Remaining(t, cur, done) == Remaining(t, next, done + [value])
  {
    ok, value, next := ReadCodepointAt(t, cur);
    if ok {
      CodepointFits(t[cur..]);
      assert t[cur..][next - cur..] == t[next..];
      if DecodeAll(t[next..]).Some? {
        var vs := DecodeAll(t[next..]).value;
        assert done + ([value as scalar] + vs) == done + [value] + vs;
      }
    }
  }

  lemma AppendedEqual<T>(xs: seq<T>, x: T, ys: seq<T>, y: T)
    ensures xs + [x] == ys + [y] <==> xs == ys && x == y
  {
    assert (xs + [x])[..|xs|] == xs && (ys + [y])[..|ys|] == ys;
    assert (xs + [x])[|xs|] == x && (ys + [y])[|ys|] == y;
  }

  // The loop of json_string_equal_decoded, which goes on checking after the first difference.
  method EqualTexts(s: seq<byte>, t: seq<byte>) returns (valid: bool, equal: bool)
    ensures valid <==> DecodeAll(s).Some? && DecodeAll(t).Some?
    ensures valid ==> (equal <==> DecodeAll(s) == DecodeAll(t))
  {
    var a, b := 0, 0;
    valid, equal := false, true;
    ghost var xs: seq<scalar>, ys: seq<scalar> := [], [];
    RemainingEnds(s, xs);
    RemainingEnds(t, ys);
    while a < |s| || b < |t|
      invariant 0 <= a <= |s| && 0 <= b <= |t|
      invariant DecodeAll(s) == Remaining(s, a, xs) && DecodeAll(t) == Remaining(t, b, ys)
      invariant |xs| == |ys| || (|xs| < |ys| && a == |s|) || (|ys| < |xs| && b == |t|)
      invariant equal <==> xs == ys
      decreases |s| - a + |t| - b
    {
      var hasA, hasB, x, y, ok := a < |s|, b < |t|, 0, 0, true;
      if hasA {
        ok, x, a := DecodeNext(s, a, xs);
        if !ok {
          return;
        }
        xs := xs + [x];
      }
      if hasB {
        ok, y, b := DecodeNext(t, b, ys);
        if !ok {
          return;
        }
        ys := ys + [y];
      }
      if hasA && hasB {
        AppendedEqual(xs[..|xs| - 1], x as scalar, ys[..|ys| - 1], y as scalar);
        assert xs == xs[..|xs| - 1] + [x] && ys == ys[..|ys| - 1] + [y];
      } else {
        assert |xs| != |ys|;
      }
      equal := equal && hasA == hasB && x == y;
    }
    RemainingEnds(s, xs);
    RemainingEnds(t, ys);
    valid := true;
  }

  // 1 when both slices decode to the same text, 0 when to different texts, -1 when one is invalid.
  method EqualDecoded(left: Slice, right: Slice) returns (r: int)
    ensures r == -1 || r == 0 || r == 1
    ensures r != -1 <==> left.Slice? && right.Slice? && Decoded(left.bytes).Some? && Decoded(right.bytes).Some?
    ensures r == 1 <==>
      left.Slice? && right.Slice? && Decoded(left.bytes).Some? && Decoded(left.bytes) == Decoded(right.bytes)
  {
    if left.Null? || right.Null? {
      return -1;
    }
    var valid, equal := EqualTexts(left.bytes, right.bytes);
    if !valid {
      return -1;
    }
    if Decoded(left.bytes) == Decoded(right.bytes) {
      EncodeAllInjective(DecodeAll(left.bytes).value, DecodeAll(right.bytes).value);
    }
    r := if equal then 1 else 0;
  }

  // Writes one scalar value behind the first `length` bytes.
  method WriteScalar(buffer: array<byte>, length: nat, value: scalar) returns (next: nat)
    requires length + |Encode(value)| <= buffer.Length
    modifies buffer
    ensures next == length + |Encode(value)|
    ensures buffer[..next] == old(buffer[..length]) + Encode(value)
  {
    next := length;
    if value < 0x80 {
      buffer[next] := value;
      next := next + 1;
    } else if value < 0x800 {
      buffer[next], buffer[next + 1] := 0xC0 + value / 64, 0x80 + value % 64;
      next := next + 2;
    } else if value < 0x10000 {
      buffer[next], buffer[next + 1], buffer[next + 2] :=
        0xE0 + value / 4096, 0x80 + value / 64 % 64, 0x80 + value % 64;
      next := next + 3;
    } else {
      buffer[next], buffer[next + 1] := 0xF0 + value / 262144, 0x80 + value / 4096 % 64;
      buffer[next + 2], buffer[next + 3] := 0x80 + value / 64 % 64, 0x80 + value % 64;
      next := next + 4;
    }
  }

  /** json_string_decode: 0 and a NUL-terminated buffer, -1 for invalid input, -2 when the
      allocation fails (`memory` says whether it does not). */
  method Decode(slice: Slice, memory: bool) returns (r: int, buffer: array?<byte>, length: nat)
    ensures r == -1 <==> slice.Null? || |slice.bytes| == SIZE_MAX || Decoded(slice.bytes).None?
    ensures r == -2 ==> !memory
    ensures r == 0 || r == -1 || r == -2
    ensures r != 0 ==> buffer == null
    ensures r == 0 ==>
      && memory && buffer != null && fresh(buffer)
      && length <= |slice.bytes| < buffer.Length && buffer[length] == 0
      && Decoded(slice.bytes) == Some(buffer[..length])
  {
    r, buffer, length := -1, null, 0;
    if slice.Null? || |slice.bytes| == SIZE_MAX {
      return;
    }
    var valid := EqualDecoded(slice, slice);
    if valid < 0 {
      return;
    }
    if !memory {
      r := -2;
      return;
    }
    var t := slice.bytes;
    var out := new byte[|t| + 1];
    var cur := 0;
    ghost var done: seq<scalar> := [];
    RemainingEnds(t, done);
    while cur < |t|
      invariant 0 <= cur <= |t| && length <= cur
      invariant DecodeAll(t) == Remaining(t, cur, done)
      invariant out[..length] == EncodeAll(done)
    {
      var ok, value, next := DecodeNext(t, cur, done);
      assert EncodeAll([value as scalar]) == Encode(value);
      EncodeAllAppend(done, [value]);
      length := WriteScalar(out, length, value);
      done, cur := done + [value], next;
    }
    RemainingEnds(t, done);
    out[length] := 0;
    r, buffer := 0, out;
  }
}
