/** The cursor of src/app/json_parser.c: loops and recursion over one buffer. */
module JsonParser {
  import opened Common
  import opened JsonString
  import opened JsonDecoder
  import opened JsonGrammar
  import opened JsonReader
  import opened JsonFields
  import Utf8

  // None of the first `n` allocations fails.
  predicate AllSucceed(allocates: nat -> bool, n: nat) {
    forall k :: 0 <= k < n ==> allocates(k)
  }

  class Parser {
    const text: seq<byte>
    const allocates: nat -> bool // what the calls of calloc give
    var cur: nat
    var calls: nat
    var error: int

    // The error is -1 as long as every allocation has succeeded, and -2 after one has failed.
    ghost predicate Valid()
      reads this
    {
      cur <= |text| && error == ErrorAfter(calls)
    }

    function ErrorAfter(n: nat): int {
      if AllSucceed(allocates, n) then -1 else -2
    }

    ghost function Rest(): seq<byte>
      requires Valid()
      reads this
    {
      text[cur..]
    }

    constructor (text: seq<byte>, allocates: nat -> bool)
      ensures Valid() && this.text == text && this.allocates == allocates && Rest() == text
      ensures cur == 0 && calls == 0 && error == -1
    {
      this.text, this.allocates := text, allocates;
      cur, calls, error := 0, 0, -1;
    }

    // calloc of a key list entry
    method Allocate() returns (ok: bool)
      requires Valid() && error == -1
      modifies `calls, `error
      ensures Valid() && ok == (error == -1) && calls == old(calls) + 1
    {
      ok := allocates(calls);
      calls := calls + 1;
      if !ok {
        error := -2;
      }
    }

    // skip_whitespace from any position.
    method SkipWhitespace(start: nat) returns (next: nat)
      requires start <= |text|
      ensures start <= next <= |text|
      ensures text[next..] == AfterSpace(text[start..])
    {
      next := start;
      while next < |text| && IsSpace(text[next])
        invariant start <= next <= |text|
        invariant AfterSpace(text[start..]) == AfterSpace(text[next..])
      {
        assert text[next..][1..] == text[next + 1..];
        next := next + 1;
      }
    }

    method Consume(c: byte) returns (ok: bool)
      requires Valid()
      modifies `cur
      ensures Valid() && cur >= old(cur)
      ensures ok <==> Starts(c, AfterSpace(old(Rest())))
      ensures Rest() == if ok then AfterSpace(old(Rest()))[1..] else AfterSpace(old(Rest()))
    {
      cur := SkipWhitespace(cur);
      ok := cur < |text| && text[cur] == c;
      if ok {
        cur := cur + 1;
      }
    }

    // One round of parse_json_str's loop, for a byte other than the closing quote.
    method ReadUnitAt(start: nat) returns (ok: bool, next: nat)
      requires start < |text| && text[start] != QUOTE
      ensures ok <==> ReadUnit(text[start..]).Some?
      ensures ok ==> start < next <= |text| && next - start == ReadUnit(text[start..]).value.1
    {
      var c := text[start];
      ok, next := false, start + 1;
      if c < 0x20 {
        return;
      }
      if c == BACKSLASH {
        if next == |text| {
          return;
        }
        c := text[next];
        next := next + 1;
        if c == LOWER_U {
          if |text| - next < 4 {
            return;
          }
          var i := 0;
          while i < 4
            invariant 0 <= i <= 4
            invariant forall k :: next <= k < next + i ==> IsHex(text[k])
          {
            if !IsHex(text[next + i]) {
              assert !HexAt(text[start..], 2);
              return;
            }
            i := i + 1;
          }
          next := next + 4;
        } else if !IsEscape(c) {
          return;
        }
        ok := true;
      } else if c >= 0x80 {
        var value;
        ok, value, next := ReadMultibyteAt(text, start);
      } else {
        ok := true;
      }
    }

    // parse_json_str: the contents between the quotes and the position behind the closing one.
    method ParseJsonStr(start: nat) returns (ok: bool, next: nat, slice: seq<byte>)
      requires start <= |text|
      ensures ok <==> Starts(QUOTE, text[start..]) && ScanBody(text[start + 1..]).Some?
      ensures ok ==> start < next <= |text|
      ensures ok ==> ScanBody(text[start + 1..]) == Some((ScanBody(text[start + 1..]).value.0, text[next..]))
      ensures ok ==> slice == PrintUnits(ScanBody(text[start + 1..]).value.0)
    {
      hide ReadUnit, PrintUnits, ScanBody, ScanEnd;
      ok, next, slice := false, start, [];
      if start >= |text| || text[start] != QUOTE {
        return;
      }
      EndIfBody(text[start + 1..]);
      next := start + 1;
      while next < |text|
        invariant start < next <= |text|
        invariant ScanEnd(text[start + 1..]) == ScanEnd(text[next..])
      {
        if text[next] == QUOTE {
          ScannedSlice(text, start + 1, next);
          ok, slice, next := true, text[start + 1..next], next + 1;
          return;
        }
        ghost var before := next;
        ScanOneUnit(text[next..]);
        var valid;
        valid, next := ReadUnitAt(next);
        if !valid {
          return;
        }
        assert text[before..][next - before..] == text[next..];
      }
      ScanNothing(text[next..]);
    }

    method ReadString() returns (ok: bool, slice: seq<byte>)
      requires Valid()
      modifies `cur
      ensures Valid() && cur >= old(cur) && (if ok then cur > old(cur) else cur == old(cur))
      ensures ok <==> ReadText(old(Rest())).Some?
      ensures ok ==> ReadText(old(Rest())).value.rest == Rest() && slice == PrintUnits(ReadText(old(Rest())).value.node)
    {
      var start := SkipWhitespace(cur);
      var next;
      ok, next, slice := ParseJsonStr(start);
      if start < |text| {
        assert text[start..][1..] == text[start + 1..];
      }
      if ok {
        cur := next;
      }
    }

    method SkipDigits()
      requires Valid()
      modifies `cur
      ensures Valid() && cur == old(cur) + |Span(old(Rest()), IsDigit)|
    {
      while cur < |text| && IsDigit(text[cur])
        invariant old(cur) <= cur <= |text|
        invariant |Span(old(Rest()), IsDigit)| == cur - old(cur) + |Span(Rest(), IsDigit)|
      {
        assert Rest()[1..] == text[cur + 1..];
        cur := cur + 1;
      }
    }

    method ReadWholeDigits() returns (ok: bool)
      requires Valid()
      modifies `cur
      ensures Valid() && cur >= old(cur)
      ensures ok <==> ReadWhole(old(Rest())).Some?
      ensures ok ==> ReadWhole(old(Rest())).value.rest == Rest()
    {
      if cur == |text| {
        return false;
      }
      if text[cur] == ZERO {
        cur := cur + 1;
      } else {
        if !IsDigit(text[cur]) {
          return false;
        }
        SkipDigits();
      }
      ok := true;
    }

    method ReadFractionDigits() returns (ok: bool)
      requires Valid()
      modifies `cur
      ensures Valid() && cur >= old(cur)
      ensures ok <==> ReadFraction(old(Rest())).Some?
      ensures ok ==> ReadFraction(old(Rest())).value.rest == Rest()
    {
      ok := true;
      if cur < |text| && text[cur] == DOT {
        cur := cur + 1;
        assert old(Rest())[1..] == Rest();
        var start := cur;
        SkipDigits();
        ok := start != cur;
      }
    }

    method ReadExponentDigits() returns (ok: bool)
      requires Valid()
      modifies `cur
      ensures Valid() && cur >= old(cur)
      ensures ok <==> ReadExponent(old(Rest())).Some?
      ensures ok ==> ReadExponent(old(Rest())).value.rest == Rest()
    {
      hide ReadExponent, Span;
      ExponentByParts(Rest());
      ok := true;
      if cur < |text| && IsExponentMark(text[cur]) {
        cur := cur + 1;
        if cur < |text| && (text[cur] == PLUS || text[cur] == MINUS) {
          cur := cur + 1;
        }
        assert old(Rest())[cur - old(cur)..] == Rest();
        var start := cur;
        SkipDigits();
        ok := start != cur;
      }
    }

    method ReadNumber() returns (ok: bool)
      requires Valid()
      modifies `cur
      ensures Valid() && cur >= old(cur)
      ensures ok <==> ReadNumeral(old(Rest())).Some?
      ensures ok ==> ReadNumeral(old(Rest())).value.rest == Rest()
    {
      if cur < |text| && text[cur] == MINUS {
        cur := cur + 1;
        assert old(Rest())[1..] == Rest();
      }
      ok := ReadWholeDigits();
      if ok {
        ok := ReadFractionDigits();
      }
      if ok {
        ok := ReadExponentDigits();
      }
    }

    // read_positive_integer: digits without a leading zero whose value fits in an `int`.
    method ReadPositiveInteger() returns (ok: bool, value: nat)
      requires Valid()
      modifies `cur
      ensures Valid() && cur >= old(cur)
      ensures var u := AfterSpace(old(Rest())); var digits := Span(u, IsDigit);
        && (ok <==> digits != [] && digits[0] != ZERO && Decimal(digits) <= INT_MAX)
        && (ok ==> value == Decimal(digits) && Rest() == u[|digits|..])
        && (!ok ==> Rest() == old(Rest()))
    {
      hide Decimal;
      var start := SkipWhitespace(cur);
      ok, value := false, 0;
      if start == |text| || text[start] == ZERO || !IsDigit(text[start]) {
        return;
      }
      var next;
      ok, value, next := ReadDigits(text, start);
      if ok {
        cur := next;
      }
    }

    // The loop over the three literals.
    method ReadLiteral() returns (ok: bool)
      requires Valid()
      modifies `cur
      ensures Valid() && cur >= old(cur)
      ensures ok <==> ReadWord(old(Rest())).Some?
      ensures Rest() == if ok then ReadWord(old(Rest())).value.rest else old(Rest())
    {
      var literals: seq<seq<byte>> := [PrintWord(Word.True), PrintWord(Word.False), PrintWord(Word.Null)];
      var i := 0;
      while i < |literals|
        invariant 0 <= i <= 3 && cur == old(cur)
        invariant forall k :: 0 <= k < i ==> !(literals[k] <= Rest())
      {
        var len := |literals[i]|;
        if |text| - cur >= len && text[cur..cur + len] == literals[i] {
          cur := cur + len;
          assert forall k :: 0 <= k < i ==> !(literals[k] <= old(Rest()));
          assert literals[i] <= old(Rest());
          return true;
        }
        assert !(literals[i] <= Rest());
        i := i + 1;
      }
      assert !(literals[0] <= Rest()) && !(literals[1] <= Rest()) && !(literals[2] <= Rest());
      ok := false;
    }

    method ReadAny(depth: nat) returns (ok: bool)
      requires Valid() && error == -1
      modifies this
      ensures Valid() && cur >= old(cur) && calls - old(calls) <= cur - old(cur) && (ok ==> error == -1)
      ensures error == -1 ==> (ok <==> ReadValue(old(Rest()), depth).Some?)
      ensures ok ==> ReadValue(old(Rest()), depth).value.rest == Rest()
      decreases |text| - cur, 2
    {
      cur := SkipWhitespace(cur);
      SkippedSpace(old(Rest()), depth, [], NoContext);
      if depth > MAX_JSON_DEPTH || cur == |text| {
        return false;
      }
      if text[cur] == QUOTE {
        TextIsValue(old(Rest()), depth);
        var slice;
        ok, slice := ReadString();
      } else if text[cur] == LBRACE {
        var context;
        ok, context := ReadFields(depth, NoContext);
        NoCallback(AfterSpace(old(Rest())), depth);
      } else if text[cur] == LBRACKET {
        ok := ReadElements(depth);
      } else {
        ok := ReadLiteral();
        if !ok {
          ok := ReadNumber();
        }
      }
    }

    // The array branch of read_value.
    method ReadElements(depth: nat) returns (ok: bool)
      requires Valid() && error == -1 && Starts(LBRACKET, Rest())
      modifies this
      ensures Valid() && cur >= old(cur) && calls - old(calls) <= cur - old(cur) && (ok ==> error == -1)
      ensures error == -1 ==> (ok <==> ReadArray(old(Rest()), depth).Some?)
      ensures ok ==> ReadArray(old(Rest()), depth).value.rest == Rest()
      decreases |text| - cur, 0
    {
      ghost var t := Rest();
      cur := cur + 1;
      assert t[1..] == Rest();
      ok := Consume(RBRACKET);
      if ok {
        return;
      }
      ItemsSkipSpace(t[1..], depth + 1);
      while true
        invariant Valid() && error == -1 && cur > old(cur) && calls - old(calls) <= cur - old(cur)
        invariant EndOf(ReadArray(t, depth)) == EndOf(ReadItems(Rest(), depth + 1))
        decreases |text| - cur
      {
        ghost var before := Rest();
        ItemsOneByOne(before, depth + 1);
        ok := ReadAny(depth + 1);
        if !ok {
          return;
        }
        ghost var after := Rest();
        ok := Consume(RBRACKET);
        if ok {
          return;
        }
        SpaceOnce(after);
        ok := Consume(COMMA);
        if !ok {
          return;
        }
      }
    }

    // read_object with the callback of `context`; callbacks other than none are used at depth 0.
    method ReadFields(depth: nat, context: Context) returns (ok: bool, result: Context)
      requires Valid() && error == -1 && (context.NoContext? || depth == 0)
      modifies this
      ensures Valid() && cur >= old(cur) && calls - old(calls) <= cur - old(cur) && (ok ==> error == -1)
      ensures error == -1 ==> (ok <==> ObjectOutcome(old(Rest()), depth, context).Some?)
      ensures ok ==> ObjectOutcome(old(Rest()), depth, context) == Some((result, Rest()))
      decreases |text| - cur, 1
    {
      hide ObjectOutcome, MembersOutcome, ErrorAfter;
      ObjectByParts(Rest(), depth, context);
      ok, result := false, context;
      if depth > MAX_JSON_DEPTH {
        return;
      }
      ok := Consume(LBRACE);
      if !ok {
        return;
      }
      ok := Consume(RBRACE);
      if ok {
        return;
      }
      ok, result := ReadFieldList(depth, context);
    }

    // The do-while loop of read_object.
    method ReadFieldList(depth: nat, context: Context) returns (ok: bool, result: Context)
      requires Valid() && error == -1 && (context.NoContext? || depth == 0) && depth <= MAX_JSON_DEPTH
      modifies this
      ensures Valid() && cur >= old(cur) && calls - old(calls) <= cur - old(cur) && (ok ==> error == -1)
      ensures error == -1 ==> (ok <==> MembersOutcome(old(Rest()), depth, [], context).Some?)
      ensures ok ==> MembersOutcome(old(Rest()), depth, [], context) == Some((result, Rest()))
      decreases |text| - cur, 5
    {
      hide MembersOutcome, FieldOutcome, ErrorAfter, AfterSpace;
      ghost var outcome := MembersOutcome(Rest(), depth, [], context);
      result := context;
      var keys: seq<seq<byte>> := [];
      while true
        invariant Valid() && error == -1 && cur >= old(cur) && calls - old(calls) <= cur - old(cur)
        invariant result.NoContext? || depth == 0
        invariant outcome == MembersOutcome(Rest(), depth, keys, result)
        decreases |text| - cur
      {
        MembersOneByOne(Rest(), depth, keys, result);
        var key;
        ok, key, result := ReadOneField(depth, keys, result);
        if !ok {
          return;
        }
        SpaceOnce(Rest());
        keys := [key] + keys;
        ok := Consume(RBRACE);
        if ok {
          return;
        }
        ok := Consume(COMMA);
        if !ok {
          return;
        }
      }
    }

    // A key that is not among `keys`, and the colon behind it.
    method ReadNewKey(keys: seq<seq<byte>>) returns (ok: bool, key: seq<byte>)
      requires Valid() && error == -1
      modifies this
      ensures Valid() && cur >= old(cur) && calls - old(calls) <= cur - old(cur)
      ensures (ok ==> error == -1 && cur > old(cur))
      ensures var k := ReadText(old(Rest()));
        && (error == -1 ==>
              (ok <==> k.Some? && PrintUnits(k.value.node) !in keys && Starts(COLON, AfterSpace(k.value.rest))))
        && (ok ==> key == PrintUnits(k.value.node) && Rest() == AfterSpace(k.value.rest)[1..])
    {
      ok, key := ReadString();
      if !ok {
        return;
      }
      var i := 0;
      while i < |keys|
        invariant 0 <= i <= |keys|
        invariant key !in keys[..i]
      {
        if keys[i] == key {
          ok := false;
          return;
        }
        i := i + 1;
      }
      assert keys[..|keys|] == keys;
      ok := Allocate();
      if ok {
        ok := Consume(COLON);
      }
    }

    // One round of read_object's loop: key, duplicate check, colon, callback.
    method ReadOneField(depth: nat, keys: seq<seq<byte>>, context: Context)
      returns (ok: bool, key: seq<byte>, result: Context)
      requires Valid() && error == -1 && (context.NoContext? || depth == 0) && depth <= MAX_JSON_DEPTH
      modifies this
      ensures Valid() && cur >= old(cur) && calls - old(calls) <= cur - old(cur)
      ensures (ok ==> error == -1 && cur > old(cur))
      ensures ok ==> (result.NoContext? <==> context.NoContext?)
      ensures error == -1 ==> (ok <==> FieldOutcome(old(Rest()), depth, keys, context).Some?)
      ensures ok ==> FieldOutcome(old(Rest()), depth, keys, context) == Some(OneField(key, result, AfterSpace(Rest())))
      decreases |text| - cur, 4
    {
      hide FieldOutcome, ReadText, StoreField;
      result := context;
      ok, key := ReadNewKey(keys);
      FieldByParts(old(Rest()), depth, keys, context);
      if ok {
        ok, result := ReadFieldValue(key, depth + 1, context);
      }
    }

    // The callback: read_challenge_field, read_auth_field, or read_value when there is none.
    method ReadFieldValue(key: seq<byte>, depth: nat, context: Context) returns (ok: bool, result: Context)
      requires Valid() && error == -1 && (context.NoContext? || depth == 1)
      modifies this
      ensures Valid() && cur >= old(cur) && calls - old(calls) <= cur - old(cur) && (ok ==> error == -1)
      ensures ok ==> (result.NoContext? <==> context.NoContext?)
      ensures var p := ReadValue(old(Rest()), depth);
        && (error == -1 ==> (ok <==> p.Some? && StoreField(context, key, p.value.node).Some?))
        && (ok ==> p.value.rest == Rest() && StoreField(context, key, p.value.node) == Some(result))
      decreases |text| - cur, 3
    {
      ok, result := false, context;
      var slice;
      match context
      case NoContext =>
        ok := ReadAny(depth);
      case ChallengeContext(challenge) =>
        var field := ChallengeField(key);
        if field.None? {
          ok := ReadAny(depth);
          return;
        }
        TextIsValue(Rest(), depth);
        ok, slice := ReadString();
        if ok {
          var stored := StoreChallenge(challenge, field.value, slice);
          ok := stored.Some?;
          result := if ok then ChallengeContext(stored.value) else context;
        }
      case AuthContext(auth) =>
        var field := MatchAuthField(key);
        if field.None? || field.value in auth.fields {
          return;
        }
        TextIsValue(Rest(), depth);
        ok, slice := ReadString();
        if ok {
          result := AuthContext(StoreAuth(auth, field.value, slice));
        }
    }
  }

  // The loop of read_auth_field over the two names it knows.
  method MatchAuthField(key: seq<byte>) returns (field: Option<Field>)
    ensures field == AuthField(key)
  {
    hide Decoded, DecodeAll;
    var names := [(KEY_USERNAME, UsernameField), (KEY_PASSWORD, PasswordField)];
    var i := 0;
    while i < |names|
      invariant 0 <= i <= |names|
      invariant forall k :: 0 <= k < i ==> Decoded(key) != Some(names[k].0)
    {
      NameDecodes(names[i].0);
      var equal := EqualDecoded(Slice(key), Slice(names[i].0));
      if equal < 0 {
        assert Decoded(key).None?;
        return None;
      }
      if equal == 1 {
        assert Decoded(key) == Some(names[i].0);
        return Some(names[i].1);
      }
      i := i + 1;
    }
    assert Decoded(key) != Some(names[0].0) && Decoded(key) != Some(names[1].0);
    return None;
  }

  lemma SpanGoesOn(u: seq<byte>, n: nat)
    requires n <= |Span(u, IsDigit)| && n < |u| && IsDigit(u[n])
    ensures n < |Span(u, IsDigit)| && Span(u, IsDigit)[n] == u[n]
  {
  }

  // The digit loop of read_positive_integer, which gives up before the value would overflow.
  method ReadDigits(t: seq<byte>, start: nat) returns (ok: bool, value: nat, next: nat)
    requires start <= |t|
    ensures var digits := Span(t[start..], IsDigit);
      && (ok <==> Decimal(digits) <= INT_MAX)
      && (ok ==> value == Decimal(digits) && next == start + |digits|)
  {
    ghost var u := t[start..];
    ghost var digits := Span(u, IsDigit);
    ok, value, next := false, 0, start;
    while next < |t| && IsDigit(t[next])
      invariant start <= next <= start + |digits|
      invariant value == Decimal(digits[..next - start]) <= INT_MAX
    {
      ghost var n := next - start;
      SpanGoesOn(u, n);
      var digit := t[next] - 0x30;
      OverflowGuard(value, digit, INT_MAX);
      DecimalNext(digits, n);
      if value > (INT_MAX - digit) / 10 {
        DecimalGrows(digits, n + 1);
        return;
      }
      value := value * 10 + digit;
      next := next + 1;
    }
    assert digits[..next - start] == digits;
    ok := true;
  }

  // The mark and the sign of an exponent.
  function ExponentHead(t: seq<byte>): (n: nat)
    ensures n <= |t|
  {
    if t == [] || !IsExponentMark(t[0]) then 0 else if |t| > 1 && (t[1] == PLUS || t[1] == MINUS) then 2 else 1
  }

  lemma ExponentByParts(t: seq<byte>)
    ensures var n := ExponentHead(t);
      var digits := Span(t[n..], IsDigit);
      if n == 0 then ReadExponent(t).Some? && ReadExponent(t).value.rest == t
      else
        && (ReadExponent(t).Some? <==> digits != [])
        && (ReadExponent(t).Some? ==> ReadExponent(t).value.rest == t[n..][|digits|..])
  {
  }

  lemma ScanOneUnit(t: seq<byte>)
    requires t != [] && t[0] != QUOTE
    ensures ScanEnd(t) == if ReadUnit(t).None? then None else ScanEnd(t[ReadUnit(t).value.1..])
  {
    hide ReadUnit;
  }

  lemma EndIfBody(t: seq<byte>)
    ensures ScanEnd(t).Some? <==> ScanBody(t).Some?
  {
  }

  lemma ScanNothing(t: seq<byte>)
    requires t == []
    ensures ScanEnd(t) == None
  {
  }

  // The contents end in front of the closing quote.
  lemma ScannedSlice(t: seq<byte>, from: nat, to: nat)
    requires from <= to < |t| && t[to] == QUOTE && ScanEnd(t[from..]) == ScanEnd(t[to..])
    ensures var scanned := ScanBody(t[from..]);
      scanned.Some? && scanned.value.1 == t[to + 1..] && PrintUnits(scanned.value.0) == t[from..to]
  {
    assert t[to..][1..] == t[to + 1..];
    assert ScanEnd(t[to..]) == Some(t[to + 1..]);
    ScanSound(t[from..]);
    var us := PrintUnits(ScanBody(t[from..]).value.0);
    assert |us| == to - from && t[from..][..|us|] == us;
  }

  ghost function ScanEnd(t: seq<byte>): Option<seq<byte>> {
    match ScanBody(t)
    case None => None
    case Some((us, rest)) => Some(rest)
  }

  ghost function EndOf<T>(p: Option<Parsed<T>>): Option<seq<byte>> {
    match p
    case None => None
    case Some(Parsed(node, rest)) => Some(rest)
  }

  lemma {:induction false} ItemsOneByOne(t: seq<byte>, depth: nat)
    ensures EndOf(ReadItems(t, depth)) ==
      match ReadValue(t, depth)
      case None => None
      case Some(p) =>
        var u := AfterSpace(p.rest);
        if Starts(RBRACKET, u) then Some(u[1..])
        else if Starts(COMMA, u) then EndOf(ReadItems(u[1..], depth))
        else None
  {
  }

  lemma {:induction false} ItemsSkipSpace(t: seq<byte>, depth: nat)
    ensures EndOf(ReadItems(AfterSpace(t), depth)) == EndOf(ReadItems(t, depth))
  {
    ItemsOneByOne(t, depth);
    ItemsOneByOne(AfterSpace(t), depth);
    SkippedSpace(t, depth, [], NoContext);
  }

  lemma {:induction false} MembersSkipSpace(t: seq<byte>, depth: nat, keys: seq<seq<byte>>, context: Context)
    ensures MembersOutcome(AfterSpace(t), depth, keys, context) == MembersOutcome(t, depth, keys, context)
  {
    MembersOneByOne(t, depth, keys, context);
    MembersOneByOne(AfterSpace(t), depth, keys, context);
    SkippedSpace(t, depth, keys, context);
  }

  // Braces, and members between them.
  lemma ObjectByParts(t: seq<byte>, depth: nat, context: Context)
    ensures ObjectOutcome(t, depth, context) ==
      var u := AfterSpace(t);
      if depth > MAX_JSON_DEPTH || !Starts(LBRACE, u) then None
      else if Starts(RBRACE, AfterSpace(u[1..])) then Some((context, AfterSpace(u[1..])[1..]))
      else MembersOutcome(AfterSpace(u[1..]), depth, [], context)
  {
    var u := AfterSpace(t);
    if Starts(LBRACE, u) {
      MembersSkipSpace(u[1..], depth, [], context);
    }
    hide StoreMembers, ReadMembers;
  }

  lemma {:induction false} NothingStored(ms: Members)
    ensures StoreMembers(NoContext, ms) == Some(NoContext)
    decreases ms
  {
    if ms.MoreMembers? {
      NothingStored(ms.rest);
    }
  }

  // Without a callback the outcome is just that of the object reader.
  lemma NoCallback(t: seq<byte>, depth: nat)
    ensures ObjectOutcome(t, depth, NoContext).Some? <==> ReadObject(t, depth).Some?
    ensures ReadObject(t, depth).Some? ==>
      ObjectOutcome(t, depth, NoContext) == Some((NoContext, ReadObject(t, depth).value.rest))
  {
    if ReadObject(t, depth).Some? && ReadObject(t, depth).value.node.Object? {
      NothingStored(ReadObject(t, depth).value.node.members);
    }
  }

  lemma {:induction false} AsciiDecodesToItself(t: seq<byte>)
    requires forall i :: 0 <= i < |t| ==> 0x20 <= t[i] < 0x80 && t[i] != QUOTE && t[i] != BACKSLASH
    ensures Decoded(t) == Some(t)
  {
    AsciiEncodesToItself(t);
    DecodeIsIdentityOnPlain(t);
  }

  lemma {:induction false} AsciiEncodesToItself(t: seq<byte>)
    requires forall i :: 0 <= i < |t| ==> t[i] < 0x80
    ensures forall i :: 0 <= i < |t| ==> Utf8.IsScalar(t[i])
    ensures Utf8.EncodeAll(t) == t
  {
    if t != [] {
      AsciiEncodesToItself(t[1..]);
    }
  }

  lemma NameDecodes(name: seq<byte>)
    requires name == KEY_USERNAME || name == KEY_PASSWORD
    ensures Decoded(name) == Some(name)
  {
    AsciiDecodesToItself(name);
  }
}
