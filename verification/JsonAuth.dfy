/** The credentials reader of src/app/json_auth.c, whose keys and limits apply to decoded text. */
module JsonAuth {
  import opened Common
  import opened JsonString
  import opened JsonDecoder
  import opened JsonGrammar
  import opened JsonReader
  import opened JsonFields
  import opened JsonParser

  const NO_CREDENTIALS: AuthFields := AuthFields(Slice.Null, Slice.Null, {})

  const BOTH_FIELDS: set<Field> := {UsernameField, PasswordField}

  datatype Credentials = Credentials(username: seq<byte>, password: seq<byte>)

  predicate IsNameByte(c: byte) {
    0x61 <= c <= 0x7A || 0x41 <= c <= 0x5A || IsDigit(c) || c == 0x5F || c == 0x2D
  }

  predicate WithinLimits(c: Credentials) {
    && 3 <= |c.username| <= 32 && All(c.username, IsNameByte)
    && 8 <= |c.password| <= 128 && 0 !in c.password
  }

  // The decoded slices, if both decode.
  function Decode2(f: AuthFields): Option<Credentials> {
    if !f.username.Slice? || !f.password.Slice? then None
    else match (Decoded(f.username.bytes), Decoded(f.password.bytes))
      case (Some(u), Some(p)) => Some(Credentials(u, p))
      case _ => None
  }

  // The raw slices, when the text is an object of both fields and nothing but space behind it.
  function RawFields(json: seq<byte>): Option<AuthFields> {
    match ObjectOutcome(json, 0, AuthContext(NO_CREDENTIALS))
    case None => None
    case Some((context, rest)) =>
      if !context.AuthContext? || context.auth.fields != BOTH_FIELDS || AfterSpace(rest) != [] then None
      else Some(context.auth)
  }

  function AuthRequest(json: seq<byte>): Option<Credentials> {
    if json == [] || |json| >= 65536 || RawFields(json).None? then None
    else match Decode2(RawFields(json).value)
      case None => None
      case Some(c) => if WithinLimits(c) then Some(c) else None
  }

  // The username is decoded first; the decoder allocates for a slice that is valid.
  predicate DecoderFails(f: AuthFields, memory: (bool, bool))
    requires f.username.Slice? && f.password.Slice?
  {
    Decoded(f.username.bytes).Some? && (!memory.0 || (Decoded(f.password.bytes).Some? && !memory.1))
  }

  // ---------------------------------------------------------------- the code

  method ValidUsername(name: seq<byte>) returns (ok: bool)
    ensures ok <==> All(name, IsNameByte)
  {
    var i := 0;
    while i < |name|
      invariant 0 <= i <= |name| && forall k :: 0 <= k < i ==> IsNameByte(name[k])
    {
      if !IsNameByte(name[i]) {
        return false;
      }
      i := i + 1;
    }
    ok := true;
  }

  // A field marked as seen has a slice, and no slice is longer than `n`.
  predicate FieldsFilled(f: AuthFields, n: nat) {
    && (UsernameField in f.fields ==> f.username.Slice?) && (f.username.Slice? ==> |f.username.bytes| <= n)
    && (PasswordField in f.fields ==> f.password.Slice?) && (f.password.Slice? ==> |f.password.bytes| <= n)
  }

  function ValueSlice(m: Member): seq<byte>
    requires m.item.value.Text?
  {
    PrintUnits(m.item.value.units)
  }

  predicate SlicesFit(ms: Members, n: nat) {
    && (ms.member.item.value.Text? ==> |ValueSlice(ms.member)| <= n)
    && (ms.MoreMembers? ==> SlicesFit(ms.rest, n))
  }

  lemma {:induction false} SlicesFitText(ms: Members, k: seq<byte>, n: nat)
    requires |PrintMembers(ms, k)| <= n
    ensures SlicesFit(ms, n)
  {
    var m := ms.member;
    var tail := if ms.LastMember? then [RBRACE] + k else [COMMA] + PrintMembers(ms.rest, k);
    var item := PrintItem(m.item, tail);
    assert |PrintMembers(ms, k)| == |PrintMember(m, tail)| >= |item|;
    PrinterKeeps(m.item.value, m.item.after + tail);
    if ms.MoreMembers? {
      SlicesFitText(ms.rest, k, n);
    }
  }

  lemma {:induction false} PrinterKeeps(v: Value, k: seq<byte>)
    ensures |Print(v, k)| >= |k|
    ensures v.Text? ==> |Print(v, k)| >= |PrintUnits(v.units)|
    decreases v
  {
    match v
    case Array(items) => ItemsKeep(items, k);
    case Object(ms) => MembersKeep(ms, k);
    case _ =>
  }

  lemma {:induction false} ItemsKeep(items: Items, k: seq<byte>)
    ensures |PrintItems(items, k)| >= |k|
    decreases items
  {
    match items
    case LastItem(item) => PrinterKeeps(item.value, item.after + ([RBRACKET] + k));
    case MoreItems(item, rest) =>
      ItemsKeep(rest, k);
      PrinterKeeps(item.value, item.after + ([COMMA] + PrintItems(rest, k)));
  }

  lemma {:induction false} MembersKeep(ms: Members, k: seq<byte>)
    ensures |PrintMembers(ms, k)| >= |k|
    decreases ms
  {
    var m := ms.member;
    var tail := if ms.LastMember? then [RBRACE] + k else [COMMA] + PrintMembers(ms.rest, k);
    if ms.MoreMembers? {
      MembersKeep(ms.rest, k);
    }
    PrinterKeeps(m.item.value, m.item.after + tail);
    assert |PrintItem(m.item, tail)| >= |tail|;
    assert |PrintMember(m, tail)| >= |PrintItem(m.item, tail)|;
    assert PrintMembers(ms, k) == PrintMember(m, tail);
  }

  lemma {:induction false} SeenFieldsAreFilled(f: AuthFields, ms: Members, n: nat)
    requires FieldsFilled(f, n) && SlicesFit(ms, n) && StoreMembers(AuthContext(f), ms).Some?
    ensures StoreMembers(AuthContext(f), ms).value.AuthContext?
    ensures FieldsFilled(StoreMembers(AuthContext(f), ms).value.auth, n)
    decreases ms
  {
    if ms.MoreMembers? {
      SeenFieldsAreFilled(StoreField(AuthContext(f), RawKey(ms.member), ms.member.item.value).value.auth, ms.rest, n);
    }
  }

  // What the callback leaves behind after any object of the text.
  lemma OutcomeIsFilled(json: seq<byte>)
    requires ObjectOutcome(json, 0, AuthContext(NO_CREDENTIALS)).Some?
    ensures var context := ObjectOutcome(json, 0, AuthContext(NO_CREDENTIALS)).value.0;
      context.AuthContext? && FieldsFilled(context.auth, |json|)
  {
    var p := ReadObject(json, 0).value;
    if p.node.Object? {
      ObjectSound(json, 0, p.node, p.rest);
      SlicesFitText(p.node.members, p.rest, |json|);
      SeenFieldsAreFilled(NO_CREDENTIALS, p.node.members, |json|);
    }
  }

  // The outer object read with read_auth_field, both fields seen and nothing but space behind it.
  method ReadCredentialFields(json: seq<byte>, allocates: nat -> bool)
    returns (error: int, fields: Option<AuthFields>, calls: nat)
    ensures error == (if AllSucceed(allocates, calls) then -1 else -2) && calls <= |json|
    ensures error == -1 ==> fields == RawFields(json)
    ensures error == -2 ==> fields.None?
    ensures fields.Some? ==> fields.value.username.Slice? && fields.value.password.Slice?
    ensures fields.Some? ==> |fields.value.username.bytes| <= |json| && |fields.value.password.bytes| <= |json|
  {
    hide ObjectOutcome, AllSucceed, RawFields, BOTH_FIELDS, AfterSpace;
    fields := None;
    RawFieldsByParts(json);
    var parser := new Parser(json, allocates);
    var ok, context := parser.ReadFields(0, AuthContext(NO_CREDENTIALS));
    error, calls := parser.error, parser.calls;
    if !ok || context.auth.fields != BOTH_FIELDS {
      return;
    }
    var next := parser.SkipWhitespace(parser.cur);
    if next == |json| {
      fields := Some(context.auth);
    }
  }

  // The outcome of the object reader decides.
  lemma RawFieldsByParts(json: seq<byte>)
    ensures var outcome := ObjectOutcome(json, 0, AuthContext(NO_CREDENTIALS));
      match outcome
      case None => RawFields(json) == None
      case Some((context, rest)) =>
        && context.AuthContext?
        && (AfterSpace(rest) != [] || context.auth.fields != BOTH_FIELDS ==> RawFields(json) == None)
        && (AfterSpace(rest) == [] && context.auth.fields == BOTH_FIELDS ==>
              && RawFields(json) == Some(context.auth)
              && context.auth.username.Slice? && context.auth.password.Slice?
              && |context.auth.username.bytes| <= |json| && |context.auth.password.bytes| <= |json|)
  {
    hide ObjectOutcome;
    if ObjectOutcome(json, 0, AuthContext(NO_CREDENTIALS)).Some? {
      OutcomeIsFilled(json);
      assert UsernameField in BOTH_FIELDS && PasswordField in BOTH_FIELDS;
    }
  }

  /** json_to_auth_request: 0 and the credentials, -1 for invalid input, and -2 exactly when an allocation that was
      asked for fails: one of the `calls` of the key list (`allocates`), or one of the decoder's two (`memory`). */
  method JsonToAuthRequest(json: Slice, allocates: nat -> bool, memory: (bool, bool))
    returns (r: int, request: Option<Credentials>, calls: nat)
    ensures r == 0 || r == -1 || r == -2
    ensures r == 0 <==> request.Some?
    ensures r == 0 ==> json.Slice? && request == AuthRequest(json.bytes)
    ensures r == -1 ==> json.Null? || AuthRequest(json.bytes) == None
    ensures if json.Null? || |json.bytes| >= 65536 then calls == 0 else calls <= |json.bytes|
    ensures r == -2 <==>
      || !AllSucceed(allocates, calls)
      || (json.Slice? && |json.bytes| < 65536 && Undecoded(json.bytes, memory))
  {
    r, request, calls := -1, None, 0;
    if json.Null? || json.bytes == [] || |json.bytes| >= 65536 {
      NothingUndecoded(memory);
      return;
    }
    var fields;
    r, fields, calls := ReadCredentialFields(json.bytes, allocates);
    if fields.None? {
      return;
    }
    var c;
    r, c := DecodeFields(fields.value, memory);
    if r != 0 {
      return;
    }
    r := -1;
    if 3 <= |c.username| <= 32 && 8 <= |c.password| <= 128 && 0 !in c.password {
      var valid := ValidUsername(c.username);
      if valid {
        r, request := 0, Some(c);
      }
    }
  }

  // Both fields are there, and the decoder runs out of memory on them.
  predicate Undecoded(json: seq<byte>, memory: (bool, bool)) {
    && RawFields(json).Some? && RawFields(json).value.username.Slice? && RawFields(json).value.password.Slice?
    && DecoderFails(RawFields(json).value, memory)
  }

  lemma NothingUndecoded(memory: (bool, bool))
    ensures !Undecoded([], memory)
  {
  }

  // The two calls of json_string_decode.
  method DecodeFields(fields: AuthFields, memory: (bool, bool)) returns (r: int, c: Credentials)
    requires fields.username.Slice? && fields.password.Slice?
    requires |fields.username.bytes| < SIZE_MAX && |fields.password.bytes| < SIZE_MAX
    ensures r == 0 || r == -1 || r == -2
    ensures r == 0 ==> Decode2(fields) == Some(c)
    ensures r == -1 ==> Decode2(fields) == None
    ensures r == -2 <==> DecoderFails(fields, memory)
  {
    c := Credentials([], []);
    var username, usernameLength, password, passwordLength;
    r, username, usernameLength := Decode(fields.username, memory.0);
    if r == 0 {
      r, password, passwordLength := Decode(fields.password, memory.1);
      if r == 0 {
        c := Credentials(username[..usernameLength], password[..passwordLength]);
      }
    }
  }

  // ---------------------------------------------------------------- exactly two fields

  // One `username` and one `password`, in either order, compared decoded, both strings.
  predicate IsCredentialPair(ms: Members) {
    && ms.MoreMembers? && ms.rest.LastMember?
    && var (a, b) := (AuthField(RawKey(ms.member)), AuthField(RawKey(ms.rest.member)));
      && ms.member.item.value.Text? && ms.rest.member.item.value.Text?
      && ((a == Some(UsernameField) && b == Some(PasswordField))
          || (a == Some(PasswordField) && b == Some(UsernameField)))
  }

  // The raw username and password of a pair.
  function PairFields(ms: Members): AuthFields
    requires IsCredentialPair(ms)
  {
    var (first, second) := (Slice(ValueSlice(ms.member)), Slice(ValueSlice(ms.rest.member)));
    if AuthField(RawKey(ms.member)) == Some(UsernameField) then AuthFields(first, second, BOTH_FIELDS)
    else AuthFields(second, first, BOTH_FIELDS)
  }

  lemma {:induction false} NothingAfterBoth(f: AuthFields, ms: Members)
    requires UsernameField in f.fields && PasswordField in f.fields
    ensures StoreMembers(AuthContext(f), ms) == None
  {
  }

  lemma PairStored(ms: Members)
    requires IsCredentialPair(ms)
    ensures StoreMembers(AuthContext(NO_CREDENTIALS), ms) == Some(AuthContext(PairFields(ms)))
  {
    var field := AuthField(RawKey(ms.member)).value;
    assert {} + {field} == {field} && {field} + (BOTH_FIELDS - {field}) == BOTH_FIELDS;
    assert BOTH_FIELDS - {field} == {AuthField(RawKey(ms.rest.member)).value};
  }

  lemma OnlyPairsComplete(ms: Members, f: AuthFields)
    requires StoreMembers(AuthContext(NO_CREDENTIALS), ms) == Some(AuthContext(f)) && f.fields == BOTH_FIELDS
    ensures IsCredentialPair(ms)
  {
    var first := StoreField(AuthContext(NO_CREDENTIALS), RawKey(ms.member), ms.member.item.value).value.auth;
    var field := AuthField(RawKey(ms.member)).value;
    assert first.fields == {field};
    assert UsernameField in BOTH_FIELDS && PasswordField in BOTH_FIELDS;
    if ms.MoreMembers? {
      var m := ms.rest.member;
      var second := StoreField(AuthContext(first), RawKey(m), m.item.value).value.auth;
      assert second.fields == {field, AuthField(RawKey(m)).value};
      if ms.rest.MoreMembers? {
        NothingAfterBoth(second, ms.rest.rest);
      }
    }
  }

  lemma DifferentKeys(ms: Members)
    requires IsCredentialPair(ms)
    ensures DistinctKeys(ms, []) && MembersHeight(ms) == 0
  {
    assert RawKey(ms.member) != RawKey(ms.rest.member);
    assert Height(ms.member.item.value) == 0 && Height(ms.rest.member.item.value) == 0;
    assert MembersHeight(ms.rest) == 0;
  }

  // The text is space, an object with this pair, and space.
  ghost predicate IsPairText(json: seq<byte>, ms: Members) {
    && ValidMembers(ms) && IsCredentialPair(ms)
    && exists before: seq<byte>, after: seq<byte> ::
      All(before, IsSpace) && All(after, IsSpace) && json == before + Print(Object(ms), after)
  }

  lemma OutcomeOfPair(json: seq<byte>, ms: Members, before: seq<byte>, after: seq<byte>)
    requires ValidMembers(ms) && IsCredentialPair(ms) && All(before, IsSpace)
    requires json == before + Print(Object(ms), after)
    ensures ObjectOutcome(json, 0, AuthContext(NO_CREDENTIALS)) == Some((AuthContext(PairFields(ms)), after))
  {
    DifferentKeys(ms);
    ObjectComplete(before, Object(ms), after, 0);
    PairStored(ms);
  }

  lemma PairOfOutcome(json: seq<byte>, fields: AuthFields, rest: seq<byte>) returns (ms: Members)
    requires ObjectOutcome(json, 0, AuthContext(NO_CREDENTIALS)) == Some((AuthContext(fields), rest))
    requires fields.fields == BOTH_FIELDS
    ensures ValidMembers(ms) && IsCredentialPair(ms) && PairFields(ms) == fields
    ensures json == Spaces(json) + Print(Object(ms), rest)
  {
    var v := ReadObject(json, 0).value.node;
    ObjectSound(json, 0, v, rest);
    assert UsernameField in BOTH_FIELDS;
    ms := v.members;
    OnlyPairsComplete(ms, fields);
    PairStored(ms);
  }

  /** A text is accepted with credentials `c` exactly when it is shorter than 64 KiB and is an object of
      one `username` and one `password`, however their keys are escaped, whose decoded values are `c`
      and within the limits. */
  lemma AcceptsExactlyPairs(json: seq<byte>, c: Credentials)
    ensures AuthRequest(json) == Some(c) <==>
      && |json| < 65536 && WithinLimits(c)
      && exists ms: Members :: IsPairText(json, ms) && Decode2(PairFields(ms)) == Some(c)
  {
    if AuthRequest(json) == Some(c) {
      var (context, rest) := ObjectOutcome(json, 0, AuthContext(NO_CREDENTIALS)).value;
      var ms := PairOfOutcome(json, context.auth, rest);
      SpaceSplit(json);
      SpaceSplit(rest);
      assert All(rest, IsSpace) && All(Spaces(json), IsSpace) && json == Spaces(json) + Print(Object(ms), rest);
      assert IsPairText(json, ms);
    }
    if |json| < 65536 && WithinLimits(c) {
      forall ms: Members | IsPairText(json, ms) && Decode2(PairFields(ms)) == Some(c)
        ensures AuthRequest(json) == Some(c)
      {
        PairAccepted(json, ms, c);
      }
    }
  }

  // The raw slices of an accepted text are those of its pair.
  lemma PairRead(json: seq<byte>, ms: Members)
    requires IsPairText(json, ms)
    ensures RawFields(json) == Some(PairFields(ms)) && json != []
  {
    var before: seq<byte>, after: seq<byte> :|
      All(before, IsSpace) && All(after, IsSpace) && json == before + Print(Object(ms), after);
    hide ObjectOutcome, IsCredentialPair, ValidMembers, Print, PairFields, BOTH_FIELDS;
    ObjectNotEmpty(ms, after);
    OutcomeOfPair(json, ms, before, after);
    OnlySpace(after);
    PairHasBoth(ms);
  }

  lemma ObjectNotEmpty(ms: Members, rest: seq<byte>)
    ensures Print(Object(ms), rest) != []
  {
  }

  lemma OnlySpace(t: seq<byte>)
    requires All(t, IsSpace)
    ensures AfterSpace(t) == []
  {
    SpanOf(t, [], IsSpace);
    assert t + [] == t;
  }

  lemma PairHasBoth(ms: Members)
    requires IsCredentialPair(ms)
    ensures PairFields(ms).fields == BOTH_FIELDS
  {
  }

  lemma PairAccepted(json: seq<byte>, ms: Members, c: Credentials)
    requires |json| < 65536 && WithinLimits(c) && IsPairText(json, ms) && Decode2(PairFields(ms)) == Some(c)
    ensures AuthRequest(json) == Some(c)
  {
    hide IsPairText, RawFields, Decode2, PairFields, WithinLimits;
    PairRead(json, ms);
  }
}
