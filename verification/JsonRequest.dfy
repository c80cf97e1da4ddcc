/** The create-challenge request of src/app/json_request.c, and the round trip through the printer. */
module JsonRequest {
  import opened Common
  import opened Utf8
  import opened JsonString
  import opened JsonDecoder
  import opened JsonGrammar
  import opened JsonReader
  import opened JsonFields
  import opened JsonParser
  import opened JsonChallenge

  const NO_FIELDS: ChallengeFields := ChallengeFields(Slice.Null, Slice.Null, Slice.Null, Web, {})

  const ALL_FIELDS: set<Field> := {NameField, DescriptionField, FlagField, GenreField}

  // stored_character_count: the bytes that are not continuation bytes.
  function CharacterCount(s: seq<byte>): nat {
    if s == [] then 0
    else CharacterCount(s[..|s| - 1]) + (if IsContinuation(s[|s| - 1]) then 0 else 1)
  }

  method StoredCharacterCount(s: seq<byte>) returns (count: nat)
    ensures count == CharacterCount(s)
  {
    count := 0;
    var i := 0;
    while i < |s|
      invariant 0 <= i <= |s| && count == CharacterCount(s[..i])
    {
      assert s[..i + 1][..i] == s[..i];
      if !IsContinuation(s[i]) {
        count := count + 1;
      }
      i := i + 1;
    }
    assert s[..i] == s;
  }

  lemma {:induction false} CountOfConcatenation(a: seq<byte>, b: seq<byte>)
    ensures CharacterCount(a + b) == CharacterCount(a) + CharacterCount(b)
  {
    if b == [] {
      assert a + b == a;
    } else {
      assert (a + b)[..|a + b| - 1] == a + b[..|b| - 1];
      CountOfConcatenation(a, b[..|b| - 1]);
    }
  }

  lemma CountOfOne(v: scalar)
    ensures CharacterCount(Encode(v)) == 1
  {
    var e := Encode(v);
    assert !IsContinuation(e[0]) && forall i :: 1 <= i < |e| ==> IsContinuation(e[i]);
    assert CharacterCount(e[..1]) == 1 by { assert e[..1][..0] == []; }
    if |e| > 1 {
      assert CharacterCount(e[..2]) == 1 by { assert e[..2][..1] == e[..1]; }
    }
    if |e| > 2 {
      assert CharacterCount(e[..3]) == 1 by { assert e[..3][..2] == e[..2]; }
    }
    assert e[..|e|] == e;
  }

  // On valid UTF-8 the count is the number of scalar values.
  lemma {:induction false} CountIsScalars(vs: seq<scalar>)
    ensures CharacterCount(EncodeAll(vs)) == |vs|
  {
    if vs != [] {
      CountOfOne(vs[0]);
      CountIsScalars(vs[1..]);
      CountOfConcatenation(Encode(vs[0]), EncodeAll(vs[1..]));
    }
  }

  predicate WithinLimits(name: seq<byte>, description: seq<byte>, flag: seq<byte>) {
    && name != [] && CharacterCount(name) <= 255
    && flag != [] && CharacterCount(flag) <= 255
    && |description| <= 65535
  }

  // The request in a text, None when there is none.
  function CreateRequest(json: seq<byte>): Option<Request> {
    match ObjectOutcome(json, 0, ChallengeContext(NO_FIELDS))
    case None => None
    case Some((context, rest)) =>
      if !context.ChallengeContext? || AfterSpace(rest) != [] || context.challenge.fields != ALL_FIELDS then None
      else FieldsRequest(context.challenge)
  }

  function FieldsRequest(f: ChallengeFields): Option<Request> {
    if !f.name.Slice? || !f.description.Slice? || !f.flag.Slice? then None
    else if !WithinLimits(f.name.bytes, f.description.bytes, f.flag.bytes) then None
    else Some(Request(f.name.bytes, f.description.bytes, f.flag.bytes, f.genre))
  }

  predicate FieldsFilled(f: ChallengeFields) {
    && (NameField in f.fields ==> f.name.Slice?)
    && (DescriptionField in f.fields ==> f.description.Slice?)
    && (FlagField in f.fields ==> f.flag.Slice?)
  }

  // A field marked as seen has its slice, whatever was read.
  lemma {:induction false} SeenFieldsAreFilled(context: Context, ms: Members)
    requires context.ChallengeContext? && FieldsFilled(context.challenge)
    requires StoreMembers(context, ms).Some?
    ensures StoreMembers(context, ms).value.ChallengeContext? && FieldsFilled(StoreMembers(context, ms).value.challenge)
    decreases ms
  {
    if ms.MoreMembers? {
      SeenFieldsAreFilled(StoreField(context, RawKey(ms.member), ms.member.item.value).value, ms.rest);
    }
  }

  /** json_to_create_challenge_request: 0 and the request, -1 for an invalid one, and -2 exactly when one of the `calls`
      allocations of the key list that reading has asked for failed (`allocates` says which do not). */
  method JsonToCreateChallengeRequest(json: Slice, allocates: nat -> bool)
    returns (r: int, request: Option<Request>, calls: nat)
    ensures r == 0 || r == -1 || r == -2
    ensures r == 0 <==> request.Some?
    ensures r == 0 ==> json.Slice? && request == CreateRequest(json.bytes)
    ensures r == -1 ==> json.Null? || CreateRequest(json.bytes) == None
    ensures r == -2 <==> !AllSucceed(allocates, calls)
    ensures if json.Null? then calls == 0 else calls <= |json.bytes|
  {
    r, request, calls := -1, None, 0;
    if json.Null? || json.bytes == [] {
      return;
    }
    var fields;
    r, fields, calls := ReadAllFields(json.bytes, allocates);
    if fields.None? {
      return;
    }
    request := CheckFields(fields.value);
    r := if request.None? then -1 else 0;
  }

  // The object, nothing behind it, and each of its fields once.
  method ReadAllFields(json: seq<byte>, allocates: nat -> bool)
    returns (error: int, fields: Option<ChallengeFields>, calls: nat)
    ensures fields.Some? ==> fields.value.name.Slice? && fields.value.description.Slice? && fields.value.flag.Slice?
    ensures error == (if AllSucceed(allocates, calls) then -1 else -2) && calls <= |json|
    ensures fields.Some? ==> error == -1 && CreateRequest(json) == FieldsRequest(fields.value)
    ensures fields.None? && error == -1 ==> CreateRequest(json) == None
  {
    hide ObjectOutcome, FieldsRequest, AllSucceed, CreateRequest, FieldsFilled, ALL_FIELDS, AfterSpace;
    fields := None;
    RequestByParts(json);
    var parser := new Parser(json, allocates);
    var ok, context := parser.ReadFields(0, ChallengeContext(NO_FIELDS));
    error, calls := parser.error, parser.calls;
    if !ok {
      return;
    }
    var next := parser.SkipWhitespace(parser.cur);
    if next != |json| || context.challenge.fields != ALL_FIELDS {
      return;
    }
    fields := Some(context.challenge);
  }

  // The outcome of the object reader decides.
  lemma RequestByParts(json: seq<byte>)
    ensures var outcome := ObjectOutcome(json, 0, ChallengeContext(NO_FIELDS));
      match outcome
      case None => CreateRequest(json) == None
      case Some((context, rest)) =>
        && context.ChallengeContext?
        && (AfterSpace(rest) != [] || context.challenge.fields != ALL_FIELDS ==> CreateRequest(json) == None)
        && (AfterSpace(rest) == [] && context.challenge.fields == ALL_FIELDS ==>
              && CreateRequest(json) == FieldsRequest(context.challenge)
              && context.challenge.name.Slice? && context.challenge.description.Slice? && context.challenge.flag.Slice?)
  {
    hide ObjectOutcome, FieldsRequest;
    if ObjectOutcome(json, 0, ChallengeContext(NO_FIELDS)).Some? {
      OutcomeIsFilled(json);
      assert NameField in ALL_FIELDS && DescriptionField in ALL_FIELDS && FlagField in ALL_FIELDS;
    }
  }

  lemma OutcomeIsFilled(json: seq<byte>)
    requires ObjectOutcome(json, 0, ChallengeContext(NO_FIELDS)).Some?
    ensures var context := ObjectOutcome(json, 0, ChallengeContext(NO_FIELDS)).value.0;
      context.ChallengeContext? && FieldsFilled(context.challenge)
  {
    var p := ReadObject(json, 0).value;
    if p.node.Object? {
      SeenFieldsAreFilled(ChallengeContext(NO_FIELDS), p.node.members);
    }
  }

  // The limits of the fields.
  method CheckFields(f: ChallengeFields) returns (request: Option<Request>)
    requires f.name.Slice? && f.description.Slice? && f.flag.Slice?
    ensures request == FieldsRequest(f)
  {
    hide CharacterCount;
    if |f.name.bytes| == 0 || |f.flag.bytes| == 0 {
      return None;
    }
    var nameCount := StoredCharacterCount(f.name.bytes);
    var flagCount := StoredCharacterCount(f.flag.bytes);
    if nameCount > 255 || flagCount > 255 || |f.description.bytes| > 65535 {
      return None;
    }
    request := Some(Request(f.name.bytes, f.description.bytes, f.flag.bytes, f.genre));
  }

  // ---------------------------------------------------------------- the printed tree

  // A string of plain ASCII characters as units.
  function RawUnits(t: seq<byte>): seq<Unit>
    requires forall i :: 0 <= i < |t| ==> t[i] < 0x80
  {
    seq(|t|, i requires 0 <= i < |t| => Raw(t[i]))
  }

  predicate IsPlainAscii(t: seq<byte>) {
    forall i :: 0 <= i < |t| ==> t[i] < 0x80 && IsPlain(t[i])
  }

  lemma {:induction false} RawUnitsPrint(t: seq<byte>)
    requires IsPlainAscii(t)
    ensures ValidUnits(RawUnits(t)) && PrintUnits(RawUnits(t)) == t
  {
    if t != [] {
      RawUnitsPrint(t[1..]);
      assert RawUnits(t)[1..] == RawUnits(t[1..]);
      assert PrintUnit(RawUnits(t)[0]) == [t[0]];
    }
  }

  function IntNumeral(v: int): Numeral {
    Numeral(v < 0, PrintNat(if v < 0 then -v else v), None, None)
  }

  function KeyMember(key: seq<byte>, value: Value): Member
    requires IsPlainAscii(key)
  {
    Member([], RawUnits(key), [], Item([], value, []))
  }

  predicate KeysPlain(fields: seq<StringField>) {
    forall i :: 0 <= i < |fields| ==> IsPlainAscii(fields[i].key)
  }

  // The slices are the texts of these literals.
  predicate SlicesAre(fields: seq<StringField>, values: seq<seq<Unit>>) {
    && |fields| == |values|
    && forall i :: 0 <= i < |fields| ==> ValidUnits(values[i]) && fields[i].slice == PrintUnits(values[i])
  }

  function FieldMembers(fields: seq<StringField>, values: seq<seq<Unit>>): Members
    requires fields != [] && |fields| == |values| && KeysPlain(fields)
  {
    var m := KeyMember(fields[0].key, Text(values[0]));
    if |fields| == 1 then LastMember(m) else MoreMembers(m, FieldMembers(fields[1..], values[1..]))
  }

  lemma {:induction false} UnitsHaveNoNul(us: seq<Unit>)
    requires ValidUnits(us)
    ensures 0 !in PrintUnits(us) && UpToNul(PrintUnits(us)) == PrintUnits(us)
  {
    if us != [] {
      UnitsHaveNoNul(us[1..]);
      assert 0 !in PrintUnit(us[0]);
    }
  }

  lemma NothingInFront(t: seq<byte>)
    ensures [] + t == t
  {
  }

  lemma TwoInFront(a: byte, b: byte, t: seq<byte>)
    ensures [a, b] + t == [a] + ([b] + t)
  {
  }

  lemma ThreeInFront(a: byte, b: byte, c: byte, t: seq<byte>)
    ensures [a, b, c] + t == [a, b] + ([c] + t)
  {
  }

  lemma {:induction false} KeyMemberPrints(key: seq<byte>, value: Value, k: seq<byte>)
    requires IsPlainAscii(key)
    ensures PrintMember(KeyMember(key, value), k) == [QUOTE] + (key + ([QUOTE, COLON] + Print(value, k)))
  {
    var item := Item([], value, []);
    var v := Print(value, k);
    RawUnitsPrint(key);
    NothingInFront(k);
    NothingInFront(v);
    assert PrintItem(item, k) == v;
    NothingInFront([COLON] + v);
    TwoInFront(QUOTE, COLON, v);
    NothingInFront(PrintText(RawUnits(key), [COLON] + v));
  }

  lemma LastMemberPrints(m: Member)
    ensures PrintMembers(LastMember(m), []) == PrintMember(m, [RBRACE])
  {
    assert [RBRACE] + [] == [RBRACE];
  }

  lemma MoreMembersPrint(m: Member, rest: Members)
    ensures PrintMembers(MoreMembers(m, rest), []) == PrintMember(m, [COMMA] + PrintMembers(rest, []))
  {
  }

  lemma {:induction false} FieldsPrint(fields: seq<StringField>, values: seq<seq<Unit>>)
    requires fields != [] && KeysPlain(fields) && SlicesAre(fields, values)
    ensures FieldsText(fields) == [COMMA] + PrintMembers(FieldMembers(fields, values), [])
  {
    var tail := FieldsText(fields[1..]);
    var m := KeyMember(fields[0].key, Text(values[0]));
    if |fields| > 1 {
      FieldsPrint(fields[1..], values[1..]);
      MoreMembersPrint(m, FieldMembers(fields[1..], values[1..]));
    } else {
      LastMemberPrints(m);
    }
    FieldPrints(fields[0], values[0], tail);
  }

  lemma {:induction false} FieldPrints(field: StringField, us: seq<Unit>, tail: seq<byte>)
    requires IsPlainAscii(field.key) && ValidUnits(us) && field.slice == PrintUnits(us)
    ensures [COMMA, QUOTE] + (field.key + ([QUOTE, COLON, QUOTE] + (UpToNul(field.slice) + ([QUOTE] + tail))))
         == [COMMA] + PrintMember(KeyMember(field.key, Text(us)), tail)
  {
    UnitsHaveNoNul(us);
    KeyMemberPrints(field.key, Text(us), tail);
    ThreeInFront(QUOTE, COLON, QUOTE, field.slice + ([QUOTE] + tail));
    TwoInFront(COMMA, QUOTE, field.key + ([QUOTE, COLON] + PrintText(us, tail)));
  }

  function ChallengeTree(id: int, fields: seq<StringField>, values: seq<seq<Unit>>): Value
    requires fields != [] && |fields| == |values| && KeysPlain(fields)
    requires IsPlainAscii(KEY_ID)
  {
    Object(MoreMembers(KeyMember(KEY_ID, Number(IntNumeral(id))), FieldMembers(fields, values)))
  }

  lemma NumeralPrints(id: int, tail: seq<byte>)
    ensures PrintInt(id) + tail == PrintNumeral(IntNumeral(id), tail)
  {
  }

  lemma {:induction false} TreePrints(id: int, fields: seq<StringField>, values: seq<seq<Unit>>)
    requires fields != [] && KeysPlain(fields) && SlicesAre(fields, values) && IsPlainAscii(KEY_ID)
    ensures IdText(id, FieldsText(fields)) == Print(ChallengeTree(id, fields, values), [])
  {
    hide FieldsText, FieldMembers, PrintNumeral, PrintInt, KEY_ID;
    var tail := FieldsText(fields);
    FieldsPrint(fields, values);
    NumeralPrints(id, tail);
    KeyMemberPrints(KEY_ID, Number(IntNumeral(id)), tail);
    TwoInFront(LBRACE, QUOTE, KEY_ID + ([QUOTE, COLON] + (PrintInt(id) + tail)));
  }

  predicate KeysDiffer(fields: seq<StringField>, seen: seq<seq<byte>>) {
    fields != [] ==> fields[0].key !in seen && KeysDiffer(fields[1..], [fields[0].key] + seen)
  }

  lemma KeyMemberValid(key: seq<byte>, value: Value)
    requires IsPlainAscii(key) && ValidValue(value)
    ensures ValidMember(KeyMember(key, value)) && RawKey(KeyMember(key, value)) == key
  {
    RawUnitsPrint(key);
  }

  lemma {:induction false} FieldsAreValid(fields: seq<StringField>, values: seq<seq<Unit>>, seen: seq<seq<byte>>)
    requires fields != [] && KeysPlain(fields) && SlicesAre(fields, values) && KeysDiffer(fields, seen)
    ensures ValidMembers(FieldMembers(fields, values)) && DistinctKeys(FieldMembers(fields, values), seen)
    ensures MembersHeight(FieldMembers(fields, values)) == 0
  {
    KeyMemberValid(fields[0].key, Text(values[0]));
    if |fields| > 1 {
      FieldsAreValid(fields[1..], values[1..], [fields[0].key] + seen);
    }
  }

  // The callback folded over string fields.
  function StoreStrings(f: ChallengeFields, fields: seq<StringField>): Option<ChallengeFields>
    decreases |fields|
  {
    if fields == [] then Some(f)
    else
      var field := ChallengeField(fields[0].key);
      if field.None? then StoreStrings(f, fields[1..])
      else match StoreChallenge(f, field.value, fields[0].slice)
        case None => None
        case Some(next) => StoreStrings(next, fields[1..])
  }

  lemma {:induction false} MembersStoreStrings(f: ChallengeFields, fields: seq<StringField>, values: seq<seq<Unit>>)
    requires fields != [] && KeysPlain(fields) && SlicesAre(fields, values)
    ensures StoreMembers(ChallengeContext(f), FieldMembers(fields, values)) ==
      match StoreStrings(f, fields)
      case None => None
      case Some(final) => Some(ChallengeContext(final))
    decreases |fields|
  {
    var m := KeyMember(fields[0].key, Text(values[0]));
    RawUnitsPrint(fields[0].key);
    assert RawKey(m) == fields[0].key;
    var next := StoreField(ChallengeContext(f), RawKey(m), m.item.value);
    if |fields| > 1 {
      if next.Some? {
        MembersStoreStrings(next.value.challenge, fields[1..], values[1..]);
      }
    } else {
      assert fields[1..] == [];
    }
  }

  // ---------------------------------------------------------------- the round trip

  // The text fields are the texts of these literals, so the reader accepts them.
  datatype Literals = Literals(creatorId: seq<Unit>, name: seq<Unit>, description: seq<Unit>, flag: seq<Unit>)

  predicate WrittenAs(c: Challenge, l: Literals) {
    && ValidUnits(l.creatorId) && c.creatorId == PrintUnits(l.creatorId)
    && ValidUnits(l.name) && c.name == PrintUnits(l.name)
    && ValidUnits(l.description) && c.description == PrintUnits(l.description)
    && ValidUnits(l.flag) && c.flag == PrintUnits(l.flag)
  }

  function FieldValues(c: Challenge, l: Literals, includeFlag: bool): seq<seq<Unit>>
    requires IsPlainAscii(GenreBytes(c.genre))
  {
    [l.creatorId, l.name, l.description] + (if includeFlag then [l.flag] else []) + [RawUnits(GenreBytes(c.genre))]
  }

  lemma GenrePlain(g: Genre)
    ensures IsPlainAscii(GenreBytes(g)) && GenreOf(GenreBytes(g)) == g
  {
  }

  lemma ShortKeysPlain()
    ensures IsPlainAscii(KEY_ID) && IsPlainAscii(KEY_NAME) && IsPlainAscii(KEY_FLAG) && IsPlainAscii(KEY_GENRE)
  {
  }

  lemma LongKeysPlain()
    ensures IsPlainAscii(KEY_CREATOR_ID) && IsPlainAscii(KEY_DESCRIPTION)
  {
  }

  lemma FieldsPlain(c: Challenge, includeFlag: bool)
    ensures IsPlainAscii(KEY_ID) && KeysPlain(StringFields(c, includeFlag))
  {
    ShortKeysPlain();
    LongKeysPlain();
    var fs := StringFields(c, includeFlag);
    assert fs[0].key == KEY_CREATOR_ID && fs[1].key == KEY_NAME && fs[2].key == KEY_DESCRIPTION;
    assert fs[|fs| - 1].key == KEY_GENRE && (includeFlag ==> fs[3].key == KEY_FLAG);
  }

  lemma FieldsDiffer(c: Challenge, includeFlag: bool)
    ensures KeysDiffer(StringFields(c, includeFlag), [KEY_ID])
  {
    var fs := StringFields(c, includeFlag);
    var g := StringField(KEY_GENRE, GenreBytes(c.genre));
    assert |KEY_ID| == 2 && |KEY_CREATOR_ID| == 10 && |KEY_NAME| == 4 && |KEY_DESCRIPTION| == 11;
    assert |KEY_FLAG| == 4 && |KEY_GENRE| == 5;
    assert KEY_NAME[0] != KEY_FLAG[0];
    var seen := [KEY_DESCRIPTION] + ([KEY_NAME] + ([KEY_CREATOR_ID] + [KEY_ID]));
    assert fs[1..][1..][1..] == (if includeFlag then [StringField(KEY_FLAG, c.flag), g] else [g]);
    assert KeysDiffer([g], seen) && KeysDiffer([g], [KEY_FLAG] + seen) by {
      assert [g][1..] == [];
    }
    if includeFlag {
      assert [StringField(KEY_FLAG, c.flag), g][1..] == [g];
      assert KeysDiffer([StringField(KEY_FLAG, c.flag), g], seen);
    }
    assert KeysDiffer(fs[1..][1..][1..], seen);
    assert KeysDiffer(fs[1..][1..], [KEY_NAME] + ([KEY_CREATOR_ID] + [KEY_ID]));
    assert KeysDiffer(fs[1..], [KEY_CREATOR_ID] + [KEY_ID]);
  }

  // The callback ignores the creator, takes the four fields, and knows the genre again.
  lemma FieldsStored(c: Challenge, includeFlag: bool)
    ensures StoreStrings(NO_FIELDS, StringFields(c, includeFlag)) == Some(PrintedContext(c, includeFlag))
  {
    var fs := StringFields(c, includeFlag);
    var g := StringField(KEY_GENRE, GenreBytes(c.genre));
    GenrePlain(c.genre);
    KnownKeys();
    var f1 := StoreChallenge(NO_FIELDS, NameField, c.name).value;
    var f2 := StoreChallenge(f1, DescriptionField, c.description).value;
    var f3 := if includeFlag then StoreChallenge(f2, FlagField, c.flag).value else f2;
    var f4 := StoreChallenge(f3, GenreField, GenreBytes(c.genre)).value;
    assert fs[1..][1..][1..] == (if includeFlag then [StringField(KEY_FLAG, c.flag), g] else [g]);
    assert StoreStrings(f3, [g]) == Some(f4) by {
      assert [g][1..] == [];
    }
    if includeFlag {
      assert [StringField(KEY_FLAG, c.flag), g][1..] == [g];
    }
    assert StoreStrings(f2, fs[1..][1..][1..]) == Some(f4);
    assert StoreStrings(f1, fs[1..][1..]) == Some(f4);
    assert StoreStrings(NO_FIELDS, fs[1..]) == Some(f4);
    assert f4.fields == if includeFlag then ALL_FIELDS else ALL_FIELDS - {FlagField};
  }

  lemma KnownKeys()
    ensures ChallengeField(KEY_ID) == None && ChallengeField(KEY_CREATOR_ID) == None
    ensures ChallengeField(KEY_NAME) == Some(NameField) && ChallengeField(KEY_DESCRIPTION) == Some(DescriptionField)
    ensures ChallengeField(KEY_FLAG) == Some(FlagField) && ChallengeField(KEY_GENRE) == Some(GenreField)
  {
    assert |KEY_ID| == 2 && |KEY_CREATOR_ID| == 10 && |KEY_NAME| == 4 && |KEY_DESCRIPTION| == 11;
    assert |KEY_FLAG| == 4 && |KEY_GENRE| == 5;
    assert KEY_NAME[0] != KEY_FLAG[0];
  }

  // The context that the callback leaves behind after a printed challenge.
  function PrintedContext(c: Challenge, includeFlag: bool): ChallengeFields {
    ChallengeFields(Slice(c.name), Slice(c.description), if includeFlag then Slice(c.flag) else Slice.Null, c.genre,
                    if includeFlag then ALL_FIELDS else ALL_FIELDS - {FlagField})
  }

  // What the object reader and the callback make of printed fields.
  lemma FieldsOutcome(id: int, fields: seq<StringField>, values: seq<seq<Unit>>, stored: ChallengeFields)
    requires fields != [] && KeysPlain(fields) && SlicesAre(fields, values) && IsPlainAscii(KEY_ID)
    requires KeysDiffer(fields, [KEY_ID]) && StoreStrings(NO_FIELDS, fields) == Some(stored)
    ensures ObjectOutcome(IdText(id, FieldsText(fields)), 0, ChallengeContext(NO_FIELDS))
         == Some((ChallengeContext(stored), []))
  {
    hide StoreStrings, KeysDiffer, KeysPlain, IsPlainAscii, FieldsText, IdText, Print, ValidValue;
    var tree := ChallengeTree(id, fields, values);
    var text := Print(tree, []);
    TreeIsValid(id, fields, values);
    TreePrints(id, fields, values);
    NothingInFront(text);
    ObjectComplete([], tree, [], 0);
    KnownKeys();
    KeyMemberValid(KEY_ID, Number(IntNumeral(id)));
    MembersStoreStrings(NO_FIELDS, fields, values);
  }

  lemma SlicesWritten(c: Challenge, l: Literals, includeFlag: bool)
    requires WrittenAs(c, l) && IsPlainAscii(GenreBytes(c.genre))
    ensures SlicesAre(StringFields(c, includeFlag), FieldValues(c, l, includeFlag))
  {
    RawUnitsPrint(GenreBytes(c.genre));
  }

  lemma PrintedOutcome(c: Challenge, l: Literals, includeFlag: bool)
    requires WrittenAs(c, l)
    ensures ObjectOutcome(ChallengeText(c, includeFlag), 0, ChallengeContext(NO_FIELDS))
         == Some((ChallengeContext(PrintedContext(c, includeFlag)), []))
  {
    hide ObjectOutcome, StoreStrings, KeysDiffer, KeysPlain, PrintedContext, IsPlainAscii, FieldsText;
    GenrePlain(c.genre);
    SlicesWritten(c, l, includeFlag);
    var fields, values := StringFields(c, includeFlag), FieldValues(c, l, includeFlag);
    FieldsPlain(c, includeFlag);
    FieldsDiffer(c, includeFlag);
    FieldsStored(c, includeFlag);
    FieldsOutcome(c.id, fields, values, PrintedContext(c, includeFlag));
  }

  lemma TreeIsValid(id: int, fields: seq<StringField>, values: seq<seq<Unit>>)
    requires fields != [] && KeysPlain(fields) && SlicesAre(fields, values) && IsPlainAscii(KEY_ID)
    requires KeysDiffer(fields, [KEY_ID])
    ensures ValidValue(ChallengeTree(id, fields, values)) && Height(ChallengeTree(id, fields, values)) == 1
  {
    KeyMemberValid(KEY_ID, Number(IntNumeral(id)));
    FieldsAreValid(fields, values, [KEY_ID]);
    assert [KEY_ID] + [] == [KEY_ID];
    var m := KeyMember(KEY_ID, Number(IntNumeral(id)));
    assert ValidMember(m) && RawKey(m) == KEY_ID && Height(m.item.value) == 0;
    var rest := FieldMembers(fields, values);
    assert DistinctKeys(MoreMembers(m, rest), []) && MembersHeight(MoreMembers(m, rest)) == 0;
  }

  lemma ContextRequest(c: Challenge)
    requires WithinLimits(c.name, c.description, c.flag)
    ensures FieldsRequest(PrintedContext(c, true)) == Some(Request(c.name, c.description, c.flag, c.genre))
    ensures PrintedContext(c, true).fields == ALL_FIELDS && PrintedContext(c, false).fields != ALL_FIELDS
  {
    assert FlagField in ALL_FIELDS;
  }

  /** Printing a challenge and reading it back gives the same name, description, flag and genre,
      whatever its id and creator are. */
  lemma RoundTrip(c: Challenge, l: Literals)
    requires WrittenAs(c, l) && WithinLimits(c.name, c.description, c.flag)
    ensures CreateRequest(ChallengeText(c, true)) == Some(Request(c.name, c.description, c.flag, c.genre))
  {
    PrintedOutcome(c, l, true);
    ContextRequest(c);
    RequestOf(ChallengeText(c, true), PrintedContext(c, true));
  }

  /** Whether it is taken is a question of length alone: name and flag have 1 to 255 characters, the description at most
      65535 bytes. */
  lemma LimitsExactly(c: Challenge, l: Literals)
    requires WrittenAs(c, l)
    ensures CreateRequest(ChallengeText(c, true)).Some? <==>
      && 0 < |c.name| && CharacterCount(c.name) < 256 && 0 < |c.flag| && CharacterCount(c.flag) < 256
      && |c.description| < 65536
  {
    hide CreateRequest, ChallengeText, ObjectOutcome;
    PrintedOutcome(c, l, true);
    RequestOf(ChallengeText(c, true), PrintedContext(c, true));
  }

  // The form printed without the flag is never taken for a request.
  lemma FlaglessIsRefused(c: Challenge, l: Literals)
    requires WrittenAs(c, l)
    ensures CreateRequest(ChallengeText(c, false)) == None
  {
    PrintedOutcome(c, l, false);
    assert FlagField in ALL_FIELDS && FlagField !in PrintedContext(c, false).fields;
    RequestOf(ChallengeText(c, false), PrintedContext(c, false));
  }

  lemma RequestOf(t: seq<byte>, f: ChallengeFields)
    requires ObjectOutcome(t, 0, ChallengeContext(NO_FIELDS)) == Some((ChallengeContext(f), []))
    ensures CreateRequest(t) == if f.fields == ALL_FIELDS then FieldsRequest(f) else None
  {
  }

  /** The printer's buffer, read by the request reader, gives the challenge's own slices back, if memory suffices. */
  method PrintAndRead(c: Challenge, allocates: nat -> bool, ghost l: Literals)
    returns (r: int, request: Option<Request>, calls: nat)
    requires WrittenAs(c, l) && WithinLimits(c.name, c.description, c.flag) && -INT_MAX <= c.id <= INT_MAX
    ensures r == if AllSucceed(allocates, calls) then 0 else -2
    ensures r == 0 ==> request == Some(Request(c.name, c.description, c.flag, c.genre))
  {
    hide CreateRequest, ChallengeText, WrittenAs, Slack;
    RoundTrip(c, l);
    LosesNothing(c, l);
    var buffer, len := ChallengeToJson(c, false, true, true);
    assert buffer[..len] == ChallengeText(c, true);
    r, request, calls := JsonToCreateChallengeRequest(Slice(buffer[..len]), allocates);
  }

  // A challenge whose slices are literals is printed in exactly the size that was computed.
  lemma LosesNothing(c: Challenge, l: Literals)
    requires WrittenAs(c, l)
    ensures Slack(c, true) == 0 && NulFree(c, true)
  {
    UnitsHaveNoNul(l.creatorId);
    UnitsHaveNoNul(l.name);
    UnitsHaveNoNul(l.description);
    UnitsHaveNoNul(l.flag);
    SlackIffNul(c, true);
  }
}
