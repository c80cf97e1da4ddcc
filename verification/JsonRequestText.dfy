/** Which texts are create-challenge requests, by their syntax trees. */
module JsonRequestText {
  import opened Common
  import opened JsonString
  import opened JsonDecoder
  import opened JsonGrammar
  import opened JsonReader
  import opened JsonFields
  import opened JsonChallenge
  import opened JsonRequest

  // The value of the first member whose key is spelled like this, without escapes.
  function Find(ms: Members, key: seq<byte>): Option<Value> {
    if RawKey(ms.member) == key then Some(ms.member.item.value)
    else if ms.LastMember? then None
    else Find(ms.rest, key)
  }

  lemma {:induction false} SeenIsNotFound(ms: Members, seen: seq<seq<byte>>, key: seq<byte>)
    requires DistinctKeys(ms, seen) && key in seen
    ensures Find(ms, key) == None
    decreases ms
  {
    if ms.MoreMembers? {
      SeenIsNotFound(ms.rest, [RawKey(ms.member)] + seen, key);
    }
  }

  // ---------------------------------------------------------------- the callback folded over an object

  // Read as a string, a genre must be a known one.
  predicate Readable(field: Field, v: Option<Value>) {
    v.Some? ==> v.value.Text? && (field == GenreField ==> IsGenre(PrintUnits(v.value.units)))
  }

  predicate IsGenre(t: seq<byte>) {
    GenreBytes(GenreOf(t)) == t
  }

  predicate AllReadable(ms: Members) {
    && Readable(NameField, Find(ms, KEY_NAME)) && Readable(DescriptionField, Find(ms, KEY_DESCRIPTION))
    && Readable(FlagField, Find(ms, KEY_FLAG)) && Readable(GenreField, Find(ms, KEY_GENRE))
  }

  function SliceOr(v: Option<Value>, slice: Slice): Slice {
    if v.Some? && v.value.Text? then Slice(PrintUnits(v.value.units)) else slice
  }

  function GenreOr(v: Option<Value>, genre: Genre): Genre {
    if v.Some? && v.value.Text? then GenreOf(PrintUnits(v.value.units)) else genre
  }

  function SeenIf(v: Option<Value>, field: Field): set<Field> {
    if v.Some? then {field} else {}
  }

  // What the fields are after these members.
  function Filled(f: ChallengeFields, ms: Members): ChallengeFields {
    var (name, description, flag, genre) :=
      (Find(ms, KEY_NAME), Find(ms, KEY_DESCRIPTION), Find(ms, KEY_FLAG), Find(ms, KEY_GENRE));
    ChallengeFields(
      SliceOr(name, f.name), SliceOr(description, f.description), SliceOr(flag, f.flag), GenreOr(genre, f.genre),
      f.fields + (SeenIf(name, NameField) + SeenIf(description, DescriptionField)
                  + SeenIf(flag, FlagField) + SeenIf(genre, GenreField)))
  }

  // One member.
  lemma MemberStored(f: ChallengeFields, m: Member)
    ensures var one := LastMember(m);
      StoreField(ChallengeContext(f), RawKey(m), m.item.value) ==
        if AllReadable(one) then Some(ChallengeContext(Filled(f, one))) else None
  {
    KnownKeys();
    var field := ChallengeField(RawKey(m));
    var seen := if field.Some? then {field.value} else {};
    assert Filled(f, LastMember(m)).fields == f.fields + seen;
    assert f.fields + {} == f.fields;
  }

  // A member and the rest of the object, in which its key does not occur again.
  lemma FilledOneByOne(f: ChallengeFields, ms: Members, seen: seq<seq<byte>>)
    requires ms.MoreMembers? && DistinctKeys(ms, seen)
    ensures var one := LastMember(ms.member);
      && (AllReadable(ms) <==> AllReadable(one) && AllReadable(ms.rest))
      && Filled(f, ms) == Filled(Filled(f, one), ms.rest)
  {
    var key, one := RawKey(ms.member), LastMember(ms.member);
    SeenIsNotFound(ms.rest, [key] + seen, key);
    assert forall k :: Find(ms, k) == if k == key then Find(one, k) else Find(ms.rest, k);
    assert forall k :: k != key ==> Find(one, k) == None;
    assert Filled(f, ms).fields == Filled(Filled(f, one), ms.rest).fields;
  }

  /** The fold over the callback finds each field by its key, wherever it stands. */
  lemma {:induction false} MembersStored(f: ChallengeFields, ms: Members, seen: seq<seq<byte>>)
    requires DistinctKeys(ms, seen)
    ensures StoreMembers(ChallengeContext(f), ms) ==
      if AllReadable(ms) then Some(ChallengeContext(Filled(f, ms))) else None
    decreases ms
  {
    hide AllReadable, Filled, StoreField;
    MemberStored(f, ms.member);
    if ms.MoreMembers? {
      FilledOneByOne(f, ms, seen);
      MembersStored(Filled(f, LastMember(ms.member)), ms.rest, [RawKey(ms.member)] + seen);
    } else {
      assert ms == LastMember(ms.member);
    }
  }

  // ---------------------------------------------------------------- requests

  predicate HasText(ms: Members, key: seq<byte>, t: seq<byte>) {
    var v := Find(ms, key);
    v.Some? && v.value.Text? && PrintUnits(v.value.units) == t
  }

  /** The object asks for this challenge: the four fields are there, whatever else is, and are within the limits. */
  predicate AsksFor(ms: Members, r: Request) {
    && HasText(ms, KEY_NAME, r.name) && HasText(ms, KEY_DESCRIPTION, r.description)
    && HasText(ms, KEY_FLAG, r.flag) && HasText(ms, KEY_GENRE, GenreBytes(r.genre))
    && WithinLimits(r.name, r.description, r.flag)
  }

  // The text is space, an object whose keys differ as they are written, and space.
  ghost predicate IsObjectText(json: seq<byte>, ms: Members) {
    && ValidMembers(ms) && DistinctKeys(ms, []) && 1 + MembersHeight(ms) <= MAX_JSON_DEPTH
    && exists before: seq<byte>, after: seq<byte> ::
      All(before, IsSpace) && All(after, IsSpace) && json == before + Print(Object(ms), after)
  }

  // What the reader makes of the fields is what the object asks for.
  lemma FilledRequest(ms: Members, r: Request)
    ensures var filled := Filled(NO_FIELDS, ms);
      AllReadable(ms) && filled.fields == ALL_FIELDS && FieldsRequest(filled) == Some(r) <==> AsksFor(ms, r)
  {
    var fields := Filled(NO_FIELDS, ms).fields;
    assert NameField in fields <==> Find(ms, KEY_NAME).Some?;
    assert DescriptionField in fields <==> Find(ms, KEY_DESCRIPTION).Some?;
    assert FlagField in fields <==> Find(ms, KEY_FLAG).Some?;
    assert GenreField in fields <==> Find(ms, KEY_GENRE).Some?;
    assert forall x ::
      x in ALL_FIELDS <==> x == NameField || x == DescriptionField || x == FlagField || x == GenreField;
    GenrePlain(r.genre);
    hide WithinLimits;
  }

  lemma RequestFound(json: seq<byte>, r: Request) returns (ms: Members)
    requires CreateRequest(json) == Some(r)
    ensures IsObjectText(json, ms) && AsksFor(ms, r)
  {
    hide FieldsRequest, StoreMembers;
    var (context, rest) := ObjectOutcome(json, 0, ChallengeContext(NO_FIELDS)).value;
    var v := ReadObject(json, 0).value.node;
    ObjectSound(json, 0, v, rest);
    assert NameField in ALL_FIELDS;
    ms := v.members;
    MembersStored(NO_FIELDS, ms, []);
    FilledRequest(ms, r);
    SpaceSplit(json);
    SpaceSplit(rest);
    assert All(Spaces(json), IsSpace) && All(rest, IsSpace) && json == Spaces(json) + Print(Object(ms), rest);
  }

  lemma RequestTaken(json: seq<byte>, ms: Members, r: Request)
    requires IsObjectText(json, ms) && AsksFor(ms, r)
    ensures CreateRequest(json) == Some(r)
  {
    var before: seq<byte>, after: seq<byte> :|
      All(before, IsSpace) && All(after, IsSpace) && json == before + Print(Object(ms), after);
    hide AsksFor, FieldsRequest, StoreMembers, AllReadable, Filled;
    ObjectComplete(before, Object(ms), after, 0);
    MembersStored(NO_FIELDS, ms, []);
    FilledRequest(ms, r);
    SpanOf(after, [], IsSpace);
    assert after + [] == after;
  }

  /** A text is accepted as the request `r` exactly when it is an object with differing keys in which `name`,
      `description`, `flag` and `genre`, spelled without escapes, are strings that ask for `r` within the limits. */
  lemma AcceptsExactlyRequests(json: seq<byte>, r: Request)
    ensures CreateRequest(json) == Some(r) <==> exists ms: Members :: IsObjectText(json, ms) && AsksFor(ms, r)
  {
    hide CreateRequest, AsksFor, IsObjectText;
    if CreateRequest(json) == Some(r) {
      var ms := RequestFound(json, r);
    }
    forall ms: Members | IsObjectText(json, ms) && AsksFor(ms, r) ensures CreateRequest(json) == Some(r) {
      RequestTaken(json, ms, r);
    }
  }
}
