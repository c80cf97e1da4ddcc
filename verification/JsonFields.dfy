/** The field readers that read_object calls back, as functions of the object's members. */
module JsonFields {
  import opened Common
  import opened JsonString
  import opened JsonDecoder
  import opened JsonGrammar
  import opened JsonReader

  const KEY_NAME: seq<byte> := [0x6E, 0x61, 0x6D, 0x65] // name
  const KEY_DESCRIPTION: seq<byte> := [0x64, 0x65, 0x73, 0x63, 0x72, 0x69, 0x70, 0x74, 0x69, 0x6F, 0x6E] // description
  const KEY_FLAG: seq<byte> := [0x66, 0x6C, 0x61, 0x67] // flag
  const KEY_GENRE: seq<byte> := [0x67, 0x65, 0x6E, 0x72, 0x65] // genre
  const KEY_USERNAME: seq<byte> := [0x75, 0x73, 0x65, 0x72, 0x6E, 0x61, 0x6D, 0x65] // username
  const KEY_PASSWORD: seq<byte> := [0x70, 0x61, 0x73, 0x73, 0x77, 0x6F, 0x72, 0x64] // password

  const GENRE_WEB: seq<byte> := [0x77, 0x65, 0x62] // web
  const GENRE_CRYPTO: seq<byte> := [0x63, 0x72, 0x79, 0x70, 0x74, 0x6F] // crypto
  const GENRE_PWN: seq<byte> := [0x70, 0x77, 0x6E] // pwn
  const GENRE_REV: seq<byte> := [0x72, 0x65, 0x76] // rev
  const GENRE_FORENSICS: seq<byte> := [0x66, 0x6F, 0x72, 0x65, 0x6E, 0x73, 0x69, 0x63, 0x73] // forensics
  const GENRE_OSINT: seq<byte> := [0x6F, 0x73, 0x69, 0x6E, 0x74] // osint
  const GENRE_MISC: seq<byte> := [0x6D, 0x69, 0x73, 0x63] // misc

  datatype Genre = Web | Crypto | Pwn | Rev | Forensics | Osint | Misc

  function GenreBytes(g: Genre): seq<byte> {
    match g
    case Web => GENRE_WEB
    case Crypto => GENRE_CRYPTO
    case Pwn => GENRE_PWN
    case Rev => GENRE_REV
    case Forensics => GENRE_FORENSICS
    case Osint => GENRE_OSINT
    case Misc => GENRE_MISC
  }

  // ctf_genre_from_string; everything unknown is "misc".
  function GenreOf(name: seq<byte>): Genre {
    if name == GENRE_WEB then Web
    else if name == GENRE_CRYPTO then Crypto
    else if name == GENRE_PWN then Pwn
    else if name == GENRE_REV then Rev
    else if name == GENRE_FORENSICS then Forensics
    else if name == GENRE_OSINT then Osint
    else Misc
  }

  datatype Field = NameField | DescriptionField | FlagField | GenreField | UsernameField | PasswordField

  /** The `void *context` of a field reader; the constructor stands for the callback itself and
      `fields` for the bit mask of fields already seen. */
  datatype Context =
    | NoContext
    | ChallengeContext(challenge: ChallengeFields)
    | AuthContext(auth: AuthFields)

  datatype ChallengeFields =
    ChallengeFields(name: Slice, description: Slice, flag: Slice, genre: Genre, fields: set<Field>)

  datatype AuthFields = AuthFields(username: Slice, password: Slice, fields: set<Field>)

  // The fields a create-challenge object is read for.
  function ChallengeField(key: seq<byte>): Option<Field> {
    if key == KEY_NAME then Some(NameField)
    else if key == KEY_DESCRIPTION then Some(DescriptionField)
    else if key == KEY_FLAG then Some(FlagField)
    else if key == KEY_GENRE then Some(GenreField)
    else None
  }

  // The fields of a credentials object, whose keys are compared decoded.
  function AuthField(key: seq<byte>): Option<Field> {
    if Decoded(key) == Some(KEY_USERNAME) then Some(UsernameField)
    else if Decoded(key) == Some(KEY_PASSWORD) then Some(PasswordField)
    else None
  }

  function StoreChallenge(before: ChallengeFields, field: Field, slice: seq<byte>): Option<ChallengeFields> {
    var seen := before.(fields := before.fields + {field});
    match field
    case NameField => Some(seen.(name := Slice(slice)))
    case DescriptionField => Some(seen.(description := Slice(slice)))
    case FlagField => Some(seen.(flag := Slice(slice)))
    case _ =>
      if GenreBytes(GenreOf(slice)) == slice then Some(seen.(genre := GenreOf(slice))) else None
  }

  function StoreAuth(before: AuthFields, field: Field, slice: seq<byte>): AuthFields {
    var seen := before.(fields := before.fields + {field});
    if field == UsernameField then seen.(username := Slice(slice)) else seen.(password := Slice(slice))
  }

  // The context after a field with this raw key and value, None when the reader refuses it.
  function StoreField(context: Context, key: seq<byte>, value: Value): Option<Context> {
    match context
    case NoContext => Some(context)
    case ChallengeContext(challenge) =>
      var field := ChallengeField(key);
      if field.None? then Some(context)
      else if !value.Text? then None
      else (
        match StoreChallenge(challenge, field.value, PrintUnits(value.units))
        case None => None
        case Some(next) => Some(ChallengeContext(next)))
    case AuthContext(auth) =>
      var field := AuthField(key);
      if field.None? || field.value in auth.fields || !value.Text? then None
      else Some(AuthContext(StoreAuth(auth, field.value, PrintUnits(value.units))))
  }

  function StoreMembers(context: Context, ms: Members): Option<Context>
    decreases ms
  {
    match StoreField(context, RawKey(ms.member), ms.member.item.value)
    case None => None
    case Some(next) => if ms.LastMember? then Some(next) else StoreMembers(next, ms.rest)
  }

  // What reading an object with a callback gives: the final context and the text behind it.
  function ObjectOutcome(t: seq<byte>, depth: nat, context: Context): Option<(Context, seq<byte>)> {
    match ReadObject(t, depth)
    case None => None
    case Some(p) =>
      if !p.node.Object? then Some((context, p.rest))
      else match StoreMembers(context, p.node.members)
        case None => None
        case Some(final) => Some((final, p.rest))
  }

  function MembersOutcome(t: seq<byte>, depth: nat, keys: seq<seq<byte>>,
                          context: Context): Option<(Context, seq<byte>)> {
    match ReadMembers(t, depth, keys)
    case None => None
    case Some(p) =>
      match StoreMembers(context, p.node)
      case None => None
      case Some(final) => Some((final, p.rest))
  }

  // One field read and handed to the callback: its key, the new context and what follows.
  datatype OneField = OneField(key: seq<byte>, next: Context, rest: seq<byte>)

  function FieldOutcome(t: seq<byte>, depth: nat, keys: seq<seq<byte>>, context: Context): Option<OneField> {
    match ReadMember(t, depth, keys)
    case None => None
    case Some(p) =>
      match StoreField(context, RawKey(p.node), p.node.item.value)
      case None => None
      case Some(next) => Some(OneField(RawKey(p.node), next, p.rest))
  }

  lemma {:induction false} MemberByParts(t: seq<byte>, depth: nat, keys: seq<seq<byte>>)
    ensures ReadMember(t, depth, keys) ==
      match ReadText(t)
      case None => None
      case Some(k) =>
        var c := AfterSpace(k.rest);
        if PrintUnits(k.node) in keys || !Starts(COLON, c) then None
        else match ReadValue(c[1..], depth + 1)
          case None => None
          case Some(p) =>
            var item := Item(Spaces(c[1..]), p.node, Spaces(p.rest));
            Some(Parsed(Member(Spaces(t), k.node, Spaces(k.rest), item), AfterSpace(p.rest)))
  {
  }

  // A round of the loop step by step: string, duplicate check, colon, value, callback.
  lemma {:induction false} FieldByParts(t: seq<byte>, depth: nat, keys: seq<seq<byte>>, context: Context)
    ensures FieldOutcome(t, depth, keys, context) ==
      match ReadText(t)
      case None => None
      case Some(k) =>
        var c := AfterSpace(k.rest);
        var key := PrintUnits(k.node);
        if key in keys || !Starts(COLON, c) then None
        else match ReadValue(c[1..], depth + 1)
          case None => None
          case Some(p) =>
            match StoreField(context, key, p.node)
            case None => None
            case Some(next) => Some(OneField(key, next, AfterSpace(p.rest)))
  {
    MemberByParts(t, depth, keys);
    if ReadMember(t, depth, keys).Some? {
      var m := ReadMember(t, depth, keys).value.node;
      assert RawKey(m) == PrintUnits(ReadText(t).value.node);
    }
  }

  // Reading fields one at a time, each handed to the callback at once, comes to the same.
  lemma {:induction false} MembersOneByOne(t: seq<byte>, depth: nat, keys: seq<seq<byte>>, context: Context)
    ensures MembersOutcome(t, depth, keys, context) ==
      match FieldOutcome(t, depth, keys, context)
      case None => None
      case Some(f) =>
        if Starts(RBRACE, f.rest) then Some((f.next, f.rest[1..]))
        else if Starts(COMMA, f.rest) then MembersOutcome(f.rest[1..], depth, [f.key] + keys, f.next)
        else None
  {
  }

  // A string is a value that the value reader reads as a string, and nothing else is.
  lemma TextIsValue(t: seq<byte>, depth: nat)
    requires depth <= MAX_JSON_DEPTH
    ensures ReadText(t).Some? <==> ReadValue(t, depth).Some? && ReadValue(t, depth).value.node.Text?
    ensures ReadText(t).Some? ==>
      ReadValue(t, depth) == Some(Parsed(Text(ReadText(t).value.node), ReadText(t).value.rest))
  {
  }

  lemma SpaceOnce(t: seq<byte>)
    ensures AfterSpace(AfterSpace(t)) == AfterSpace(t)
  {
    SpaceSplit(t);
  }

  // Space that has been skipped already changes nothing for what is read next.
  lemma SkippedSpace(t: seq<byte>, depth: nat, keys: seq<seq<byte>>, context: Context)
    ensures ReadText(AfterSpace(t)) == ReadText(t)
    ensures ReadValue(AfterSpace(t), depth) == ReadValue(t, depth)
    ensures ReadObject(AfterSpace(t), depth) == ReadObject(t, depth)
  {
    SpaceOnce(t);
  }
}
