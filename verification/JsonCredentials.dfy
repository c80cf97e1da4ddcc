/** Which credentials are accepted, said about the text of a login request and in numbers. */
module JsonCredentials {
  import opened Common
  import opened Utf8
  import opened JsonString
  import opened JsonDecoder
  import opened JsonGrammar
  import opened JsonFields
  import opened JsonChallenge
  import opened JsonRequest
  import opened JsonAuth

  // {"username":"...","password":"..."}
  function LoginText(username: seq<byte>, password: seq<byte>): seq<byte> {
    Ascii("{\"username\":\"") + (username + ([0x22] + (Ascii(",\"password\":\"") + (password + Ascii("\"}")))))
  }

  // The same with the password in front.
  function SwappedText(username: seq<byte>, password: seq<byte>): seq<byte> {
    Ascii("{\"password\":\"") + (password + ([0x22] + (Ascii(",\"username\":\"") + (username + Ascii("\"}")))))
  }

  predicate MayBeNamed(name: seq<byte>) {
    && 3 <= |name| <= 32
    && forall i :: 0 <= i < |name| ==>
         || 0x61 <= name[i] <= 0x7A || 0x41 <= name[i] <= 0x5A || 0x30 <= name[i] <= 0x39
         || name[i] == 0x5F || name[i] == 0x2D
  }

  lemma LimitsAre(c: Credentials)
    ensures JsonAuth.WithinLimits(c) <==>
      MayBeNamed(c.username) && 8 <= |c.password| <= 128 && forall i :: 0 <= i < |c.password| ==> c.password[i] != 0
  {
  }

  lemma KeysDecode()
    ensures AuthField(KEY_USERNAME) == Some(UsernameField) && AuthField(KEY_PASSWORD) == Some(PasswordField)
  {
    hide KEY_USERNAME, KEY_PASSWORD, Decoded, IsPlainAscii;
    KeysArePlain();
    PlainDecodes(KEY_USERNAME);
    PlainDecodes(KEY_PASSWORD);
  }

  lemma KeysArePlain()
    ensures IsPlainAscii(KEY_USERNAME) && IsPlainAscii(KEY_PASSWORD) && KEY_USERNAME != KEY_PASSWORD
  {
    assert KEY_USERNAME[0] != KEY_PASSWORD[0];
  }

  lemma {:induction false} PlainDecodes(t: seq<byte>)
    requires IsPlainAscii(t)
    ensures Decoded(t) == Some(t)
  {
    var vs: seq<scalar> := t;
    PlainEncodes(t);
    DecodeIsIdentityOnPlain(vs);
  }

  lemma {:induction false} PlainEncodes(t: seq<byte>)
    requires IsPlainAscii(t)
    ensures EncodeAll(t) == t
  {
    if t != [] {
      PlainEncodes(t[1..]);
      assert Encode(t[0]) == [t[0]] && t == [t[0]] + t[1..];
    }
  }

  // Two string members, read as a pair.
  lemma PairTaken(json: seq<byte>, ms: Members, c: Credentials)
    requires |json| < 65536 && IsPairText(json, ms) && Decode2(PairFields(ms)) == Some(c)
    ensures AuthRequest(json) == if JsonAuth.WithinLimits(c) then Some(c) else None
  {
    hide IsPairText, RawFields, Decode2, PairFields, JsonAuth.WithinLimits;
    PairRead(json, ms);
  }

  lemma TwoFieldsText(key: seq<byte>, us: seq<Unit>, key2: seq<byte>, us2: seq<Unit>) returns (ms: Members)
    requires IsPlainAscii(key) && IsPlainAscii(key2) && key != key2 && ValidUnits(us) && ValidUnits(us2)
    ensures ms == MoreMembers(KeyMember(key, Text(us)), LastMember(KeyMember(key2, Text(us2))))
    ensures ValidMembers(ms) && RawKey(ms.member) == key && RawKey(ms.rest.member) == key2
    ensures Print(Object(ms), []) ==
      ([LBRACE, QUOTE] + key + [QUOTE, COLON, QUOTE]) + (PrintUnits(us) + ([QUOTE]
      + (([COMMA, QUOTE] + key2 + [QUOTE, COLON, QUOTE]) + (PrintUnits(us2) + [QUOTE, RBRACE]))))
  {
    hide PrintUnits, IsPlainAscii, PrintMember, PrintMembers, ValidUnits;
    var m, m2 := KeyMember(key, Text(us)), KeyMember(key2, Text(us2));
    ms := MoreMembers(m, LastMember(m2));
    KeyMemberValid(key, Text(us));
    KeyMemberValid(key2, Text(us2));
    MoreMembersPrint(m, LastMember(m2));
    LastMemberPrints(m2);
    KeyMemberPrints(key2, Text(us2), [RBRACE]);
    KeyMemberPrints(key, Text(us), [COMMA] + PrintMembers(LastMember(m2), []));
    MemberText(key2, PrintUnits(us2), [RBRACE]);
    MemberText(key, PrintUnits(us), [COMMA] + PrintMembers(LastMember(m2), []));
    InFront(LBRACE, key, PrintUnits(us), [COMMA] + PrintMembers(LastMember(m2), []));
    InFront(COMMA, key2, PrintUnits(us2), [RBRACE]);
    assert [QUOTE] + [RBRACE] == [QUOTE, RBRACE];
  }

  lemma MemberText(key: seq<byte>, slice: seq<byte>, k: seq<byte>)
    ensures [QUOTE] + (key + ([QUOTE, COLON] + ([QUOTE] + (slice + ([QUOTE] + k)))))
         == [QUOTE] + key + [QUOTE, COLON, QUOTE] + (slice + ([QUOTE] + k))
  {
  }

  lemma InFront(c: byte, key: seq<byte>, slice: seq<byte>, k: seq<byte>)
    ensures [c] + ([QUOTE] + key + [QUOTE, COLON, QUOTE] + (slice + ([QUOTE] + k)))
         == ([c, QUOTE] + key + [QUOTE, COLON, QUOTE]) + (slice + ([QUOTE] + k))
  {
  }

  lemma QuotedKeys()
    ensures Ascii("{\"username\":\"") == [LBRACE, QUOTE] + KEY_USERNAME + [QUOTE, COLON, QUOTE]
    ensures Ascii("{\"password\":\"") == [LBRACE, QUOTE] + KEY_PASSWORD + [QUOTE, COLON, QUOTE]
    ensures Ascii(",\"username\":\"") == [COMMA, QUOTE] + KEY_USERNAME + [QUOTE, COLON, QUOTE]
    ensures Ascii(",\"password\":\"") == [COMMA, QUOTE] + KEY_PASSWORD + [QUOTE, COLON, QUOTE]
    ensures Ascii("\"}") == [QUOTE, RBRACE]
  {
    SameText("{\"username\":\"", [LBRACE, QUOTE] + KEY_USERNAME + [QUOTE, COLON, QUOTE]);
    SameText("{\"password\":\"", [LBRACE, QUOTE] + KEY_PASSWORD + [QUOTE, COLON, QUOTE]);
    SameText(",\"username\":\"", [COMMA, QUOTE] + KEY_USERNAME + [QUOTE, COLON, QUOTE]);
    SameText(",\"password\":\"", [COMMA, QUOTE] + KEY_PASSWORD + [QUOTE, COLON, QUOTE]);
    SameText("\"}", [QUOTE, RBRACE]);
  }

  // The slices in the order in which they stand.
  lemma LoginPair(json: seq<byte>, first: seq<byte>, second: seq<byte>, swapped: bool) returns (ms: Members)
    requires DecodeAll(first).Some? && DecodeAll(second).Some?
    requires json == if swapped then SwappedText(second, first) else LoginText(first, second)
    ensures IsPairText(json, ms)
    ensures PairFields(ms) ==
      if swapped then AuthFields(Slice(second), Slice(first), BOTH_FIELDS)
      else AuthFields(Slice(first), Slice(second), BOTH_FIELDS)
  {
    hide KEY_USERNAME, KEY_PASSWORD, DecodeAll, IsPlainAscii, Ascii, Print, RawKey, ValidMembers, AuthField;
    KeysArePlain();
    KeysDecode();
    QuotedKeys();
    var us := DecodableIsPrinted(first);
    var us2 := DecodableIsPrinted(second);
    if swapped {
      ms := TwoFieldsText(KEY_PASSWORD, us, KEY_USERNAME, us2);
    } else {
      ms := TwoFieldsText(KEY_USERNAME, us, KEY_PASSWORD, us2);
    }
    assert [] + Print(Object(ms), []) == Print(Object(ms), []);
    assert All([], IsSpace);
  }

  /** A login text of less than 64 KiB whose two strings stand for `u` and `p`, however they are spelled, is accepted
      exactly when `u` has 3 to 32 bytes, all letters, digits, underscores or hyphens, and `p` 8 to 128 without NUL; and
      then with these credentials. The order of the keys does not matter. */
  lemma LoginAccepted(username: seq<byte>, password: seq<byte>, u: seq<byte>, p: seq<byte>)
    requires Decoded(username) == Some(u) && Decoded(password) == Some(p)
    ensures forall json :: json == LoginText(username, password) || json == SwappedText(username, password) ==>
      |json| < 65536 ==>
        AuthRequest(json) ==
          if MayBeNamed(u) && 8 <= |p| <= 128 && (forall i :: 0 <= i < |p| ==> p[i] != 0) then Some(Credentials(u, p))
          else None
  {
    hide LoginText, SwappedText, AuthRequest, IsPairText, PairFields, JsonAuth.WithinLimits, MayBeNamed;
    LimitsAre(Credentials(u, p));
    var one := LoginPair(LoginText(username, password), username, password, false);
    var two := LoginPair(SwappedText(username, password), password, username, true);
    if |LoginText(username, password)| < 65536 {
      PairTaken(LoginText(username, password), one, Credentials(u, p));
    }
    if |SwappedText(username, password)| < 65536 {
      PairTaken(SwappedText(username, password), two, Credentials(u, p));
    }
  }
}
