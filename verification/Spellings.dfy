/** The names and texts that the server looks for or prints, as characters; and the bytes of some characters. */
module Spellings {
  import opened Common
  import opened HttpParser
  import UriText
  import JsonString
  import JsonGrammar
  import JsonFields
  import JsonChallenge
  import Utf8

  // ---------------------------------------------------------------- HTTP

  /** The tokens of the nine methods, as far as their space. */
  lemma MethodTokens()
    ensures Token(GET) == Ascii("GET ") && Token(HEAD) == Ascii("HEAD ") && Token(OPTIONS) == Ascii("OPTIONS ")
    ensures Token(TRACE) == Ascii("TRACE ") && Token(PUT) == Ascii("PUT ") && Token(DELETE) == Ascii("DELETE ")
    ensures Token(POST) == Ascii("POST ") && Token(PATCH) == Ascii("PATCH ") && Token(CONNECT) == Ascii("CONNECT ")
  {
    SameText("GET ", TOKEN_GET);
    SameText("HEAD ", TOKEN_HEAD);
    SameText("OPTIONS ", TOKEN_OPTIONS);
    SameText("TRACE ", TOKEN_TRACE);
    SameText("PUT ", TOKEN_PUT);
    SameText("DELETE ", TOKEN_DELETE);
    SameText("POST ", TOKEN_POST);
    SameText("PATCH ", TOKEN_PATCH);
    SameText("CONNECT ", TOKEN_CONNECT);
  }

  /** The four header fields that the parser acts upon, and the characters of paths and queries. */
  lemma HeaderNames()
    ensures CONTENT_LENGTH == Ascii("Content-Length") && CONTENT_TYPE == Ascii("Content-Type")
    ensures TRANSFER_ENCODING == Ascii("Transfer-Encoding") && HOST == Ascii("Host")
    ensures Ascii("%/.?#=&*") ==
      [UriText.PERCENT, UriText.SLASH, UriText.DOT, UriText.QUESTION, UriText.HASH, UriText.EQUALS, UriText.AMPERSAND,
       UriText.ASTERISK]
  {
    SameText("Content-Length", CONTENT_LENGTH);
    SameText("Content-Type", CONTENT_TYPE);
    SameText("Transfer-Encoding", TRANSFER_ENCODING);
    SameText("Host", HOST);
    SameText("%/.?#=&*", [0x25, 0x2F, 0x2E, 0x3F, 0x23, 0x3D, 0x26, 0x2A]);
  }

  /** Names are compared letter by letter, small and capital letters alike. */
  lemma LetterCase(a: seq<byte>, b: seq<byte>)
    ensures EqualFold(a, b) <==>
      && |a| == |b|
      && forall i :: 0 <= i < |a| ==>
           || a[i] == b[i]
           || (0x41 <= a[i] <= 0x5A && b[i] == a[i] + 32) || (0x41 <= b[i] <= 0x5A && a[i] == b[i] + 32)
  {
  }

  // ---------------------------------------------------------------- JSON

  /** The keys of the two requests. */
  lemma KeysOfRequests()
    ensures JsonFields.KEY_NAME == Ascii("name") && JsonFields.KEY_DESCRIPTION == Ascii("description")
    ensures JsonFields.KEY_FLAG == Ascii("flag") && JsonFields.KEY_GENRE == Ascii("genre")
    ensures JsonFields.KEY_USERNAME == Ascii("username") && JsonFields.KEY_PASSWORD == Ascii("password")
  {
    SameText("name", JsonFields.KEY_NAME);
    SameText("description", JsonFields.KEY_DESCRIPTION);
    SameText("flag", JsonFields.KEY_FLAG);
    SameText("genre", JsonFields.KEY_GENRE);
    SameText("username", JsonFields.KEY_USERNAME);
    SameText("password", JsonFields.KEY_PASSWORD);
  }

  /** The names of the genres; a text is one of them exactly when it is printed again as it was. */
  lemma GenreNames()
    ensures JsonFields.GenreBytes(JsonFields.Web) == Ascii("web")
    ensures JsonFields.GenreBytes(JsonFields.Crypto) == Ascii("crypto")
    ensures JsonFields.GenreBytes(JsonFields.Pwn) == Ascii("pwn")
    ensures JsonFields.GenreBytes(JsonFields.Rev) == Ascii("rev")
    ensures JsonFields.GenreBytes(JsonFields.Forensics) == Ascii("forensics")
    ensures JsonFields.GenreBytes(JsonFields.Osint) == Ascii("osint")
    ensures JsonFields.GenreBytes(JsonFields.Misc) == Ascii("misc")
  {
    SameText("web", JsonFields.GENRE_WEB);
    SameText("crypto", JsonFields.GENRE_CRYPTO);
    SameText("pwn", JsonFields.GENRE_PWN);
    SameText("rev", JsonFields.GENRE_REV);
    SameText("forensics", JsonFields.GENRE_FORENSICS);
    SameText("osint", JsonFields.GENRE_OSINT);
    SameText("misc", JsonFields.GENRE_MISC);
  }

  /** The structural characters, white space and the three words of section 2 of RFC 8259. */
  lemma JsonCharacters()
    ensures Ascii("{}[]:,") ==
      [JsonGrammar.LBRACE, JsonGrammar.RBRACE, JsonGrammar.LBRACKET, JsonGrammar.RBRACKET, JsonGrammar.COLON,
       JsonGrammar.COMMA]
    ensures Ascii("-+0.") == [JsonGrammar.MINUS, JsonGrammar.PLUS, JsonGrammar.ZERO, JsonGrammar.DOT]
    ensures Ascii("\"\\u") == [JsonString.QUOTE, JsonString.BACKSLASH, JsonString.LOWER_U]
    ensures forall c: byte :: JsonGrammar.IsSpace(c) <==> c in Ascii(" \t\n\r")
    ensures forall c: byte :: JsonGrammar.IsExponentMark(c) <==> c in Ascii("eE")
    ensures forall c: byte :: JsonString.IsEscape(c) <==> c in Ascii("\"\\/bfnrt")
    ensures JsonGrammar.MAX_JSON_DEPTH == 64
    ensures JsonGrammar.PrintWord(JsonGrammar.True) == Ascii("true")
    ensures JsonGrammar.PrintWord(JsonGrammar.False) == Ascii("false")
    ensures JsonGrammar.PrintWord(JsonGrammar.Word.Null) == Ascii("null")
  {
    SameText("{}[]:,", [0x7B, 0x7D, 0x5B, 0x5D, 0x3A, 0x2C]);
    SameText("-+0.", [0x2D, 0x2B, 0x30, 0x2E]);
    SameText("\"\\u", [0x22, 0x5C, 0x75]);
    SameText(" \t\n\r", [0x20, 0x09, 0x0A, 0x0D]);
    SameText("eE", [0x65, 0x45]);
    SameText("\"\\/bfnrt", [0x22, 0x5C, 0x2F, 0x62, 0x66, 0x6E, 0x72, 0x74]);
    SameText("true", JsonGrammar.PrintWord(JsonGrammar.True));
    SameText("false", JsonGrammar.PrintWord(JsonGrammar.False));
    SameText("null", JsonGrammar.PrintWord(JsonGrammar.Word.Null));
  }

  // ---------------------------------------------------------------- printed challenges

  lemma FirstField(f: JsonChallenge.StringField, more: seq<JsonChallenge.StringField>, key: seq<byte>)
    requires key == [0x2C, 0x22] + f.key + [0x22, 0x3A, 0x22]
    ensures JsonChallenge.FieldsText([f] + more) ==
      key + (JsonChallenge.UpToNul(f.slice) + ([0x22] + JsonChallenge.FieldsText(more)))
  {
    assert ([f] + more)[1..] == more;
    hide JsonChallenge.UpToNul;
  }

  lemma QuotedKeys()
    ensures Ascii(",\"creator_id\":\"") == [0x2C, 0x22] + JsonChallenge.KEY_CREATOR_ID + [0x22, 0x3A, 0x22]
    ensures Ascii(",\"name\":\"") == [0x2C, 0x22] + JsonFields.KEY_NAME + [0x22, 0x3A, 0x22]
    ensures Ascii(",\"description\":\"") == [0x2C, 0x22] + JsonFields.KEY_DESCRIPTION + [0x22, 0x3A, 0x22]
    ensures Ascii(",\"flag\":\"") == [0x2C, 0x22] + JsonFields.KEY_FLAG + [0x22, 0x3A, 0x22]
    ensures Ascii(",\"genre\":\"") == [0x2C, 0x22] + JsonFields.KEY_GENRE + [0x22, 0x3A, 0x22]
    ensures Ascii("{\"id\":") == [0x7B, 0x22] + JsonChallenge.KEY_ID + [0x22, 0x3A]
  {
    SameText(",\"creator_id\":\"", [0x2C, 0x22] + JsonChallenge.KEY_CREATOR_ID + [0x22, 0x3A, 0x22]);
    SameText(",\"name\":\"", [0x2C, 0x22] + JsonFields.KEY_NAME + [0x22, 0x3A, 0x22]);
    SameText(",\"description\":\"", [0x2C, 0x22] + JsonFields.KEY_DESCRIPTION + [0x22, 0x3A, 0x22]);
    SameText(",\"flag\":\"", [0x2C, 0x22] + JsonFields.KEY_FLAG + [0x22, 0x3A, 0x22]);
    SameText(",\"genre\":\"", [0x2C, 0x22] + JsonFields.KEY_GENRE + [0x22, 0x3A, 0x22]);
    SameText("{\"id\":", [0x7B, 0x22] + JsonChallenge.KEY_ID + [0x22, 0x3A]);
  }

  /** The text of a challenge, key by key. */
  lemma ChallengeSpelled(c: JsonChallenge.Challenge, includeFlag: bool)
    ensures JsonChallenge.ChallengeText(c, includeFlag) ==
      Ascii("{\"id\":") + (JsonChallenge.PrintInt(c.id)
      + (Ascii(",\"creator_id\":\"") + (JsonChallenge.UpToNul(c.creatorId) + ([0x22]
      + (Ascii(",\"name\":\"") + (JsonChallenge.UpToNul(c.name) + ([0x22]
      + (Ascii(",\"description\":\"") + (JsonChallenge.UpToNul(c.description) + ([0x22]
      + FlagAndGenre(c, includeFlag)))))))))))
  {
    hide JsonChallenge.UpToNul, JsonChallenge.PrintInt, JsonChallenge.FieldsText;
    QuotedKeys();
    hide Ascii;
    var creator := JsonChallenge.StringField(JsonChallenge.KEY_CREATOR_ID, c.creatorId);
    var name := JsonChallenge.StringField(JsonFields.KEY_NAME, c.name);
    var description := JsonChallenge.StringField(JsonFields.KEY_DESCRIPTION, c.description);
    var flag := JsonChallenge.StringField(JsonFields.KEY_FLAG, c.flag);
    var genre := JsonChallenge.StringField(JsonFields.KEY_GENRE, JsonFields.GenreBytes(c.genre));
    hide JsonFields.GenreBytes;
    var end := if includeFlag then [flag] + [genre] else [genre];
    assert JsonChallenge.StringFields(c, includeFlag) == [creator] + ([name] + ([description] + end));
    FirstField(creator, [name] + ([description] + end), Ascii(",\"creator_id\":\""));
    FirstField(name, [description] + end, Ascii(",\"name\":\""));
    FirstField(description, end, Ascii(",\"description\":\""));
    EndSpelled(c, includeFlag, flag, genre);
  }

  function FlagAndGenre(c: JsonChallenge.Challenge, includeFlag: bool): seq<byte> {
    (if includeFlag then Ascii(",\"flag\":\"") + (JsonChallenge.UpToNul(c.flag) + [0x22]) else [])
    + (Ascii(",\"genre\":\"") + (JsonFields.GenreBytes(c.genre) + Ascii("\"}")))
  }

  lemma EndSpelled(c: JsonChallenge.Challenge, includeFlag: bool, flag: JsonChallenge.StringField,
                   genre: JsonChallenge.StringField)
    requires flag == JsonChallenge.StringField(JsonFields.KEY_FLAG, c.flag)
    requires genre == JsonChallenge.StringField(JsonFields.KEY_GENRE, JsonFields.GenreBytes(c.genre))
    ensures FlagAndGenre(c, includeFlag) ==
      JsonChallenge.FieldsText(if includeFlag then [flag] + [genre] else [genre])
  {
    hide JsonChallenge.UpToNul, JsonChallenge.FieldsText, Ascii, JsonFields.GenreBytes, JsonFields.KEY_FLAG;
    GenreSpelled(c.genre, genre);
    QuotedKeys();
    FirstField(flag, [genre], Ascii(",\"flag\":\""));
    var slice := JsonChallenge.UpToNul(c.flag);
    Regrouped(Ascii(",\"flag\":\""), slice, [0x22], JsonChallenge.FieldsText([genre]));
  }

  lemma Regrouped(a: seq<byte>, b: seq<byte>, c: seq<byte>, d: seq<byte>)
    ensures (a + (b + c)) + d == a + (b + (c + d))
    ensures [] + d == d
  {
  }

  lemma GenreSpelled(g: JsonFields.Genre, field: JsonChallenge.StringField)
    requires field == JsonChallenge.StringField(JsonFields.KEY_GENRE, JsonFields.GenreBytes(g))
    ensures JsonChallenge.FieldsText([field]) == Ascii(",\"genre\":\"") + (JsonFields.GenreBytes(g) + Ascii("\"}"))
  {
    hide JsonChallenge.UpToNul, JsonChallenge.FieldsText, Ascii, JsonFields.GenreBytes;
    JsonChallenge.GenreNulFree(g);
    QuotedKeys();
    ObjectEnds();
    FirstField(field, [], Ascii(",\"genre\":\""));
    assert [field] + [] == [field];
  }

  lemma ObjectEnds()
    ensures [0x22] + JsonChallenge.FieldsText([]) == Ascii("\"}")
  {
    SameText("\"}", [0x22, 0x7D]);
  }

  lemma TextsSnoc(cs: seq<JsonChallenge.Challenge>, c: JsonChallenge.Challenge, includeFlag: bool)
    ensures JsonChallenge.Texts(cs + [c], includeFlag) ==
      JsonChallenge.Texts(cs, includeFlag) + [JsonChallenge.ChallengeText(c, includeFlag)]
  {
    assert (cs + [c])[..|cs|] == cs;
    hide JsonChallenge.ChallengeText;
  }

  lemma {:induction false} JoinedSnoc(texts: seq<seq<byte>>, t: seq<byte>) returns (inner: seq<byte>)
    ensures JsonChallenge.Joined(texts) == inner + [0x5D]
    ensures JsonChallenge.Joined(texts + [t]) == inner + ((if texts == [] then [] else [0x2C]) + (t + [0x5D]))
    ensures texts == [] ==> inner == []
  {
    hide JsonChallenge.Joined;
    JoinedFirst(texts);
    JoinedFirst(texts + [t]);
    if texts == [] {
      inner := [];
      assert (texts + [t])[1..] == [];
      Regrouped([], t, [], [0x5D]);
    } else {
      var rest := JoinedSnoc(texts[1..], t);
      assert (texts + [t])[1..] == texts[1..] + [t] && (texts + [t])[0] == texts[0];
      var comma := if |texts| > 1 then [0x2C] else [];
      inner := texts[0] + (comma + rest);
      Regrouped(texts[0], comma, rest, [0x5D]);
      Regrouped(texts[0], comma, rest, [0x2C] + (t + [0x5D]));
      assert |texts| == 1 ==> inner == texts[0];
      Regrouped([0x2C], [], t, [0x5D]);
    }
  }

  lemma JoinedFirst(texts: seq<seq<byte>>)
    ensures texts == [] ==> JsonChallenge.Joined(texts) == [0x5D]
    ensures |texts| == 1 ==> JsonChallenge.Joined(texts) == texts[0] + ([] + JsonChallenge.Joined(texts[1..]))
    ensures |texts| > 1 ==> JsonChallenge.Joined(texts) == texts[0] + ([0x2C] + JsonChallenge.Joined(texts[1..]))
  {
  }

  /** A list in brackets; each further challenge stands behind a comma. */
  lemma ListSpelled(cs: seq<JsonChallenge.Challenge>, c: JsonChallenge.Challenge, includeFlag: bool)
    returns (inner: seq<byte>)
    ensures JsonChallenge.ListText(cs, includeFlag) == Ascii("[") + (inner + Ascii("]"))
    ensures JsonChallenge.ListText(cs + [c], includeFlag) ==
      Ascii("[") + (inner + ((if cs == [] then [] else Ascii(",")) + (JsonChallenge.ChallengeText(c, includeFlag)
                                                                      + Ascii("]"))))
    ensures cs == [] ==> inner == []
  {
    hide JsonChallenge.ChallengeText, JsonChallenge.Joined, JsonChallenge.Texts;
    var texts := JsonChallenge.Texts(cs, includeFlag);
    TextsSnoc(cs, c, includeFlag);
    SameText("[", [0x5B]);
    SameText("]", [0x5D]);
    SameText(",", [0x2C]);
    hide Ascii;
    inner := JoinedSnoc(texts, JsonChallenge.ChallengeText(c, includeFlag));
    NoTexts(cs, includeFlag);
    if cs == [] {
      assert |inner + [0x5D]| == 1;
    }
  }

  lemma NoTexts(cs: seq<JsonChallenge.Challenge>, includeFlag: bool)
    ensures JsonChallenge.Texts(cs, includeFlag) == [] <==> cs == []
    ensures JsonChallenge.Joined([]) == [0x5D]
  {
  }
}
