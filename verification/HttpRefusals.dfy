/** Which status a refused request gets, said about the bytes of the request and in numbers. */
module HttpRefusals {
  import opened Common
  import opened HttpParser
  import opened HttpFields
  import opened HttpMessage
  import opened HttpRoundTrip

  predicate Refused(b: seq<byte>, status: nat) {
    After(b).state == Failed && After(b).status == status
  }

  // ---------------------------------------------------------------- all statuses

  predicate KnownStatus(p: Progress) {
    if p.state != Failed then p.status == 200
    else p.status == 400 || p.status == 413 || p.status == 431 || p.status == 505
  }

  lemma StepKeepsStatus(p: Progress, b: seq<byte>)
    requires b != [] && KnownStatus(p)
    ensures KnownStatus(Step(p, b))
  {
  }

  lemma {:induction false} FeedKeepsStatus(p: Progress, b: seq<byte>, i: nat)
    requires i <= |b| && KnownStatus(p)
    ensures KnownStatus(Feed(p, b, i))
    decreases |b| - i
  {
    hide Step;
    if i < |b| {
      StepKeepsStatus(p, b[..i + 1]);
      FeedKeepsStatus(Step(p, b[..i + 1]), b, i + 1);
    }
  }

  /** A method that is not one of the nine is refused with 501, as soon as eight bytes are there, and nothing else is;
      every other refusal is one of 400, 413, 431 and 505. */
  lemma UnknownMethod(b: seq<byte>)
    ensures Refused(b, 501) <==> |b| >= 8 && forall verb: Method :: !(Token(verb) <= b)
    ensures After(b).state == Failed ==> After(b).status in {400, 413, 431, 501, 505}
  {
    hide After, Token;
    if |b| < 8 {
      TooShort(b);
    } else {
      MethodIs(b);
      LaunchFeeds(b);
      var m := MethodOf(b[..8]);
      if m.Some? {
        hide Feed;
        FeedKeepsStatus(UriStart(m.value), b, |Token(m.value)|);
      }
    }
  }

  lemma TooShort(b: seq<byte>)
    requires |b| < 8
    ensures After(b) == START
  {
  }

  lemma MethodIs(b: seq<byte>)
    requires |b| >= 8
    ensures MethodOf(b[..8]).None? <==> forall verb: Method :: !(Token(verb) <= b)
    ensures MethodOf(b[..8]).Some? ==> Token(MethodOf(b[..8]).value) <= b
  {
    forall verb: Method ensures Token(verb) <= b <==> Token(verb) <= b[..8] {
      assert b == b[..8] + b[8..];
    }
    if forall verb: Method :: !(Token(verb) <= b[..8]) {
      assert !(Token(GET) <= b[..8]) && !(Token(PUT) <= b[..8]) && !(Token(POST) <= b[..8]);
      assert !(Token(HEAD) <= b[..8]) && !(Token(PATCH) <= b[..8]) && !(Token(TRACE) <= b[..8]);
      assert !(Token(DELETE) <= b[..8]) && !(Token(OPTIONS) <= b[..8]) && !(Token(CONNECT) <= b[..8]);
    }
  }

  // ---------------------------------------------------------------- the request line

  // A step that refuses settles the request.
  lemma FailsAt(p: Progress, b: seq<byte>, i: nat, status: nat)
    requires i < |b| && i + 1 < 4096 && !Settled(p) && p.state != Body
    requires StepHeader(p, b[..i + 1]).state == Failed && StepHeader(p, b[..i + 1]).status == status
    ensures Feed(p, b, i).state == Failed && Feed(p, b, i).status == status
  {
    hide StepHeader;
    FeedSettled(StepHeader(p, b[..i + 1]), b, i + 1);
  }

  predicate NoBreak(t: seq<byte>) {
    forall k :: 0 <= k < |t| ==> t[k] != 0x0D && t[k] != 0x0A
  }

  // The method's token has been read.
  lemma Launched(b: seq<byte>, verb: Method)
    requires |b| >= 8 && TextAt(b, 0, Token(verb))
    ensures After(b) == Feed(UriStart(verb), b, |Token(verb)|)
  {
    hide After, Feed, Token, MethodOf;
    assert b[..8][..|Token(verb)|] == b[0..|Token(verb)|];
    TokensDiffer(b, verb);
    LaunchFeeds(b);
  }

  /** Without a target, or with a line end in front of the space behind it, the request is refused with 400. */
  lemma BrokenTarget(b: seq<byte>, verb: Method, uri: seq<byte>)
    requires |b| >= 8 && TextAt(b, 0, Token(verb)) && TextAt(b, |Token(verb)|, uri) && |Token(verb)| + |uri| < |b|
    requires NoBreak(uri) && 0x20 !in uri && |Token(verb)| + |uri| + 1 < 4096
    requires var c := b[|Token(verb)| + |uri|]; c == 0x0D || c == 0x0A || (c == 0x20 && uri == [])
    ensures Refused(b, 400)
  {
    hide After, Feed, Token, StepHeader;
    var i, start := |Token(verb)|, UriStart(verb);
    var n := i + |uri|;
    Launched(b, verb);
    assert forall k :: i <= k < n ==> b[k] == uri[k - i];
    if uri == [] {
      TargetRefused(start, b, n);
      FailsAt(start, b, n, 400);
    } else {
      var p := start.(uri := Some(i));
      TargetBegins(start, b, i);
      UriRun(p, b, i + 1, n);
      TargetRefused(p, b, n);
      FailsAt(p, b, n, 400);
    }
  }

  lemma TargetRefused(p: Progress, b: seq<byte>, n: nat)
    requires p.state == ReqUri && n < |b| && (p.uri.None? || p.uri.value < n)
    requires b[n] == 0x0D || b[n] == 0x0A || (b[n] == 0x20 && p.uri.None?)
    ensures StepHeader(p, b[..n + 1]).state == Failed && StepHeader(p, b[..n + 1]).status == 400
  {
    assert b[..n + 1][n] == b[n];
  }

  /** Any version but HTTP/1.0 and HTTP/1.1 is refused with 505. */
  lemma UnknownVersion(b: seq<byte>, verb: Method, uri: seq<byte>, version: seq<byte>)
    requires |b| >= 8 && TextAt(b, 0, Token(verb)) && IsUri(uri) && TextAt(b, |Token(verb)|, uri)
    requires TextAt(b, |Token(verb)| + |uri|, [0x20]) && TextAt(b, |Token(verb)| + |uri| + 1, version)
    requires |Token(verb)| + |uri| + 1 + |version| < |b| && |Token(verb)| + |uri| + |version| + 2 < 4096
    requires var c := b[|Token(verb)| + |uri| + 1 + |version|]; c == 0x0D || c == 0x0A
    requires NoBreak(version) && version != Ascii("HTTP/1.0") && version != Ascii("HTTP/1.1")
    ensures Refused(b, 505)
  {
    hide After, Feed, Token, StepHeader, IsUri, Ascii;
    var i := |Token(verb)|;
    var n := i + |uri| + 1;
    Launched(b, verb);
    TargetFeeds(UriStart(verb), b, i, uri);
    var p := UriStart(verb).(uri := Some(i), uriLen := |uri|, state := ReqVersion);
    VersionRefused(p, b, n, version);
  }

  lemma VersionRefused(p: Progress, b: seq<byte>, n: nat, version: seq<byte>)
    requires p.state == ReqVersion && p.version.None? && TextAt(b, n, version) && NoBreak(version)
    requires n + |version| < |b| && n + |version| + 1 < 4096
    requires b[n + |version|] == 0x0D || b[n + |version|] == 0x0A
    requires version != Ascii("HTTP/1.0") && version != Ascii("HTTP/1.1")
    ensures Feed(p, b, n).state == Failed && Feed(p, b, n).status == 505
  {
    hide Feed, Ascii, VersionOf, StepHeader;
    var e := n + |version|;
    KnownVersions(version);
    if version == [] {
      VersionRead(p, b, n, n);
      FailsAt(p, b, n, 505);
    } else {
      var q := p.(version := Some(n));
      assert b[n] == version[0];
      VersionFirst(p, b, n);
      assert forall k :: n + 1 <= k < e ==> b[k] == version[k - n];
      VersionRun(q, b, n + 1, e);
      VersionRead(q, b, n, e);
      FailsAt(q, b, e, 505);
    }
  }

  lemma VersionFirst(p: Progress, b: seq<byte>, n: nat)
    requires p.state == ReqVersion && p.version.None? && n < |b| && n + 1 < 4096 && !IsLineEnd(b[n])
    ensures Feed(p, b, n) == Feed(p.(version := Some(n)), b, n + 1)
  {
    assert b[..n + 1][n] == b[n];
    OneStep(p, b, n, p.(version := Some(n)));
  }

  lemma VersionRead(q: Progress, b: seq<byte>, n: nat, e: nat)
    requires q.state == ReqVersion && n <= e < |b| && IsLineEnd(b[e])
    requires q.version == Some(n) || (q.version.None? && n == e)
    requires VersionOf(b[n..e]).None?
    ensures StepHeader(q, b[..e + 1]).state == Failed && StepHeader(q, b[..e + 1]).status == 505
  {
    assert b[..e + 1][e] == b[e] && Sub(b[..e + 1], n, e - n) == b[n..e];
    hide VersionOf;
  }

  // The two versions that are served.
  lemma KnownVersions(t: seq<byte>)
    ensures VersionOf(t) == Some(HTTP_1_0) <==> t == Ascii("HTTP/1.0")
    ensures VersionOf(t) == Some(HTTP_1_1) <==> t == Ascii("HTTP/1.1")
    ensures VersionOf(t).None? <==> t != Ascii("HTTP/1.0") && t != Ascii("HTTP/1.1")
  {
    SameText("HTTP/1.0", [0x48, 0x54, 0x54, 0x50, 0x2F, 0x31, 0x2E, 0x30]);
    SameText("HTTP/1.1", [0x48, 0x54, 0x54, 0x50, 0x2F, 0x31, 0x2E, 0x31]);
    hide Ascii;
    if |t| == 8 && t[..5] == HTTP_SLASH {
      assert t == t[..5] + [t[5], t[6], t[7]];
    }
  }

  // ---------------------------------------------------------------- the fields

  // `b` begins with this request line and these fields, `n` bytes in all.
  predicate Begins(b: seq<byte>, m: Message, n: nat) {
    && n == RequestLineLength(m) + FieldsLength(m.fields) && n < 4096
    && LineAt(b, m) && IsUri(m.uri) && FieldsAt(b, RequestLineLength(m), m.fields)
    && |m.fields| <= 32 && (forall k :: 0 <= k < |m.fields| ==> ValidField(m.fields[k]))
    && DeclaredLength(m.fields).Some?
  }

  lemma BegunFeeds(b: seq<byte>, m: Message, n: nat) returns (p: Progress)
    requires Begins(b, m, n)
    ensures n <= |b| && After(b) == Feed(p, b, n) && ParsedSoFar(p, b, n, m.fields)
  {
    hide LineAt, FieldsAt, TextAt, IsUri, DeclaredLength, LastNamed, ValidField, After, Feed, EndText, Token;
    var line := LineFeeds(b, m);
    assert m.fields[..0] == [] && m.fields[0..] == m.fields;
    p := FieldsFeed(line, b, RequestLineLength(m), m.fields, 0);
  }

  /** Behind 32 fields another one is refused with 431, and a name that is empty with 400. */
  lemma NoFurtherField(b: seq<byte>, m: Message, n: nat)
    requires Begins(b, m, n) && n < |b| && n + 1 < 4096
    ensures |m.fields| == 32 && b[n] != 0x0D && b[n] != 0x0A && b[n] != 0x3A ==> Refused(b, 431)
    ensures b[n] == 0x3A ==> Refused(b, 400)
  {
    hide Begins, After, Feed, StepHeader;
    var p := BegunFeeds(b, m, n);
    KeyRefused(p, b, n, m.fields);
    if b[n] == 0x3A {
      FailsAt(p, b, n, 400);
    } else if |m.fields| == 32 && b[n] != 0x0D && b[n] != 0x0A {
      FailsAt(p, b, n, 431);
    }
  }

  lemma KeyRefused(p: Progress, b: seq<byte>, n: nat, fields: seq<Field>)
    requires ParsedSoFar(p, b, n, fields) && n < |b|
    ensures p.state == HeaderKey
    ensures |fields| == 32 && b[n] != 0x0D && b[n] != 0x0A && b[n] != 0x3A ==>
      StepHeader(p, b[..n + 1]).state == Failed && StepHeader(p, b[..n + 1]).status == 431
    ensures b[n] == 0x3A ==> StepHeader(p, b[..n + 1]).state == Failed && StepHeader(p, b[..n + 1]).status == 400
  {
    assert b[..n + 1][n] == b[n];
    hide DeclaredLength, LastNamed;
  }

  /** A field name with a space, a tab or a line end behind its first byte is refused with 400. */
  lemma BrokenName(b: seq<byte>, m: Message, n: nat, name: seq<byte>)
    requires Begins(b, m, n) && |m.fields| < 32 && name != [] && TextAt(b, n, name)
    requires name[0] != 0x0D && name[0] != 0x0A && name[0] != 0x3A
    requires forall k :: 1 <= k < |name| ==> !IsWhitespace(name[k]) && name[k] != 0x3A
    requires n + |name| < |b| && n + |name| + 1 < 4096
    requires var c := b[n + |name|]; c == 0x20 || c == 0x09 || c == 0x0D || c == 0x0A
    ensures Refused(b, 400)
  {
    hide Begins, After, Feed, StepHeader, TextAt;
    var p := BegunFeeds(b, m, n);
    var e := n + |name|;
    AtKey(p, b, n, m.fields);
    NameThere(b, n, name);
    NameBegins(p, b, n);
    var q := p.(current := Header(n, 0, None, 0), state := HeaderName);
    NameRun(q, b, n + 1, e);
    NameRefused(q, b, e);
    FailsAt(q, b, e, 400);
  }

  lemma AtKey(p: Progress, b: seq<byte>, n: nat, fields: seq<Field>)
    requires ParsedSoFar(p, b, n, fields)
    ensures p.state == HeaderKey && p.current == NO_HEADER && |p.headers| == |fields|
  {
    hide DeclaredLength, LastNamed;
  }

  lemma NameThere(b: seq<byte>, n: nat, name: seq<byte>)
    requires TextAt(b, n, name)
    ensures forall k :: n <= k < n + |name| ==> k < |b| && b[k] == name[k - n]
  {
  }

  lemma NameRefused(q: Progress, b: seq<byte>, e: nat)
    requires q.state == HeaderName && e < |b| && IsWhitespace(b[e])
    ensures StepHeader(q, b[..e + 1]).state == Failed && StepHeader(q, b[..e + 1]).status == 400
  {
    assert b[..e + 1][e] == b[e];
  }

  /** A field that must not be sent is refused with 400 at the end of its line: a Transfer-Encoding, a second
      Content-Length, or one that is not a number. */
  lemma ForbiddenField(b: seq<byte>, m: Message, n: nat, f: Field)
    requires Begins(b, m, n) && |m.fields| < 32 && FieldAt(b, n, f) && ValidField(f) && n + FieldLength(f) < 4096
    requires DeclaredLength(m.fields + [f]).None?
    ensures Refused(b, 400)
  {
    hide Begins, After, Feed, StepHeader, TextAt, ValidField, FieldAt, DeclaredLength, EndText, ParsedSoFar, Entry;
    hide StoreHeader, NameOf, ValueOf, HeaderWithin, NamesMatch;
    var p := BegunFeeds(b, m, n);
    var v := n + LineLength(f);
    FieldInHand(p, b, n, v, m.fields);
    EndThere(b, n, f);
    EndBytes(b, v, f.end);
    EntryTexts(b, n, f);
    EntryFeeds(p, b, n, f);
    var q := p.(current := Entry(f, n), state := HeaderValue);
    StoredTexts(q, b, v, m.fields);
    FieldIsStored(q, b[..v + 1], v, m.fields, f);
    StoreRefused(q, b, v);
    FailsAt(q, b, v, 400);
  }

  lemma StoreRefused(q: Progress, b: seq<byte>, v: nat)
    requires q.state == HeaderValue && v < |b| && IsLineEnd(b[v]) && StoreHeader(q, b[..v + 1]).None?
    ensures StepHeader(q, b[..v + 1]).state == Failed && StepHeader(q, b[..v + 1]).status == 400
  {
    assert b[..v + 1][v] == b[v];
    hide StoreHeader;
  }

  // ---------------------------------------------------------------- the end of the header section

  /** The empty line's carriage return without a line feed behind it is refused with 400. */
  lemma LoneReturn(b: seq<byte>, m: Message, n: nat)
    requires Begins(b, m, n) && n + 1 < |b| && n + 2 < 4096 && b[n] == 0x0D && b[n + 1] != 0x0A
    ensures Refused(b, 400)
  {
    hide Begins, After, Feed, StepHeader;
    var p := BegunFeeds(b, m, n);
    AtKey(p, b, n, m.fields);
    ReturnFeeds(p, b, n);
    ReturnRefused(p.(state := HeaderEnd), b, n + 1);
    FailsAt(p.(state := HeaderEnd), b, n + 1, 400);
  }

  // Behind the carriage return of any of the three kinds of line.
  lemma ReturnRefused(q: Progress, b: seq<byte>, e: nat)
    requires (q.state == HeaderEnd || q.state == ReqLf || q.state == HeaderLf) && e < |b| && b[e] != 0x0A
    ensures StepHeader(q, b[..e + 1]).state == Failed && StepHeader(q, b[..e + 1]).status == 400
  {
    assert b[..e + 1][e] == b[e];
  }

  /** A declared length is refused with 413 exactly when head and body together do not stay below 64 KiB. */
  lemma BodyTooLong(b: seq<byte>, m: Message, n: nat)
    requires Begins(b, m, n) && TextAt(b, n, EndText(m.sectionEnd)) && n + |EndText(m.sectionEnd)| < 4096
    ensures Refused(b, 413) <==> n + |EndText(m.sectionEnd)| + DeclaredLength(m.fields).value >= 65536
  {
    hide Begins, After, Feed, StepHeader, TextAt, EndText, StartBody;
    var p := BegunFeeds(b, m, n);
    var h := n + |EndText(m.sectionEnd)|;
    AtKey(p, b, n, m.fields);
    EndBytes(b, n, m.sectionEnd);
    SectionEnds(p, b, n, m.sectionEnd);
    BodyRefused(p, b, h, m.fields, n);
  }

  lemma BodyRefused(p: Progress, b: seq<byte>, h: nat, fields: seq<Field>, n: nat)
    requires ParsedSoFar(p, b, n, fields) && h < 4096 && h <= |b|
    ensures var q := Feed(StartBody(p.(state := Body), h), b, h);
      q.state == Failed && q.status == 413 <==> h + DeclaredLength(fields).value >= 65536
  {
    hide DeclaredLength, LastNamed;
    var t := StartBody(p.(state := Body), h);
    if Settled(t) {
      FeedSettled(t, b, h);
    } else if h < |b| {
      FeedBody(t, b, h);
    }
  }

  /** A header section that is still open after 4095 bytes is refused with 431 by the next one. */
  lemma HeadTooLong(b: seq<byte>)
    requires |b| >= 4096 && !Settled(After(b[..4095])) && After(b[..4095]).state != Body
    ensures Refused(b, 431)
  {
    hide After, StepHeader;
    AfterFeed(b, 4095);
    var p := After(b[..4095]);
    FeedSettled(Fail(p, 431), b, 4096);
  }

  /** A target that runs through the first 4095 bytes without a space or a line end, for one. */
  lemma LongTarget(b: seq<byte>, verb: Method)
    requires |b| >= 4096 && TextAt(b, 0, Token(verb))
    requires forall k :: |Token(verb)| <= k < 4095 ==> b[k] != 0x20 && b[k] != 0x0D && b[k] != 0x0A
    ensures Refused(b, 431)
  {
    hide After, Feed, Token;
    var c, i := b[..4095], |Token(verb)|;
    assert TextAt(c, 0, Token(verb)) by {
      assert c[0..i] == b[0..i];
    }
    Launched(c, verb);
    TargetBegins(UriStart(verb), c, i);
    UriRun(UriStart(verb).(uri := Some(i)), c, i + 1, 4095);
    NothingLeft(UriStart(verb).(uri := Some(i)), c);
    HeadTooLong(b);
  }

  lemma NothingLeft(p: Progress, b: seq<byte>)
    ensures Feed(p, b, |b|) == p
  {
  }
}
