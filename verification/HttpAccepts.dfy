/** The parser accepts nothing but well-formed requests: whatever it takes is a printed request and something
    behind it. */
module HttpAccepts {
  import opened Common
  import opened HttpParser
  import opened HttpFields
  import opened HttpMessage
  import opened HttpRoundTrip

  // ---------------------------------------------------------------- reading on

  predicate InHead(p: Progress) {
    !Settled(p) && p.state != Body && p.state != ReqMethod
  }

  // In the header section a request that is going to be accepted has a next byte, which is not refused.
  lemma NextByte(p: Progress, b: seq<byte>, i: nat) returns (q: Progress)
    requires InHead(p) && i <= |b| && Feed(p, b, i).state == Done
    ensures i < |b| && i + 1 < MAX_HEADER_BYTES && q == StepHeader(p, b[..i + 1]) && q.state != Failed
    ensures q.state != Body ==> Feed(p, b, i) == Feed(q, b, i + 1)
  {
    hide StepHeader;
    q := if i < |b| then StepHeader(p, b[..i + 1]) else p;
    FeedIfFailed(p, b, i);
  }

  lemma FeedIfFailed(p: Progress, b: seq<byte>, i: nat)
    requires i < |b|
    ensures Feed(p, b, i) == Feed(Step(p, b[..i + 1]), b, i + 1)
    ensures Step(p, b[..i + 1]).state == Failed ==> Feed(p, b, i).state == Failed
  {
    if Step(p, b[..i + 1]).state == Failed {
      FeedSettled(Step(p, b[..i + 1]), b, i + 1);
    }
  }

  // ---------------------------------------------------------------- the request line

  lemma {:induction false} UriEndFound(p: Progress, b: seq<byte>, i: nat) returns (n: nat)
    requires p.state == ReqUri && p.uri.Some? && i <= |b| && Feed(p, b, i).state == Done
    ensures i <= n < |b| && n + 1 < MAX_HEADER_BYTES && b[n] == SPACE
    ensures forall k :: i <= k < n ==> b[k] != SPACE && !IsLineEnd(b[k])
    decreases |b| - i
  {
    hide Feed;
    var q := NextByte(p, b, i);
    assert b[..i + 1][i] == b[i];
    n := i;
    if b[i] != SPACE {
      n := UriEndFound(q, b, i + 1);
    }
  }

  lemma TargetFound(p: Progress, b: seq<byte>, i: nat) returns (uri: seq<byte>)
    requires p.state == ReqUri && p.uri.None? && i <= |b| && Feed(p, b, i).state == Done
    ensures IsUri(uri) && TextAt(b, i, uri) && TextAt(b, i + |uri|, [SPACE]) && i + |uri| + 1 < MAX_HEADER_BYTES
  {
    hide Feed;
    var q := NextByte(p, b, i);
    assert b[..i + 1][i] == b[i];
    var n := UriEndFound(q, b, i + 1);
    uri := b[i..n];
  }

  lemma {:induction false} VersionEndFound(p: Progress, b: seq<byte>, i: nat) returns (n: nat)
    requires p.state == ReqVersion && p.version.Some? && i <= |b| && Feed(p, b, i).state == Done
    ensures i <= n < |b| && n + 1 < MAX_HEADER_BYTES && IsLineEnd(b[n])
    ensures forall k :: i <= k < n ==> !IsLineEnd(b[k])
    decreases |b| - i
  {
    hide Feed;
    var q := NextByte(p, b, i);
    assert b[..i + 1][i] == b[i];
    n := i;
    if !IsLineEnd(b[i]) {
      n := VersionEndFound(q, b, i + 1);
    }
  }

  lemma VersionIs(t: seq<byte>)
    requires VersionOf(t).Some?
    ensures t == VersionText(VersionOf(t).value)
  {
    assert t == t[..5] + [t[5], t[6], t[7]];
  }

  lemma VersionFound(p: Progress, b: seq<byte>, i: nat) returns (v: Version, end: LineEnd)
    requires p.state == ReqVersion && p.version.None? && i <= |b| && Feed(p, b, i).state == Done
    ensures TextAt(b, i, VersionText(v)) && TextAt(b, i + 8, EndText(end)) && i + 8 + |EndText(end)| < MAX_HEADER_BYTES
  {
    hide Feed, VersionOf, VersionText, Sub;
    var q := VersionBegun(p, b, i);
    var n := VersionEndFound(q, b, i + 1);
    VersionRun(q, b, i + 1, n);
    v, end := VersionTaken(q, b, i, n);
  }

  lemma VersionBegun(p: Progress, b: seq<byte>, i: nat) returns (q: Progress)
    requires p.state == ReqVersion && p.version.None? && i <= |b| && Feed(p, b, i).state == Done
    ensures i < |b| && q == p.(version := Some(i)) && Feed(p, b, i) == Feed(q, b, i + 1)
  {
    hide Feed;
    q := NextByte(p, b, i);
    assert b[..i + 1][i] == b[i];
  }

  lemma VersionTaken(q: Progress, b: seq<byte>, i: nat, n: nat) returns (v: Version, end: LineEnd)
    requires q.state == ReqVersion && q.version == Some(i) && i < n < |b| && IsLineEnd(b[n])
    requires Feed(q, b, n).state == Done
    ensures TextAt(b, i, VersionText(v)) && TextAt(b, i + 8, EndText(end)) && i + 8 + |EndText(end)| < MAX_HEADER_BYTES
  {
    hide Feed, VersionOf, VersionText;
    var r := NextByte(q, b, n);
    assert b[..n + 1][n] == b[n] && Sub(b[..n + 1], i, n - i) == b[i..n];
    VersionIs(b[i..n]);
    v, end := VersionOf(b[i..n]).value, if b[n] == CR then CrLf else BareLf;
    if b[n] == CR {
      var s := NextByte(r, b, n + 1);
      assert b[..n + 2][n + 1] == b[n + 1];
    }
  }

  // ---------------------------------------------------------------- a field

  lemma {:induction false} NameEndFound(p: Progress, b: seq<byte>, i: nat) returns (n: nat)
    requires p.state == HeaderName && i <= |b| && Feed(p, b, i).state == Done
    ensures i <= n < |b| && n + 1 < MAX_HEADER_BYTES && b[n] == HEADER_COLON
    ensures forall k :: i <= k < n ==> !IsWhitespace(b[k]) && b[k] != HEADER_COLON
    decreases |b| - i
  {
    hide Feed;
    var q := NextByte(p, b, i);
    assert b[..i + 1][i] == b[i];
    n := i;
    if b[i] != HEADER_COLON {
      n := NameEndFound(q, b, i + 1);
    }
  }

  lemma NameFound(p: Progress, b: seq<byte>, i: nat) returns (name: seq<byte>)
    requires p.state == HeaderKey && p.current == NO_HEADER && i < |b| && !IsLineEnd(b[i])
    requires Feed(p, b, i).state == Done
    ensures |p.headers| < MAX_HEADERS && FieldName(name) && TextAt(b, i, name) && TextAt(b, i + |name|, [HEADER_COLON])
    ensures i + |name| + 1 < MAX_HEADER_BYTES
  {
    hide Feed;
    var q := NextByte(p, b, i);
    assert b[..i + 1][i] == b[i];
    var n := NameEndFound(q, b, i + 1);
    name := b[i..n];
  }

  // The end of the line, and the parser in front of it.
  lemma {:induction false} ValueEndFound(p: Progress, b: seq<byte>, i: nat) returns (n: nat, q: Progress)
    requires p.state == HeaderValue && i <= |b| && Feed(p, b, i).state == Done
    ensures i <= n < |b| && IsLineEnd(b[n]) && q.state == HeaderValue && Feed(p, b, i) == Feed(q, b, n)
    ensures forall k :: i <= k < n ==> !IsLineEnd(b[k])
    decreases |b| - i
  {
    hide Feed, StoreHeader;
    n, q := i, p;
    var next := NextByte(p, b, i);
    assert b[..i + 1][i] == b[i];
    if !IsLineEnd(b[i]) {
      n, q := ValueEndFound(next, b, i + 1);
    }
  }

  lemma LineEndFound(p: Progress, b: seq<byte>, i: nat) returns (end: LineEnd)
    requires p.state == HeaderValue && i < |b| && IsLineEnd(b[i]) && Feed(p, b, i).state == Done
    ensures StoreHeader(p, b[..i + 1]).Some? && TextAt(b, i, EndText(end)) && i + |EndText(end)| < MAX_HEADER_BYTES
  {
    hide Feed, StoreHeader;
    var q := NextByte(p, b, i);
    assert b[..i + 1][i] == b[i];
    end := if b[i] == CR then CrLf else BareLf;
    if b[i] == CR {
      var r := NextByte(q, b, i + 1);
      assert b[..i + 2][i + 1] == b[i + 1];
    }
  }

  // A text without line ends is a value and what surrounds it.
  lemma {:induction false} Trim(t: seq<byte>) returns (before: seq<byte>, value: seq<byte>, after: seq<byte>)
    requires forall k :: 0 <= k < |t| ==> !IsLineEnd(t[k])
    ensures t == before + (value + after) && IsBlank(before) && IsValue(value) && IsBlank(after)
    decreases |t|
  {
    before, value, after := [], t, [];
    if t != [] && IsWhitespace(t[0]) {
      before, value, after := Trim(t[1..]);
      before := [t[0]] + before;
    } else if t != [] && IsWhitespace(t[|t| - 1]) {
      before, value, after := Trim(t[..|t| - 1]);
      after := after + [t[|t| - 1]];
    }
  }

  // A line of field text is a field.
  lemma FieldOf(b: seq<byte>, i: nat, name: seq<byte>, v: nat, end: LineEnd) returns (f: Field)
    requires FieldName(name) && TextAt(b, i, name) && TextAt(b, i + |name|, [HEADER_COLON])
    requires i + |name| + 1 <= v <= |b| && (forall k :: i + |name| + 1 <= k < v ==> !IsLineEnd(b[k]))
    requires TextAt(b, v, EndText(end))
    ensures FieldAt(b, i, f) && ValidField(f) && i + LineLength(f) == v && f.end == end
  {
    hide FieldName, IsBlank, IsValue, EndText;
    var n := i + |name| + 1;
    var before, value, after := Trim(b[n..v]);
    f := Field(name, before, value, after, end);
    TextsOf(b, n, v, before, value, after);
    hide TextAt;
  }

  lemma TextsOf(b: seq<byte>, n: nat, v: nat, x: seq<byte>, y: seq<byte>, z: seq<byte>)
    requires n <= v <= |b| && b[n..v] == x + (y + z)
    ensures TextAt(b, n, x) && TextAt(b, n + |x|, y) && TextAt(b, n + |x| + |y|, z) && v == n + |x| + |y| + |z|
  {
    var t := b[n..v];
    assert |t| == |x| + |y| + |z|;
    assert t[..|x|] == x && t[|x|..][..|y|] == y && t[|x|..][|y|..] == z;
    assert b[n..n + |x|] == t[..|x|] && b[n + |x|..n + |x| + |y|] == t[|x|..][..|y|];
    assert b[n + |x| + |y|..v] == t[|x|..][|y|..];
  }

  lemma FieldFound(p: Progress, b: seq<byte>, i: nat, fields: seq<Field>) returns (f: Field)
    requires ParsedSoFar(p, b, i, fields) && i < |b| && !IsLineEnd(b[i]) && Feed(p, b, i).state == Done
    ensures FieldAt(b, i, f) && ValidField(f) && |fields| < MAX_HEADERS && i + FieldLength(f) < MAX_HEADER_BYTES
    ensures DeclaredLength(fields + [f]).Some?
  {
    hide Feed, FieldAt, ValidField, TextAt, FieldName, DeclaredLength, ParsedSoFar, StoreHeader;
    hide LineLength, EndText, NamesMatch;
    FieldInHand(p, b, i, i, fields);
    var name := NameFound(p, b, i);
    NameFeeds(p, b, i, name);
    TextThere(b, i + |name|, [HEADER_COLON]);
    var v, q := ValueEndFound(p.(current := Header(i, |name|, None, 0), state := HeaderValue), b, i + |name| + 1);
    var end := LineEndFound(q, b, v);
    f := FieldOf(b, i, name, v, end);
    FieldTaken(p, b, i, fields, f);
  }

  // A field that is not refused may be sent.
  lemma FieldTaken(p: Progress, b: seq<byte>, i: nat, fields: seq<Field>, f: Field)
    requires ParsedSoFar(p, b, i, fields) && FieldAt(b, i, f) && ValidField(f) && |fields| < MAX_HEADERS
    requires i + FieldLength(f) < MAX_HEADER_BYTES && Feed(p, b, i).state == Done
    ensures DeclaredLength(fields + [f]).Some?
  {
    hide Feed, FieldAt, ValidField, TextAt, DeclaredLength, ParsedSoFar, StoreHeader, Entry, NameOf;
    hide ValueOf, HeaderWithin;
    hide LineLength, EndText, NamesMatch, EqualFold;
    var v := i + LineLength(f);
    EndThere(b, i, f);
    EndBytes(b, v, f.end);
    FieldInHand(p, b, i, v, fields);
    EntryTexts(b, i, f);
    EntryFeeds(p, b, i, f);
    var r := p.(current := Entry(f, i), state := HeaderValue);
    var end := LineEndFound(r, b, v);
    StoredTexts(r, b, v, fields);
    FieldIsStored(r, b[..v + 1], v, fields, f);
  }

  // ---------------------------------------------------------------- all fields

  lemma SectionEndFound(p: Progress, b: seq<byte>, i: nat) returns (end: LineEnd)
    requires p.state == HeaderKey && i < |b| && IsLineEnd(b[i]) && Feed(p, b, i).state == Done
    ensures TextAt(b, i, EndText(end)) && i + |EndText(end)| < MAX_HEADER_BYTES
  {
    hide Feed;
    var q := NextByte(p, b, i);
    assert b[..i + 1][i] == b[i];
    end := if b[i] == CR then CrLf else BareLf;
    if b[i] == CR {
      var r := NextByte(q, b, i + 1);
      assert b[..i + 2][i + 1] == b[i + 1];
    }
  }

  lemma Progresses(f: Field)
    ensures FieldLength(f) > 0
  {
  }

  lemma {:induction false} FieldsFound(p: Progress, b: seq<byte>, i: nat, fields: seq<Field>)
    returns (all: seq<Field>, end: LineEnd, q: Progress)
    requires ParsedSoFar(p, b, i, fields) && |fields| <= MAX_HEADERS && Feed(p, b, i).state == Done
    requires forall k :: 0 <= k < |fields| ==> ValidField(fields[k])
    ensures fields <= all && |all| <= MAX_HEADERS && (forall k :: 0 <= k < |all| ==> ValidField(all[k]))
    ensures var e := i + FieldsLength(all[|fields|..]);
      && FieldsAt(b, i, all[|fields|..]) && TextAt(b, e, EndText(end)) && e + |EndText(end)| < MAX_HEADER_BYTES
      && ParsedSoFar(q, b, e, all) && Feed(p, b, i) == Feed(q, b, e) && SameLine(p, q)
    decreases |b| - i
  {
    hide Feed, FieldAt, ValidField, TextAt, DeclaredLength, EndText, FieldLength, PointsTo, NameOf;
    hide ValueOf, HeaderWithin;
    var next := NextByte(p, b, i);
    if IsLineEnd(b[i]) {
      all, q := fields, p;
      end := SectionEndFound(p, b, i);
      assert all[|fields|..] == [];
    } else {
      var f := FieldFound(p, b, i, fields);
      var r := FieldFeeds(p, b, i, fields, f);
      Progresses(f);
      all, end, q := FieldsFound(r, b, i + FieldLength(f), fields + [f]);
      var more := all[|fields|..];
      assert more[0] == f && more[1..] == all[|fields + [f]|..];
    }
  }

  // ---------------------------------------------------------------- whole requests

  lemma TokenIs(b: seq<byte>)
    requires |b| >= 8 && MethodOf(b[..8]).Some?
    ensures TextAt(b, 0, Token(MethodOf(b[..8]).value))
  {
    var t := Token(MethodOf(b[..8]).value);
    assert b[0..|t|] == b[..8][..|t|];
  }

  lemma LineFound(b: seq<byte>) returns (m: Message)
    requires After(b).state == Done
    ensures LineAt(b, m) && IsUri(m.uri) && RequestLineLength(m) < MAX_HEADER_BYTES
  {
    hide After, Feed, MethodOf, Token, TextAt, IsUri, VersionText, EndText;
    LongEnough(b);
    LaunchFeeds(b);
    TokenIs(b);
    var verb := MethodOf(b[..8]).value;
    var i, start := |Token(verb)|, UriStart(verb);
    var uri := TargetFound(start, b, i);
    TargetFeeds(start, b, i, uri);
    TextThere(b, i + |uri|, [SPACE]);
    var version, end := VersionFound(start.(uri := Some(i), uriLen := |uri|, state := ReqVersion), b, i + |uri| + 1);
    m := Message(verb, uri, version, end, [], CrLf, []);
  }

  lemma LongEnough(b: seq<byte>)
    requires After(b).state == Done
    ensures |b| >= 8
  {
  }

  /** Whatever the parser accepts is a well-formed request and something behind it. */
  lemma AcceptedIsPrinted(b: seq<byte>) returns (m: Message, rest: seq<byte>)
    requires After(b).state == Done
    ensures ValidMessage(m) && b == Print(m) + rest
  {
    hide After, Feed, Token, TextAt, IsUri, VersionText, EndText, DeclaredLength, ParsedSoFar;
    hide ValidField, FieldsAt, StartBody;
    hide FieldsLength, Print;
    var line := LineFound(b);
    var p := LineFeeds(b, line);
    var i := RequestLineLength(line);
    var fields, end, q := FieldsFound(p, b, i, []);
    assert fields[0..] == fields;
    var h := i + FieldsLength(fields) + |EndText(end)|;
    LengthKnown(q, b, h - |EndText(end)|, fields);
    TextThere(b, h - |EndText(end)|, EndText(end));
    SectionEnds(q, b, h - |EndText(end)|, end);
    BodyFeeds(q, b, h);
    m := line.(fields := fields, sectionEnd := end, body := b[h..h + q.contentLength]);
    rest := b[h + q.contentLength..];
    BodyIs(b, h, q.contentLength);
    PrintedByParts(b, m, rest);
  }

  lemma LengthKnown(q: Progress, b: seq<byte>, e: nat, fields: seq<Field>)
    requires ParsedSoFar(q, b, e, fields)
    ensures q.state == HeaderKey && q.bodyBytesRead == 0 && q.body.None?
    ensures DeclaredLength(fields) == Some(q.contentLength)
  {
  }

  lemma BodyIs(b: seq<byte>, h: nat, n: nat)
    requires h + n <= |b|
    ensures TextAt(b, h, b[h..h + n]) && Behind(b, h + n, b[h + n..])
  {
  }

  /** The parser accepts exactly the texts that begin with a well-formed request. */
  lemma AcceptsExactly(b: seq<byte>)
    ensures After(b).state == Done <==> exists m :: ValidMessage(m) && Print(m) <= b
  {
    hide After, Print, ValidMessage;
    if After(b).state == Done {
      var m, rest := AcceptedIsPrinted(b);
      assert ValidMessage(m) && Print(m) <= b;
    }
    if m :| ValidMessage(m) && Print(m) <= b {
      ParsePrinted(m, b[|Print(m)|..]);
      assert b == Print(m) + b[|Print(m)|..];
    }
  }

  // ---------------------------------------------------------------- whitespace in names

  predicate HasWhitespace(t: seq<byte>) {
    exists k :: 0 <= k < |t| && IsWhitespace(t[k])
  }

  /** Of an accepted request, some recorded name contains whitespace exactly when a field line begins with a space or
      a tab. */
  lemma WhitespaceInNames(m: Message, rest: seq<byte>)
    requires ValidMessage(m)
    ensures var b := Print(m) + rest;
      (exists k :: 0 <= k < |After(b).headers| && HasWhitespace(NameOf(After(b).headers[k], b))) <==>
      (exists k :: 0 <= k < |m.fields| && (m.fields[k].name[0] == SPACE || m.fields[k].name[0] == TAB))
  {
    hide After, Print, NameOf, ValueOf, PointsTo;
    var b := Print(m) + rest;
    ParsePrinted(m, rest);
    forall k | 0 <= k < |m.fields|
      ensures HasWhitespace(NameOf(After(b).headers[k], b)) <==>
        m.fields[k].name[0] == SPACE || m.fields[k].name[0] == TAB
    {
      RecordedNames(b, k);
    }
  }

  // A request with such a line.
  const SPACED := Message(
    GET, [0x2F], HTTP_1_1, CrLf, [Field([SPACE, 0x61], [], [], [], CrLf)], CrLf, [])

  /** So a recorded name can contain a space. */
  lemma SpaceInName(rest: seq<byte>)
    ensures var b := Print(SPACED) + rest; var p := After(b);
      p.state == Done && |p.headers| == 1 && NameOf(p.headers[0], b) == [SPACE, 0x61]
  {
    assert DeclaredLength(SPACED.fields[..0]) == Some(0);
    assert FieldsLength(SPACED.fields[1..]) == 0;
    hide After, Print;
    ParsePrinted(SPACED, rest);
  }
}
