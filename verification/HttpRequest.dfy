/** The parser object of src/http_request.c: one buffer, a header table and the fields that
    parse_chunk updates in place. */
module HttpRequest {
  import opened Common
  import opened HttpParser

  // The error codes of parse_chunk.
  datatype Code = OK | MORE_DATA_NEEDED | PARSE_FAILED

  function CodeOf(state: State): Code {
    if state == Done then OK else if state == Failed then PARSE_FAILED else MORE_DATA_NEEDED
  }

  class Request {
    const buf: array<byte>
    var bufLen: nat
    const headers: array<Header>
    var headerCount: nat

    var state: State
    var status: nat
    var verb: Method
    var verbLen: nat
    var uri: Option<nat>
    var uriLen: nat
    var version: Option<nat>
    var versionLen: nat
    var httpVersion: Version
    var contentLength: nat
    var contentType: Option<nat>
    var host: Option<nat>
    var body: Option<nat>
    var bodyBytesRead: nat

    ghost predicate Valid()
      reads this, headers
    {
      && buf.Length == MAX_REQUEST_BYTES && bufLen <= MAX_REQUEST_BYTES
      && headers.Length == MAX_HEADERS && headerCount <= MAX_HEADERS
      && (forall k :: headerCount < k < MAX_HEADERS ==> headers[k] == NO_HEADER)
    }

    ghost function Received(): seq<byte>
      requires Valid()
      reads this, headers, buf
    {
      buf[..bufLen]
    }

    // The entry behind the complete headers.
    ghost function Current(): Header
      requires Valid()
      reads this, headers
    {
      if headerCount < MAX_HEADERS then headers[headerCount] else NO_HEADER
    }

    ghost function View(): Progress
      requires Valid()
      reads this, headers
    {
      Progress(state, status, verb, verbLen, uri, uriLen, version, versionLen, httpVersion,
               headers[..headerCount], Current(), contentLength, contentType, host, body, bodyBytesRead)
    }

    constructor ()
      ensures Valid() && fresh(buf) && fresh(headers)
      ensures View() == START && bufLen == 0
    {
      buf := new byte[MAX_REQUEST_BYTES];
      headers := new Header[MAX_HEADERS](_ => NO_HEADER);
      bufLen, headerCount, state, status := 0, 0, ReqMethod, 200;
      verb, verbLen, uri, uriLen := GET, 0, None, 0;
      version, versionLen, httpVersion := None, 0, HTTP_1_0;
      contentLength, contentType, host, body, bodyBytesRead := 0, None, None, None, 0;
    }

    /** http_request_get_header among headers whose offsets lie in the first `n` bytes. */
    method GetHeader(name: seq<byte>, ghost n: nat) returns (index: Option<nat>)
      requires Valid() && name != [] && n <= buf.Length
      requires forall k :: 0 <= k < headerCount ==> HeaderWithin(headers[k], n)
      ensures index == FindHeader(headers[..headerCount], buf[..n], name)
    {
      var i := 0;
      while i < headerCount
        invariant 0 <= i <= headerCount
        invariant FindHeader(headers[..i], buf[..n], name) == None
      {
        var h := headers[i];
        assert headers[..headerCount][..i] == headers[..i] && headers[..headerCount][..i + 1] == headers[..i + 1];
        FindNext(headers[..headerCount], buf[..n], name, i);
        assert NameOf(h, buf[..n]) == buf[h.name..h.name + h.nameLen];
        if h.nameLen == |name| && SetBit5(buf[h.name]) == SetBit5(name[0]) {
          var equal := EqualsIgnoringCase(buf, h.name, name);
          if equal {
            return Some(i);
          }
        } else if h.nameLen == |name| {
          SameLetterSameBits(NameOf(h, buf[..n]), name);
        }
        i := i + 1;
      }
      index := None;
    }

    // The decimal loop of parse_header over the bytes at `from`.
    method ParseLength(from: nat, len: nat) returns (length: Option<nat>)
      requires from + len <= buf.Length
      ensures length == LengthOf(buf[from..from + len])
    {
      ghost var value := buf[from..from + len];
      if len == 0 {
        return None;
      }
      var n: nat := 0;
      var i := 0;
      while i < len
        invariant 0 <= i <= len && All(value[..i], IsDigit)
        invariant n == Decimal(value[..i]) <= SIZE_MAX
      {
        var c := buf[from + i];
        assert value[i] == c;
        if !IsDigit(c) {
          return None;
        }
        OverflowGuard(n, c - 0x30, SIZE_MAX);
        DecimalNext(value, i);
        if n > (SIZE_MAX - (c - 0x30)) / 10 {
          if All(value, IsDigit) {
            DecimalGrows(value, i + 1);
          }
          return None;
        }
        n := n * 10 + (c - 0x30);
        i := i + 1;
      }
      assert value[..i] == value;
      length := Some(n);
    }

    // parse_header for the entry behind the complete headers, whose value ends before byte `i`.
    method ParseHeader(i: nat) returns (ok: bool)
      requires Valid() && i < bufLen && headerCount < MAX_HEADERS && Within(View(), i)
      modifies `contentLength, `contentType, `host
      ensures Valid() && (ok <==> StoreHeader(old(View()), buf[..i + 1]).Some?)
      ensures View() == if ok then StoreHeader(old(View()), buf[..i + 1]).value else old(View())
    {
      hide StoreHeader, NewLength, HeaderKindOf;
      var h := headers[headerCount];
      ghost var b := buf[..i + 1];
      assert Current() == h;
      StoreByKind(View(), b);
      assert forall k :: 0 <= k < headerCount ==> headers[k] == View().headers[k];
      var kind := KindOf(h, b);
      ok := true;
      match kind
      case LengthHeader =>
        var length := LengthField(h, i);
        ok := length.Some?;
        if ok {
          contentLength := length.value;
        }
      case TypeHeader =>
        contentType := h.value;
      case EncodingHeader =>
        ok := false;
      case HostHeader =>
        host := h.value;
      case OtherHeader =>
    }

    // The Content-Length branch: an exact decimal value and no earlier field of that name.
    method LengthField(h: Header, i: nat) returns (length: Option<nat>)
      requires Valid() && i < bufLen && HeaderWithin(h, i + 1)
      requires forall k :: 0 <= k < headerCount ==> HeaderWithin(headers[k], i + 1)
      ensures length == NewLength(h, headers[..headerCount], buf[..i + 1])
    {
      hide FindHeader, Decimal, Sub;
      ghost var b := buf[..i + 1];
      length := None;
      if h.value.Some? {
        SubOf(b, h.value.value, h.valueLen);
        assert ValueOf(h, b) == buf[h.value.value..h.value.value + h.valueLen];
        length := ParseLength(h.value.value, h.valueLen);
      }
      var earlier := GetHeader(CONTENT_LENGTH, i + 1);
      if earlier.Some? {
        length := None;
      }
    }

    // The switch on the first letter of the name and the comparisons behind it.
    method KindOf(h: Header, ghost b: seq<byte>) returns (kind: HeaderKind)
      requires Valid() && b <= buf[..] && b != [] && HeaderWithin(h, |b|) && h.name < |b|
      ensures kind == HeaderKindOf(NameOf(h, b))
    {
      var letter := SetBit5(buf[h.name]);
      ghost var name := NameOf(h, b);
      assert name == buf[h.name..h.name + h.nameLen];
      LettersOfNames(name);
      var equal := false;
      if letter == 0x63 {
        if h.nameLen == 14 {
          equal := EqualsIgnoringCase(buf, h.name, CONTENT_LENGTH);
          return if equal then LengthHeader else OtherHeader;
        }
        if h.nameLen == 12 {
          equal := EqualsIgnoringCase(buf, h.name, CONTENT_TYPE);
          return if equal then TypeHeader else OtherHeader;
        }
      } else if letter == 0x74 {
        if h.nameLen == 17 {
          equal := EqualsIgnoringCase(buf, h.name, TRANSFER_ENCODING);
          return if equal then EncodingHeader else OtherHeader;
        }
      } else if letter == 0x68 {
        if h.nameLen == 4 {
          equal := EqualsIgnoringCase(buf, h.name, HOST);
          return if equal then HostHeader else OtherHeader;
        }
      }
      kind := OtherHeader;
    }

    // parse_version
    method ParseVersion(from: nat, len: nat) returns (v: Option<Version>)
      requires from + len <= buf.Length
      ensures v == VersionOf(buf[from..from + len])
    {
      ghost var text := buf[from..from + len];
      if len != 8 {
        return None;
      }
      assert text[..5] == [buf[from], buf[from + 1], buf[from + 2], buf[from + 3], buf[from + 4]];
      if buf[from] != 0x48 || buf[from + 1] != 0x54 || buf[from + 2] != 0x54 || buf[from + 3] != 0x50
         || buf[from + 4] != 0x2F || buf[from + 6] != 0x2E {
        return None;
      }
      if !IsDigit(buf[from + 5]) || !IsDigit(buf[from + 7]) {
        return None;
      }
      var major, minor := buf[from + 5] - 0x30, buf[from + 7] - 0x30;
      if major == 1 {
        if minor == 0 {
          return Some(HTTP_1_0);
        } else if minor == 1 {
          return Some(HTTP_1_1);
        }
      }
      v := None;
    }

    /** parse_method: the first eight bytes as one little-endian number, compared under masks that keep
        its lowest four to eight bytes. */
    method ParseMethod() returns (m: Option<Method>)
      requires buf.Length >= 8
      ensures m == MethodOf(buf[..8])
    {
      var b := buf[..8];
      MethodValues(b);
      var v4, v5, v6, v7, v8 := LittleEndian(b[..4]), LittleEndian(b[..5]), LittleEndian(b[..6]),
        LittleEndian(b[..7]), LittleEndian(b[..8]);
      if v4 == METHOD_VALUE_GET {
        return Some(GET);
      } else if v4 == METHOD_VALUE_PUT {
        return Some(PUT);
      }
      if v5 == METHOD_VALUE_POST {
        return Some(POST);
      } else if v5 == METHOD_VALUE_HEAD {
        return Some(HEAD);
      }
      if v6 == METHOD_VALUE_PATCH {
        return Some(PATCH);
      } else if v6 == METHOD_VALUE_TRACE {
        return Some(TRACE);
      }
      if v7 == METHOD_VALUE_DELETE {
        return Some(DELETE);
      }
      if v8 == METHOD_VALUE_OPTIONS {
        return Some(OPTIONS);
      }
      if v8 == METHOD_VALUE_CONNECT {
        return Some(CONNECT);
      }
      m := None;
    }

    method Refuse(newStatus: nat)
      requires Valid()
      modifies `state, `status
      ensures Valid() && View() == Fail(old(View()), newStatus)
    {
      state, status := Failed, newStatus;
    }

    method OnUri(i: nat)
      requires Valid() && i < bufLen && Within(View(), i) && state == ReqUri
      modifies `state, `status, `uri, `uriLen
      ensures Valid() && View() == StepUri(old(View()), buf[..i + 1])
    {
      hide HeaderWithin, InField;
      var c := buf[i];
      assert buf[..i + 1][i] == c;
      if uri.None? {
        uri := Some(i);
      }
      if c == SPACE {
        EndUri(i);
      } else if c == CR || c == LF {
        Refuse(400);
      }
    }

    // The end of the URI, which must not be empty.
    method EndUri(i: nat)
      requires Valid() && uri.Some? && uri.value <= i
      modifies `state, `status, `uriLen
      ensures Valid()
      ensures var r := old(View()).(uriLen := i - uri.value, state := ReqVersion);
        View() == if r.uriLen == 0 then Fail(r, 400) else r
    {
      uriLen := i - uri.value;
      state := ReqVersion;
      if uriLen == 0 {
        Refuse(400);
      }
    }

    method OnVersion(i: nat)
      requires Valid() && i < bufLen && Within(View(), i) && state == ReqVersion
      modifies `state, `status, `version, `versionLen, `httpVersion
      ensures Valid() && View() == StepVersion(old(View()), buf[..i + 1])
    {
      hide VersionOf, Sub;
      var c := buf[i];
      assert buf[..i + 1][i] == c;
      if version.None? {
        version := Some(i);
      }
      if c == CR || c == LF {
        EndVersion(i, c);
      }
    }

    // The end of the line: the version becomes known or is refused.
    method EndVersion(i: nat, c: byte)
      requires Valid() && i < bufLen && version.Some? && version.value <= i
      modifies `state, `status, `versionLen, `httpVersion
      ensures Valid()
      ensures var len := i - version.value;
        var r := old(View()).(versionLen := len, state := if c == CR then ReqLf else HeaderKey);
        match VersionOf(Sub(buf[..i + 1], version.value, len))
        case None => View() == Fail(r, 505)
        case Some(v) => View() == r.(httpVersion := v)
    {
      hide VersionOf, Sub;
      SubOf(buf[..i + 1], version.value, i - version.value);
      versionLen := i - version.value;
      state := if c == CR then ReqLf else HeaderKey;
      assert Sub(buf[..i + 1], version.value, versionLen) == buf[version.value..version.value + versionLen];
      var v := ParseVersion(version.value, versionLen);
      if v.None? {
        Refuse(505);
      } else {
        httpVersion := v.value;
      }
    }

    method OnKey(i: nat)
      requires Valid() && i < bufLen && Within(View(), i) && state == HeaderKey
      modifies `state, `status, headers
      ensures Valid() && View() == StepKey(old(View()), buf[..i + 1])
    {
      var c := buf[i];
      assert buf[..i + 1][i] == c;
      if c == CR {
        state := HeaderEnd;
      } else if c == LF {
        state := Body;
      } else if c == HEADER_COLON {
        Refuse(400);
      } else if headerCount >= MAX_HEADERS {
        Refuse(431);
      } else {
        headers[headerCount] := headers[headerCount].(name := i);
        state := HeaderName;
      }
    }

    method OnName(i: nat)
      requires Valid() && i < bufLen && Within(View(), i) && state == HeaderName
      modifies `state, `status, headers
      ensures Valid() && View() == StepName(old(View()), buf[..i + 1])
    {
      var c := buf[i];
      assert buf[..i + 1][i] == c;
      if IsWhitespace(c) {
        Refuse(400);
      } else if c == HEADER_COLON {
        assert HeaderWithin(Current(), i);
        headers[headerCount] := headers[headerCount].(nameLen := i - headers[headerCount].name);
        state := HeaderValue;
      }
    }

    method CountHeader()
      requires Valid() && headerCount < MAX_HEADERS
      modifies `headerCount, `state
      ensures Valid() && View() == NextHeader(old(View()))
    {
      headerCount := headerCount + 1;
      state := HeaderKey;
      assert headers[..headerCount] == old(headers[..headerCount]) + [old(Current())];
    }

    method OnValue(i: nat)
      requires Valid() && i < bufLen && Within(View(), i) && state == HeaderValue
      modifies this, headers
      ensures Valid() && bufLen == old(bufLen) && View() == StepValue(old(View()), buf[..i + 1])
    {
      hide StoreHeader;
      var c := buf[i];
      assert buf[..i + 1][i] == c;
      if IsLineEnd(c) {
        var ok := ParseHeader(i);
        if !ok {
          Refuse(400);
        } else if c == CR {
          state := HeaderLf;
        } else {
          CountHeader();
        }
      } else if !IsWhitespace(c) {
        assert HeaderWithin(Current(), i);
        var h := headers[headerCount];
        var from := if h.value.None? then i else h.value.value;
        headers[headerCount] := h.(value := Some(from), valueLen := i - from + 1);
      }
    }

    method OnLineFeed(i: nat)
      requires Valid() && i < bufLen && Within(View(), i)
      requires state == ReqLf || state == HeaderLf || state == HeaderEnd
      modifies this
      ensures Valid() && bufLen == old(bufLen) && View() == StepHeader(old(View()), buf[..i + 1])
    {
      assert buf[..i + 1][i] == buf[i];
      if buf[i] != LF {
        Refuse(400);
      } else if state == ReqLf {
        state := HeaderKey;
      } else if state == HeaderEnd {
        state := Body;
      } else {
        CountHeader();
      }
    }

    // The switch of parse_chunk for one byte of the header section.
    method OnHeaderByte(i: nat)
      requires Valid() && i < bufLen && Within(View(), i)
      requires !Settled(View()) && state != ReqMethod && state != Body
      modifies this, headers
      ensures Valid() && bufLen == old(bufLen) && View() == StepHeader(old(View()), buf[..i + 1])
    {
      if state == ReqUri {
        OnUri(i);
      } else if state == ReqVersion {
        OnVersion(i);
      } else if state == HeaderKey {
        OnKey(i);
      } else if state == HeaderName {
        OnName(i);
      } else if state == HeaderValue {
        OnValue(i);
      } else {
        OnLineFeed(i);
      }
    }

    // One turn of parse_chunk's loop in the header section.
    method OnByte(i: nat)
      requires Valid() && i < bufLen && Within(View(), i)
      requires !Settled(View()) && state != ReqMethod && state != Body
      modifies this, headers
      ensures Valid() && bufLen == old(bufLen) && View() == Step(old(View()), buf[..i + 1])
    {
      hide StepHeader;
      if i + 1 >= MAX_HEADER_BYTES {
        Refuse(431);
        return;
      }
      OnHeaderByte(i);
      if state == Body {
        var headerBytes := i + 1;
        if contentLength >= MAX_REQUEST_BYTES - headerBytes {
          Refuse(413);
        } else if contentLength == 0 {
          state := Done;
        } else {
          body := Some(headerBytes);
        }
      }
    }

    // The body case: all available bytes at once.
    method OnBody(i: nat)
      requires Valid() && i < bufLen && state == Body && bodyBytesRead < contentLength
      modifies `bodyBytesRead, `state
      ensures Valid() && View() == Feed(old(View()), buf[..bufLen], i)
    {
      FeedBody(View(), buf[..bufLen], i);
      var remaining := contentLength - bodyBytesRead;
      var available := bufLen - i;
      bodyBytesRead := bodyBytesRead + (if available < remaining then available else remaining);
      if bodyBytesRead == contentLength {
        state := Done;
      }
    }

    // The method case: waits for eight bytes, then goes back to the byte behind the token.
    method OnMethod() returns (next: nat)
      requires Valid() && bufLen >= 8 && View() == START
      modifies `state, `status, `verb, `verbLen
      ensures Valid() && state != ReqMethod && next <= 8 && Within(View(), next)
      ensures Feed(View(), Received(), next) == After(Received())
      ensures HasRoom(View(), next) || Settled(View())
      ensures state != Body && state != Done
    {
      hide After, Feed, MethodOf;
      ghost var b := buf[..bufLen];
      LaunchFeeds(b);
      assert b[..8] == buf[..8];
      var m := ParseMethod();
      if m.None? {
        Refuse(501);
        FeedSettled(View(), b, 0);
        next := 0;
      } else {
        verb, verbLen, state := m.value, |Token(m.value)| - 1, ReqUri;
        next := verbLen + 1;
        assert View() == UriStart(m.value);
      }
    }

    /** parse_chunk for the last `readBytes` bytes of the buffer, all earlier ones having been parsed:
        afterwards the parser stands where it would after any other division of the same bytes. */
    method ParseChunk(readBytes: nat) returns (code: Code)
      requires Valid() && readBytes <= bufLen
      requires View() == After(buf[..bufLen - readBytes]) && state != Failed
      modifies this, headers
      ensures Valid() && bufLen == old(bufLen)
      ensures View() == After(Received()) && code == CodeOf(state)
    {
      ghost var b := buf[..bufLen];
      var i := bufLen - readBytes;
      assert b[..i] == buf[..i];
      if state == Done {
        SettledStays(b, i);
        return OK;
      }
      AfterWithin(b[..i]);
      RoomAfter(b[..i]);
      if state == ReqMethod {
        if bufLen < 8 {
          return MORE_DATA_NEEDED;
        }
        i := OnMethod();
      } else {
        AfterFeed(b, i);
      }
      ParseFrom(i);
      code := CodeOf(state);
    }

    // One turn of it, which stays within the bytes received.
    method ParseByte(i: nat)
      requires Valid() && i < bufLen && Within(View(), i) && HasRoom(View(), i)
      requires !Settled(View()) && state != ReqMethod && state != Body
      modifies this, headers
      ensures Valid() && bufLen == old(bufLen) && View() == Step(old(View()), buf[..i + 1])
      ensures state != ReqMethod && Within(View(), i + 1) && (Settled(View()) || HasRoom(View(), i + 1))
    {
      hide Step, Within, HasRoom;
      ghost var p := View();
      StepWithin(p, buf[..i + 1]);
      StepKeepsRoom(p, buf[..i + 1]);
      OnByte(i);
    }

    // The loop of parse_chunk from byte `start` on, once the method is known.
    method ParseFrom(start: nat)
      requires Valid() && start <= bufLen && state != ReqMethod && Within(View(), start)
      requires Settled(View()) || HasRoom(View(), start)
      modifies this, headers
      ensures Valid() && bufLen == old(bufLen)
      ensures View() == Feed(old(View()), Received(), start)
    {
      hide Step, Within, HasRoom, StepHeader;
      ghost var b := buf[..bufLen];
      ghost var end := Feed(View(), b, start);
      var i := start;
      while i < bufLen
        invariant Valid() && bufLen == |b| && i <= bufLen
        invariant Feed(View(), b, i) == end
        invariant state != ReqMethod && Within(View(), i)
        invariant Settled(View()) || HasRoom(View(), i)
      {
        if state == Done || state == Failed {
          FeedSettled(View(), b, i);
          return;
        }
        if state == Body {
          RoomInBody(View(), i);
          OnBody(i);
          return;
        }
        ParseByte(i);
        assert b[..i + 1] == buf[..i + 1];
        i := i + 1;
      }
    }
  }

  lemma RoomInBody(p: Progress, n: nat)
    requires HasRoom(p, n) && p.state == Body
    ensures p.bodyBytesRead < p.contentLength
  {
  }

  lemma SubOf(b: seq<byte>, from: nat, len: nat)
    requires from + len <= |b|
    ensures Sub(b, from, len) == b[from..from + len]
  {
  }

  datatype HeaderKind = LengthHeader | TypeHeader | EncodingHeader | HostHeader | OtherHeader

  function HeaderKindOf(name: seq<byte>): HeaderKind {
    if EqualFold(name, CONTENT_LENGTH) then LengthHeader
    else if EqualFold(name, CONTENT_TYPE) then TypeHeader
    else if EqualFold(name, TRANSFER_ENCODING) then EncodingHeader
    else if EqualFold(name, HOST) then HostHeader
    else OtherHeader
  }

  function NewLength(h: Header, earlier: seq<Header>, b: seq<byte>): Option<nat> {
    if FindHeader(earlier, b, CONTENT_LENGTH).Some? then None else LengthOf(ValueOf(h, b))
  }

  lemma StoreByKind(p: Progress, b: seq<byte>)
    ensures StoreHeader(p, b) ==
      match HeaderKindOf(NameOf(p.current, b))
      case LengthHeader =>
        var n := NewLength(p.current, p.headers, b);
        if n.None? then None else Some(p.(contentLength := n.value))
      case TypeHeader => Some(p.(contentType := p.current.value))
      case EncodingHeader => None
      case HostHeader => Some(p.(host := p.current.value))
      case OtherHeader => Some(p)
  {
  }

  lemma LettersOfNames(name: seq<byte>)
    ensures EqualFold(name, CONTENT_LENGTH) ==> |name| == 14 && SetBit5(name[0]) == 0x63
    ensures EqualFold(name, CONTENT_TYPE) ==> |name| == 12 && SetBit5(name[0]) == 0x63
    ensures EqualFold(name, TRANSFER_ENCODING) ==> |name| == 17 && SetBit5(name[0]) == 0x74
    ensures EqualFold(name, HOST) ==> |name| == 4 && SetBit5(name[0]) == 0x68
  {
    if |name| == 14 {
      SameLetterSameBits(name, CONTENT_LENGTH);
    } else if |name| == 12 {
      SameLetterSameBits(name, CONTENT_TYPE);
    } else if |name| == 17 {
      SameLetterSameBits(name, TRANSFER_ENCODING);
    } else if |name| == 4 {
      SameLetterSameBits(name, HOST);
    }
  }

  // `c | 0x20`
  function SetBit5(c: byte): byte {
    if c / 32 % 2 == 1 then c else c + 32
  }

  lemma SameLetterSameBits(a: seq<byte>, b: seq<byte>)
    requires a != [] && |a| == |b|
    ensures EqualFold(a, b) ==> SetBit5(a[0]) == SetBit5(b[0])
  {
    if EqualFold(a, b) {
      assert Lower(a[0]) == Lower(b[0]);
    }
  }

  lemma {:induction false} FindNext(hs: seq<Header>, b: seq<byte>, name: seq<byte>, i: nat)
    requires i < |hs| && FindHeader(hs[..i], b, name) == None
    ensures FindHeader(hs[..i + 1], b, name) == if IsNamed(hs[i], b, name) then Some(i) else None
    ensures IsNamed(hs[i], b, name) ==> FindHeader(hs, b, name) == Some(i)
    decreases |hs|
  {
    assert hs[..i + 1][..i] == hs[..i];
    if i + 1 < |hs| {
      var front := hs[..|hs| - 1];
      assert front[..i] == hs[..i] && front[..i + 1] == hs[..i + 1];
      FindNext(front, b, name, i);
    } else {
      assert hs[..i + 1] == hs;
    }
  }

  // ---------------------------------------------------------------- method numbers

  const METHOD_VALUE_GET: nat := 0x20544547
  const METHOD_VALUE_HEAD: nat := 0x2044414548
  const METHOD_VALUE_OPTIONS: nat := 0x20534e4f4954504f
  const METHOD_VALUE_TRACE: nat := 0x204543415254
  const METHOD_VALUE_PUT: nat := 0x20545550
  const METHOD_VALUE_DELETE: nat := 0x204554454c4544
  const METHOD_VALUE_POST: nat := 0x2054534f50
  const METHOD_VALUE_PATCH: nat := 0x204843544150
  const METHOD_VALUE_CONNECT: nat := 0x205443454e4e4f43

  // The number in these bytes, the first byte the lowest.
  function LittleEndian(b: seq<byte>): nat {
    if b == [] then 0 else b[0] + 256 * LittleEndian(b[1..])
  }

  lemma {:induction false} LittleEndianInjective(a: seq<byte>, b: seq<byte>)
    requires |a| == |b|
    ensures LittleEndian(a) == LittleEndian(b) <==> a == b
  {
    if a != [] {
      LittleEndianInjective(a[1..], b[1..]);
      assert a == [a[0]] + a[1..] && b == [b[0]] + b[1..];
    }
  }

  lemma ShortTokens()
    ensures LittleEndian(TOKEN_GET) == METHOD_VALUE_GET && LittleEndian(TOKEN_PUT) == METHOD_VALUE_PUT
    ensures LittleEndian(TOKEN_POST) == METHOD_VALUE_POST && LittleEndian(TOKEN_HEAD) == METHOD_VALUE_HEAD
  {
  }

  lemma {:induction false} FourBytesValue(a: byte, b: byte, c: byte, d: byte, rest: seq<byte>)
    ensures LittleEndian([a, b, c, d] + rest) ==
      Number(a) + 0x100 * Number(b) + 0x1_0000 * Number(c) + 0x100_0000 * Number(d) + 0x1_0000_0000 * LittleEndian(rest)
  {
    assert [a, b, c, d] + rest == [a] + ([b] + ([c] + ([d] + rest)));
    OneByteValue(a, [b] + ([c] + ([d] + rest)));
    OneByteValue(b, [c] + ([d] + rest));
    OneByteValue(c, [d] + rest);
    OneByteValue(d, rest);
  }

  lemma OneByteValue(a: byte, rest: seq<byte>)
    ensures LittleEndian([a] + rest) == a + 256 * LittleEndian(rest)
  {
    assert ([a] + rest)[1..] == rest;
  }

  function Number(c: byte): nat {
    c
  }

  lemma SplitToken(t: seq<byte>)
    requires 4 <= |t| <= 8
    ensures var low := Number(t[0]) + 0x100 * Number(t[1]) + 0x1_0000 * Number(t[2]) + 0x100_0000 * Number(t[3]);
      && (|t| == 6 ==> LittleEndian(t) == low + 0x1_0000_0000 * (Number(t[4]) + 256 * Number(t[5])))
      && (|t| == 7 ==> LittleEndian(t) == low + 0x1_0000_0000
                       * (Number(t[4]) + 256 * Number(t[5]) + 0x1_0000 * Number(t[6])))
      && (|t| == 8 ==> LittleEndian(t) == low + 0x1_0000_0000
                       * (Number(t[4]) + 256 * Number(t[5]) + 0x1_0000 * Number(t[6]) + 0x100_0000 * Number(t[7])))
  {
    FourBytesValue(t[0], t[1], t[2], t[3], t[4..]);
    assert t == [t[0], t[1], t[2], t[3]] + t[4..];
    if |t| == 6 {
      assert t[4..] == [t[4]] + ([t[5]] + []);
      OneByteValue(t[4], [t[5]] + []);
      OneByteValue(t[5], []);
    } else if |t| == 7 {
      assert t[4..] == [t[4]] + ([t[5]] + ([t[6]] + []));
      OneByteValue(t[4], [t[5]] + ([t[6]] + []));
      OneByteValue(t[5], [t[6]] + []);
      OneByteValue(t[6], []);
    } else if |t| == 8 {
      FourBytesValue(t[4], t[5], t[6], t[7], []);
      assert t[4..] == [t[4], t[5], t[6], t[7]] + [];
    }
  }

  lemma LongTokens()
    ensures LittleEndian(TOKEN_PATCH) == METHOD_VALUE_PATCH && LittleEndian(TOKEN_TRACE) == METHOD_VALUE_TRACE
    ensures LittleEndian(TOKEN_DELETE) == METHOD_VALUE_DELETE
  {
    SplitToken(TOKEN_PATCH);
    SplitToken(TOKEN_TRACE);
    SplitToken(TOKEN_DELETE);
  }

  lemma LongestTokens()
    ensures LittleEndian(TOKEN_OPTIONS) == METHOD_VALUE_OPTIONS && LittleEndian(TOKEN_CONNECT) == METHOD_VALUE_CONNECT
  {
    SplitToken(TOKEN_OPTIONS);
    SplitToken(TOKEN_CONNECT);
  }

  lemma PrefixByNumber(b: seq<byte>, token: seq<byte>)
    requires |token| <= |b|
    ensures LittleEndian(b[..|token|]) == LittleEndian(token) <==> token <= b
  {
    LittleEndianInjective(b[..|token|], token);
  }

  // Comparing numbers under a mask is comparing the method's token with the first bytes.
  lemma MethodValues(b: seq<byte>)
    requires |b| == 8
    ensures LittleEndian(b[..4]) == METHOD_VALUE_GET <==> TOKEN_GET <= b
    ensures LittleEndian(b[..4]) == METHOD_VALUE_PUT <==> TOKEN_PUT <= b
    ensures LittleEndian(b[..5]) == METHOD_VALUE_POST <==> TOKEN_POST <= b
    ensures LittleEndian(b[..5]) == METHOD_VALUE_HEAD <==> TOKEN_HEAD <= b
    ensures LittleEndian(b[..6]) == METHOD_VALUE_PATCH <==> TOKEN_PATCH <= b
    ensures LittleEndian(b[..6]) == METHOD_VALUE_TRACE <==> TOKEN_TRACE <= b
    ensures LittleEndian(b[..7]) == METHOD_VALUE_DELETE <==> TOKEN_DELETE <= b
    ensures LittleEndian(b[..8]) == METHOD_VALUE_OPTIONS <==> TOKEN_OPTIONS <= b
    ensures LittleEndian(b[..8]) == METHOD_VALUE_CONNECT <==> TOKEN_CONNECT <= b
  {
    ShortTokens();
    LongTokens();
    LongestTokens();
    PrefixByNumber(b, TOKEN_GET);
    PrefixByNumber(b, TOKEN_PUT);
    PrefixByNumber(b, TOKEN_POST);
    PrefixByNumber(b, TOKEN_HEAD);
    PrefixByNumber(b, TOKEN_PATCH);
    PrefixByNumber(b, TOKEN_TRACE);
    PrefixByNumber(b, TOKEN_DELETE);
    PrefixByNumber(b, TOKEN_OPTIONS);
    PrefixByNumber(b, TOKEN_CONNECT);
  }
}
