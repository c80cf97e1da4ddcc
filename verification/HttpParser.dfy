/** The incremental request parser of src/http_request.c as a function of the bytes received so far.
    Sections 2.2, 3, 5 and 6 of RFC 9112 give the message format. */
module HttpParser {
  import opened Common

  const MAX_HEADER_BYTES: nat := 4096
  const MAX_REQUEST_BYTES: nat := 65536
  const MAX_HEADERS: nat := 32

  const SPACE: byte := 0x20
  const TAB: byte := 0x09
  const CR: byte := 0x0D
  const LF: byte := 0x0A
  const HEADER_COLON: byte := 0x3A

  datatype State =
    | ReqMethod | ReqUri | ReqVersion | ReqLf
    | HeaderKey | HeaderName | HeaderValue | HeaderLf | HeaderEnd
    | Body | Done | Failed

  datatype Method = GET | HEAD | OPTIONS | TRACE | PUT | DELETE | POST | PATCH | CONNECT

  datatype Version = HTTP_1_0 | HTTP_1_1

  // Offsets into the buffer; a value that is empty has no offset.
  datatype Header = Header(name: nat, nameLen: nat, value: Option<nat>, valueLen: nat)

  const NO_HEADER := Header(0, 0, None, 0)

  /** Everything the parser has recorded. `current` is the entry behind the complete headers. */
  datatype Progress = Progress(
    state: State,
    status: nat,
    verb: Method,
    verbLen: nat,
    uri: Option<nat>,
    uriLen: nat,
    version: Option<nat>,
    versionLen: nat,
    httpVersion: Version,
    headers: seq<Header>,
    current: Header,
    contentLength: nat,
    contentType: Option<nat>,
    host: Option<nat>,
    body: Option<nat>,
    bodyBytesRead: nat)

  const START := Progress(ReqMethod, 200, GET, 0, None, 0, None, 0, HTTP_1_0, [], NO_HEADER, 0, None, None, None, 0)

  predicate Settled(p: Progress) {
    p.state == Done || p.state == Failed
  }

  function Fail(p: Progress, status: nat): Progress {
    p.(state := Failed, status := status)
  }

  predicate IsWhitespace(c: byte) {
    c == SPACE || c == TAB || c == CR || c == LF
  }

  predicate IsLineEnd(c: byte) {
    c == CR || c == LF
  }

  // ---------------------------------------------------------------- the request line

  const TOKEN_GET: seq<byte> := [0x47, 0x45, 0x54, 0x20]
  const TOKEN_PUT: seq<byte> := [0x50, 0x55, 0x54, 0x20]
  const TOKEN_POST: seq<byte> := [0x50, 0x4F, 0x53, 0x54, 0x20]
  const TOKEN_HEAD: seq<byte> := [0x48, 0x45, 0x41, 0x44, 0x20]
  const TOKEN_PATCH: seq<byte> := [0x50, 0x41, 0x54, 0x43, 0x48, 0x20]
  const TOKEN_TRACE: seq<byte> := [0x54, 0x52, 0x41, 0x43, 0x45, 0x20]
  const TOKEN_DELETE: seq<byte> := [0x44, 0x45, 0x4C, 0x45, 0x54, 0x45, 0x20]
  const TOKEN_OPTIONS: seq<byte> := [0x4F, 0x50, 0x54, 0x49, 0x4F, 0x4E, 0x53, 0x20]
  const TOKEN_CONNECT: seq<byte> := [0x43, 0x4F, 0x4E, 0x4E, 0x45, 0x43, 0x54, 0x20]

  // A method and the space behind it.
  function Token(m: Method): (t: seq<byte>)
    ensures 4 <= |t| <= 8
  {
    match m
    case GET => TOKEN_GET
    case PUT => TOKEN_PUT
    case POST => TOKEN_POST
    case HEAD => TOKEN_HEAD
    case PATCH => TOKEN_PATCH
    case TRACE => TOKEN_TRACE
    case DELETE => TOKEN_DELETE
    case OPTIONS => TOKEN_OPTIONS
    case CONNECT => TOKEN_CONNECT
  }

  // The method whose token starts the first eight bytes.
  function MethodOf(b: seq<byte>): Option<Method> {
    if TOKEN_GET <= b then Some(GET)
    else if TOKEN_PUT <= b then Some(PUT)
    else if TOKEN_POST <= b then Some(POST)
    else if TOKEN_HEAD <= b then Some(HEAD)
    else if TOKEN_PATCH <= b then Some(PATCH)
    else if TOKEN_TRACE <= b then Some(TRACE)
    else if TOKEN_DELETE <= b then Some(DELETE)
    else if TOKEN_OPTIONS <= b then Some(OPTIONS)
    else if TOKEN_CONNECT <= b then Some(CONNECT)
    else None
  }

  const HTTP_SLASH: seq<byte> := [0x48, 0x54, 0x54, 0x50, 0x2F]

  // HTTP/1.0 and HTTP/1.1 are the versions that are served.
  function VersionOf(v: seq<byte>): Option<Version> {
    if |v| != 8 || v[..5] != HTTP_SLASH || v[6] != 0x2E || v[5] != 0x31 then None
    else if v[7] == 0x30 then Some(HTTP_1_0)
    else if v[7] == 0x31 then Some(HTTP_1_1)
    else None
  }

  // How far `i` is behind `from`.
  function Gap(from: nat, i: nat): nat {
    if i >= from then i - from else 0
  }

  // `len` bytes from `from`, as far as they have been received.
  function Sub(b: seq<byte>, from: nat, len: nat): seq<byte> {
    if from + len <= |b| then b[from..from + len] else []
  }

  // The last byte of `b` continues the URI.
  function StepUri(p: Progress, b: seq<byte>): Progress
    requires b != []
  {
    var i, c := |b| - 1, b[|b| - 1];
    var q := if p.uri.None? then p.(uri := Some(i)) else p;
    if c == SPACE then
      var r := q.(uriLen := Gap(q.uri.value, i), state := ReqVersion);
      if r.uriLen == 0 then Fail(r, 400) else r
    else if IsLineEnd(c) then Fail(q, 400)
    else q
  }

  function StepVersion(p: Progress, b: seq<byte>): Progress
    requires b != []
  {
    var i, c := |b| - 1, b[|b| - 1];
    var q := if p.version.None? then p.(version := Some(i)) else p;
    if !IsLineEnd(c) then q
    else
      var len := Gap(q.version.value, i);
      var r := q.(versionLen := len, state := if c == CR then ReqLf else HeaderKey);
      match VersionOf(Sub(b, q.version.value, len))
      case None => Fail(r, 505)
      case Some(v) => r.(httpVersion := v)
  }

  // ---------------------------------------------------------------- header fields

  function Lower(c: byte): byte {
    if 0x41 <= c <= 0x5A then c + 32 else c
  }

  // strncasecmp on equal lengths.
  predicate EqualFold(a: seq<byte>, b: seq<byte>) {
    |a| == |b| && forall i :: 0 <= i < |a| ==> Lower(a[i]) == Lower(b[i])
  }

  // strncasecmp of the bytes at `from` with a text of the same length.
  method EqualsIgnoringCase(a: array<byte>, from: nat, text: seq<byte>) returns (equal: bool)
    requires from + |text| <= a.Length
    ensures equal <==> EqualFold(a[from..from + |text|], text)
  {
    var i := 0;
    while i < |text|
      invariant 0 <= i <= |text|
      invariant forall k :: 0 <= k < i ==> Lower(a[from..from + |text|][k]) == Lower(text[k])
    {
      if Lower(a[from + i]) != Lower(text[i]) {
        return false;
      }
      i := i + 1;
    }
    equal := true;
  }

  const CONTENT_LENGTH: seq<byte> :=
    [0x43, 0x6F, 0x6E, 0x74, 0x65, 0x6E, 0x74, 0x2D, 0x4C, 0x65, 0x6E, 0x67, 0x74, 0x68]
  const CONTENT_TYPE: seq<byte> := [0x43, 0x6F, 0x6E, 0x74, 0x65, 0x6E, 0x74, 0x2D, 0x54, 0x79, 0x70, 0x65]
  const TRANSFER_ENCODING: seq<byte> :=
    [0x54, 0x72, 0x61, 0x6E, 0x73, 0x66, 0x65, 0x72, 0x2D, 0x45, 0x6E, 0x63, 0x6F, 0x64, 0x69, 0x6E, 0x67]
  const HOST: seq<byte> := [0x48, 0x6F, 0x73, 0x74]

  function NameOf(h: Header, b: seq<byte>): seq<byte> {
    Sub(b, h.name, h.nameLen)
  }

  function ValueOf(h: Header, b: seq<byte>): seq<byte> {
    if h.value.None? then [] else Sub(b, h.value.value, h.valueLen)
  }

  predicate IsNamed(h: Header, b: seq<byte>, name: seq<byte>) {
    EqualFold(NameOf(h, b), name)
  }

  // http_request_get_header: the first header of that name, in any letter case.
  function FindHeader(headers: seq<Header>, b: seq<byte>, name: seq<byte>): Option<nat> {
    if headers == [] then None
    else match FindHeader(headers[..|headers| - 1], b, name)
      case Some(i) => Some(i)
      case None => if IsNamed(headers[|headers| - 1], b, name) then Some(|headers| - 1) else None
  }

  // The exact value of a Content-Length field (section 8.6 of RFC 9110), if it fits in a size_t.
  function LengthOf(value: seq<byte>): Option<nat> {
    if value == [] || !All(value, IsDigit) || Decimal(value) > SIZE_MAX then None else Some(Decimal(value))
  }

  // parse_header: what a complete field changes, None when it is refused.
  function StoreHeader(p: Progress, b: seq<byte>): Option<Progress> {
    var h := p.current;
    if IsNamed(h, b, CONTENT_LENGTH) then
      match LengthOf(ValueOf(h, b))
      case None => None
      case Some(n) =>
        if FindHeader(p.headers, b, CONTENT_LENGTH).Some? then None else Some(p.(contentLength := n))
    else if IsNamed(h, b, CONTENT_TYPE) then Some(p.(contentType := h.value))
    else if IsNamed(h, b, TRANSFER_ENCODING) then None
    else if IsNamed(h, b, HOST) then Some(p.(host := h.value))
    else Some(p)
  }

  function NextHeader(p: Progress): Progress {
    p.(state := HeaderKey, headers := p.headers + [p.current], current := NO_HEADER)
  }

  function StepKey(p: Progress, b: seq<byte>): Progress
    requires b != []
  {
    var c := b[|b| - 1];
    if c == CR then p.(state := HeaderEnd)
    else if c == LF then p.(state := Body)
    else if c == HEADER_COLON then Fail(p, 400)
    else if |p.headers| >= MAX_HEADERS then Fail(p, 431)
    else p.(state := HeaderName, current := p.current.(name := |b| - 1))
  }

  function StepName(p: Progress, b: seq<byte>): Progress
    requires b != []
  {
    var i, c := |b| - 1, b[|b| - 1];
    if IsWhitespace(c) then Fail(p, 400)
    else if c == HEADER_COLON then
      p.(state := HeaderValue, current := p.current.(nameLen := Gap(p.current.name, i)))
    else p
  }

  function StepValue(p: Progress, b: seq<byte>): Progress
    requires b != []
  {
    var i, c := |b| - 1, b[|b| - 1];
    if IsLineEnd(c) then
      match StoreHeader(p, b)
      case None => Fail(p, 400)
      case Some(q) => if c == CR then q.(state := HeaderLf) else NextHeader(q)
    else if IsWhitespace(c) then p
    else
      var from := if p.current.value.None? then i else p.current.value.value;
      p.(current := p.current.(value := Some(from), valueLen := Gap(from, i + 1)))
  }

  // The check at the end of the header section.
  function StartBody(p: Progress, headerBytes: nat): Progress
    requires headerBytes <= MAX_REQUEST_BYTES
  {
    if p.contentLength >= MAX_REQUEST_BYTES - headerBytes then Fail(p, 413)
    else if p.contentLength == 0 then p.(state := Done)
    else p.(body := Some(headerBytes))
  }

  function StepBody(p: Progress): Progress {
    var q := p.(bodyBytesRead := p.bodyBytesRead + 1);
    if q.bodyBytesRead == q.contentLength then q.(state := Done) else q
  }

  // The header states; a step that ends the header section starts the body at once.
  function StepHeader(p: Progress, b: seq<byte>): Progress
    requires b != []
  {
    var c := b[|b| - 1];
    match p.state
    case ReqUri => StepUri(p, b)
    case ReqVersion => StepVersion(p, b)
    case ReqLf => if c == LF then p.(state := HeaderKey) else Fail(p, 400)
    case HeaderKey => StepKey(p, b)
    case HeaderName => StepName(p, b)
    case HeaderValue => StepValue(p, b)
    case HeaderLf => if c == LF then NextHeader(p) else Fail(p, 400)
    case HeaderEnd => if c == LF then p.(state := Body) else Fail(p, 400)
    case _ => p
  }

  // What the last byte of `b` adds once the method has been read.
  function Step(p: Progress, b: seq<byte>): Progress
    requires b != []
  {
    if Settled(p) then p
    else if p.state == Body then StepBody(p)
    else if |b| >= MAX_HEADER_BYTES then Fail(p, 431)
    else
      var q := StepHeader(p, b);
      if q.state == Body then StartBody(q, |b|) else q
  }

  // Steps over the bytes of `b` from `i` on.
  function Feed(p: Progress, b: seq<byte>, i: nat): Progress
    requires i <= |b|
    decreases |b| - i
  {
    if i == |b| then p else Feed(Step(p, b[..i + 1]), b, i + 1)
  }

  // The eight bytes the method is read from; those behind its token belong to the URI already.
  function Launch(b: seq<byte>): Progress
    requires |b| == 8
  {
    match MethodOf(b)
    case None => Fail(START, 501)
    case Some(m) => Feed(UriStart(m), b, |Token(m)|)
  }

  function UriStart(m: Method): Progress {
    START.(state := ReqUri, verb := m, verbLen := |Token(m)| - 1)
  }

  /** What the parser knows after it has received exactly the bytes `b`. */
  function After(b: seq<byte>): Progress {
    if |b| < 8 then START
    else if |b| == 8 then Launch(b)
    else Step(After(b[..|b| - 1]), b)
  }

  // ---------------------------------------------------------------- what follows from the definition

  lemma {:induction false} FeedSettled(p: Progress, b: seq<byte>, i: nat)
    requires i <= |b| && Settled(p)
    ensures Feed(p, b, i) == p
    decreases |b| - i
  {
    if i < |b| {
      FeedSettled(p, b, i + 1);
    }
  }

  // Reading on is stepping on.
  lemma {:induction false} AfterFeed(b: seq<byte>, n: nat)
    requires 8 <= n <= |b|
    ensures After(b) == Feed(After(b[..n]), b, n)
    decreases |b| - n
  {
    hide Step, Launch;
    if n == |b| {
      assert b[..n] == b;
    } else {
      AfterFeed(b, n + 1);
      assert b[..n + 1][..n] == b[..n];
    }
  }

  // A settled parser stays as it is, whatever else arrives.
  lemma SettledStays(b: seq<byte>, n: nat)
    requires n <= |b| && Settled(After(b[..n]))
    ensures After(b) == After(b[..n])
  {
    AfterFeed(b, n);
    FeedSettled(After(b[..n]), b, n);
  }

  // The header section is still open in fewer than MAX_HEADER_BYTES bytes, and an open body has room.
  predicate HasRoom(p: Progress, n: nat) {
    if p.state == Body then
      && p.body.Some? && p.body.value < MAX_HEADER_BYTES && p.body.value + p.bodyBytesRead == n
      && p.bodyBytesRead < p.contentLength && p.body.value + p.contentLength < MAX_REQUEST_BYTES
    else p.bodyBytesRead == 0 && (!Settled(p) ==> n < MAX_HEADER_BYTES) && (p.state == ReqMethod ==> n < 8)
  }

  lemma StepKeepsRoom(p: Progress, b: seq<byte>)
    requires b != [] && HasRoom(p, |b| - 1) && !Settled(p) && p.state != ReqMethod
    ensures Settled(Step(p, b)) || (HasRoom(Step(p, b), |b|) && Step(p, b).state != ReqMethod)
  {
  }

  lemma {:induction false} FeedKeepsRoom(p: Progress, b: seq<byte>, i: nat)
    requires i <= |b| && p.state != ReqMethod && (Settled(p) || HasRoom(p, i))
    ensures Feed(p, b, i).state != ReqMethod && (Settled(Feed(p, b, i)) || HasRoom(Feed(p, b, i), |b|))
    decreases |b| - i
  {
    if i < |b| {
      if !Settled(p) {
        StepKeepsRoom(p, b[..i + 1]);
      }
      FeedKeepsRoom(Step(p, b[..i + 1]), b, i + 1);
    }
  }

  lemma RoomAfterLaunch(b: seq<byte>)
    requires |b| == 8
    ensures Launch(b).state != ReqMethod && (Settled(Launch(b)) || HasRoom(Launch(b), 8))
  {
    if MethodOf(b).Some? {
      var m := MethodOf(b).value;
      FeedKeepsRoom(UriStart(m), b, |Token(m)|);
    }
  }

  lemma RoomAfter(b: seq<byte>)
    ensures Settled(After(b)) || HasRoom(After(b), |b|)
  {
    if |b| >= 8 {
      AfterFeed(b, 8);
      RoomAfterLaunch(b[..8]);
      FeedKeepsRoom(After(b[..8]), b, 8);
    }
  }

  /** Whenever more data is asked for there is room for it: fewer than MAX_HEADER_BYTES bytes are held
      before the body, header and declared body together stay below MAX_REQUEST_BYTES, and after
      MAX_REQUEST_BYTES - 1 bytes the parser has settled. */
  lemma RoomForMore(b: seq<byte>)
    requires !Settled(After(b))
    ensures |b| < MAX_REQUEST_BYTES - 1
    ensures After(b).state != Body ==> |b| < MAX_HEADER_BYTES
    ensures After(b).state == Body ==>
      && After(b).body.Some?
      && |b| - After(b).body.value == After(b).bodyBytesRead < After(b).contentLength
      && After(b).body.value + After(b).contentLength < MAX_REQUEST_BYTES
  {
    RoomAfter(b);
  }

  // ---------------------------------------------------------------- recorded offsets

  predicate HeaderWithin(h: Header, n: nat) {
    h.name + h.nameLen <= n && (h.value.Some? ==> h.value.value + h.valueLen <= n)
  }

  predicate InField(p: Progress) {
    p.state == HeaderName || p.state == HeaderValue || p.state == HeaderLf
  }

  // Every recorded offset lies in the first `n` bytes.
  predicate Within(p: Progress, n: nat) {
    && (forall i :: 0 <= i < |p.headers| ==> HeaderWithin(p.headers[i], n))
    && |p.headers| <= MAX_HEADERS
    && (if InField(p) then |p.headers| < MAX_HEADERS else p.state != Failed ==> p.current == NO_HEADER)
    && HeaderWithin(p.current, n)
    && (if p.uri.Some? then p.uri.value + p.uriLen <= n else p.uriLen == 0)
    && (if p.version.Some? then p.version.value + p.versionLen <= n else p.versionLen == 0)
  }

  lemma LineStepWithin(p: Progress, b: seq<byte>)
    requires b != [] && Within(p, |b| - 1) && (p.state == ReqUri || p.state == ReqVersion || p.state == ReqLf)
    ensures Within(StepHeader(p, b), |b|)
  {
  }

  lemma FieldStepWithin(p: Progress, b: seq<byte>)
    requires b != [] && Within(p, |b| - 1) && (p.state == HeaderKey || p.state == HeaderName || p.state == HeaderEnd)
    ensures Within(StepHeader(p, b), |b|)
  {
  }

  lemma ValueStepWithin(p: Progress, b: seq<byte>)
    requires b != [] && Within(p, |b| - 1) && (p.state == HeaderValue || p.state == HeaderLf)
    ensures Within(StepHeader(p, b), |b|)
  {
    hide StoreHeader;
    StoreKeepsOffsets(p, b);
  }

  lemma StoreKeepsOffsets(p: Progress, b: seq<byte>)
    ensures StoreHeader(p, b).Some? ==>
      var q := StoreHeader(p, b).value;
      q == p.(contentLength := q.contentLength, contentType := q.contentType, host := q.host)
  {
  }

  lemma HeaderStepWithin(p: Progress, b: seq<byte>)
    requires b != [] && Within(p, |b| - 1)
    ensures Within(StepHeader(p, b), |b|)
  {
    match p.state
    case ReqUri | ReqVersion | ReqLf => LineStepWithin(p, b);
    case HeaderKey | HeaderName | HeaderEnd => FieldStepWithin(p, b);
    case HeaderValue | HeaderLf => ValueStepWithin(p, b);
    case _ => WithinGrows(p, |b| - 1);
  }

  lemma WithinGrows(p: Progress, n: nat)
    requires Within(p, n)
    ensures Within(p, n + 1)
  {
  }

  // Failing and starting the body leave all offsets alone.
  lemma SettlingWithin(p: Progress, n: nat)
    requires Within(p, n)
    ensures forall status: nat :: Within(Fail(p, status), n)
    ensures n <= MAX_REQUEST_BYTES && p.state == Body ==> Within(StartBody(p, n), n)
    ensures p.state == Body ==> Within(StepBody(p), n)
  {
  }

  lemma StepWithin(p: Progress, b: seq<byte>)
    requires b != [] && Within(p, |b| - 1)
    ensures Within(Step(p, b), |b|)
  {
    WithinGrows(p, |b| - 1);
    SettlingWithin(p, |b|);
    HeaderStepWithin(p, b);
    SettlingWithin(StepHeader(p, b), |b|);
  }

  lemma {:induction false} FeedWithin(p: Progress, b: seq<byte>, i: nat)
    requires i <= |b| && Within(p, i)
    ensures Within(Feed(p, b, i), |b|)
    decreases |b| - i
  {
    if i < |b| {
      StepWithin(p, b[..i + 1]);
      FeedWithin(Step(p, b[..i + 1]), b, i + 1);
    }
  }

  lemma LaunchWithin(b: seq<byte>)
    requires |b| == 8
    ensures Within(Launch(b), 8)
  {
    if MethodOf(b).Some? {
      var m := MethodOf(b).value;
      FeedWithin(UriStart(m), b, |Token(m)|);
    }
  }

  // The offsets a parser hands out never leave the bytes it has received.
  lemma AfterWithin(b: seq<byte>)
    ensures Within(After(b), |b|)
  {
    hide Feed, Step, Launch;
    if |b| >= 8 {
      AfterFeed(b, 8);
      LaunchWithin(b[..8]);
      FeedWithin(After(b[..8]), b, 8);
    }
  }

  // ---------------------------------------------------------------- status

  predicate StatusFits(p: Progress) {
    p.state == Failed <==> p.status != 200
  }

  lemma StepKeepsStatus(p: Progress, b: seq<byte>)
    requires b != [] && StatusFits(p)
    ensures StatusFits(Step(p, b))
  {
  }

  lemma {:induction false} FeedKeepsStatus(p: Progress, b: seq<byte>, i: nat)
    requires i <= |b| && StatusFits(p)
    ensures StatusFits(Feed(p, b, i))
    decreases |b| - i
  {
    if i < |b| {
      StepKeepsStatus(p, b[..i + 1]);
      FeedKeepsStatus(Step(p, b[..i + 1]), b, i + 1);
    }
  }

  // A request is answered with 200 exactly while nothing is wrong with it.
  lemma StatusSaysFailure(b: seq<byte>)
    ensures StatusFits(After(b))
  {
    if |b| >= 8 {
      LaunchFeeds(b);
      var m := MethodOf(b[..8]);
      if m.Some? {
        FeedKeepsStatus(UriStart(m.value), b, |Token(m.value)|);
      }
    }
  }

  // ---------------------------------------------------------------- for the chunk loop

  lemma {:induction false} FeedInParts(p: Progress, b: seq<byte>, i: nat, n: nat)
    requires i <= n <= |b|
    ensures Feed(p, b, i) == Feed(Feed(p, b[..n], i), b, n)
    decreases n - i
  {
    if i < n {
      assert b[..n][..i + 1] == b[..i + 1];
      FeedInParts(Step(p, b[..i + 1]), b, i + 1, n);
    }
  }

  // The rewind behind the method token loses and repeats nothing.
  lemma LaunchFeeds(b: seq<byte>)
    requires |b| >= 8
    ensures match MethodOf(b[..8])
      case None => After(b) == Fail(START, 501)
      case Some(m) => After(b) == Feed(UriStart(m), b, |Token(m)|)
  {
    AfterFeed(b, 8);
    match MethodOf(b[..8])
    case None => FeedSettled(Fail(START, 501), b, 8);
    case Some(m) => FeedInParts(UriStart(m), b, |Token(m)|, 8);
  }

  // Taking all available body bytes at once is the same as taking them one by one.
  lemma {:induction false} FeedBody(p: Progress, b: seq<byte>, i: nat)
    requires i < |b| && p.state == Body && p.bodyBytesRead < p.contentLength
    ensures var available, remaining := |b| - i, p.contentLength - p.bodyBytesRead;
      var q := p.(bodyBytesRead := p.bodyBytesRead + if available < remaining then available else remaining);
      Feed(p, b, i) == if q.bodyBytesRead == q.contentLength then q.(state := Done) else q
    decreases |b| - i
  {
    var q := StepBody(p);
    if Settled(q) {
      FeedSettled(q, b, i + 1);
    } else if i + 1 < |b| {
      FeedBody(q, b, i + 1);
    }
  }
}
