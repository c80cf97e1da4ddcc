/** Well-formed requests are parsed into exactly their parts. */
module HttpRoundTrip {
  import opened Common
  import opened HttpParser
  import opened HttpFields
  import opened HttpMessage

  // ---------------------------------------------------------------- single steps

  lemma OneStep(p: Progress, b: seq<byte>, i: nat, q: Progress)
    requires i < |b| && i + 1 < MAX_HEADER_BYTES && !Settled(p) && p.state != Body && q.state != Body
    requires q == StepHeader(p, b[..i + 1])
    ensures Feed(p, b, i) == Feed(q, b, i + 1)
  {
    hide StepHeader;
  }

  lemma {:induction false} UriRun(p: Progress, b: seq<byte>, i: nat, n: nat)
    requires p.state == ReqUri && p.uri.Some? && i <= n <= |b| && n < MAX_HEADER_BYTES
    requires forall k :: i <= k < n ==> b[k] != SPACE && !IsLineEnd(b[k])
    ensures Feed(p, b, i) == Feed(p, b, n)
    decreases n - i
  {
    if i < n {
      assert b[..i + 1][i] == b[i];
      OneStep(p, b, i, p);
      UriRun(p, b, i + 1, n);
    }
  }

  lemma {:induction false} VersionRun(p: Progress, b: seq<byte>, i: nat, n: nat)
    requires p.state == ReqVersion && p.version.Some? && i <= n <= |b| && n < MAX_HEADER_BYTES
    requires forall k :: i <= k < n ==> !IsLineEnd(b[k])
    ensures Feed(p, b, i) == Feed(p, b, n)
    decreases n - i
  {
    if i < n {
      assert b[..i + 1][i] == b[i];
      OneStep(p, b, i, p);
      VersionRun(p, b, i + 1, n);
    }
  }

  lemma {:induction false} NameRun(p: Progress, b: seq<byte>, i: nat, n: nat)
    requires p.state == HeaderName && i <= n <= |b| && n < MAX_HEADER_BYTES
    requires forall k :: i <= k < n ==> !IsWhitespace(b[k]) && b[k] != HEADER_COLON
    ensures Feed(p, b, i) == Feed(p, b, n)
    decreases n - i
  {
    if i < n {
      assert b[..i + 1][i] == b[i];
      OneStep(p, b, i, p);
      NameRun(p, b, i + 1, n);
    }
  }

  // Spaces and tabs around a value.
  lemma {:induction false} BlankRun(p: Progress, b: seq<byte>, i: nat, n: nat)
    requires p.state == HeaderValue && i <= n <= |b| && n < MAX_HEADER_BYTES
    requires forall k :: i <= k < n ==> b[k] == SPACE || b[k] == TAB
    ensures Feed(p, b, i) == Feed(p, b, n)
    decreases n - i
  {
    if i < n {
      assert b[..i + 1][i] == b[i];
      OneStep(p, b, i, p);
      BlankRun(p, b, i + 1, n);
    }
  }

  lemma ValueStep(p: Progress, b: seq<byte>, from: nat, i: nat, q: Progress)
    requires p.state == HeaderValue && p.current.value == Some(from) && from <= i < |b| && i + 1 < MAX_HEADER_BYTES
    requires !IsLineEnd(b[i])
    requires q == if IsWhitespace(b[i]) then p else p.(current := p.current.(valueLen := i + 1 - from))
    ensures Feed(p, b, i) == Feed(q, b, i + 1)
  {
    assert b[..i + 1][i] == b[i];
    OneStep(p, b, i, q);
  }

  // A value that has begun at `from` and ends before `n`.
  lemma {:induction false} ValueRun(p: Progress, b: seq<byte>, from: nat, i: nat, n: nat)
    requires p.state == HeaderValue && p.current.value == Some(from) && from <= i < n <= |b| && n < MAX_HEADER_BYTES
    requires (forall k :: i <= k < n ==> !IsLineEnd(b[k])) && !IsWhitespace(b[n - 1])
    ensures Feed(p, b, i) == Feed(p.(current := p.current.(valueLen := n - from)), b, n)
    decreases n - i
  {
    hide StepHeader, Feed;
    var q := p;
    if !IsWhitespace(b[i]) {
      q := p.(current := p.current.(valueLen := i + 1 - from));
    }
    ValueStep(p, b, from, i, q);
    if i + 1 < n {
      ValueRun(q, b, from, i + 1, n);
    }
  }

  // ---------------------------------------------------------------- the request line

  lemma TargetFeeds(p: Progress, b: seq<byte>, i: nat, uri: seq<byte>)
    requires p.state == ReqUri && p.uri.None? && IsUri(uri) && TextAt(b, i, uri) && TextAt(b, i + |uri|, [SPACE])
    requires i + |uri| + 1 < MAX_HEADER_BYTES
    ensures Feed(p, b, i) == Feed(p.(uri := Some(i), uriLen := |uri|, state := ReqVersion), b, i + |uri| + 1)
  {
    var n := i + |uri|;
    UriBytes(b, i, uri);
    hide StepHeader, Feed, TextAt, IsUri;
    TargetBegins(p, b, i);
    UriRun(p.(uri := Some(i)), b, i + 1, n);
    TargetEnds(p.(uri := Some(i)), b, i, n);
  }

  lemma UriBytes(b: seq<byte>, i: nat, uri: seq<byte>)
    requires IsUri(uri) && TextAt(b, i, uri) && TextAt(b, i + |uri|, [SPACE])
    ensures |uri| > 0 && i + |uri| < |b| && b[i + |uri|] == SPACE
    ensures forall k :: i <= k < i + |uri| ==> b[k] != SPACE && !IsLineEnd(b[k])
  {
    assert b[i + |uri|] == [SPACE][0];
    forall k | i <= k < i + |uri| ensures b[k] != SPACE && !IsLineEnd(b[k]) {
      assert b[k] == uri[k - i];
    }
  }

  lemma TargetBegins(p: Progress, b: seq<byte>, i: nat)
    requires p.state == ReqUri && p.uri.None? && i < |b| && i + 1 < MAX_HEADER_BYTES && b[i] != SPACE
    requires !IsLineEnd(b[i])
    ensures Feed(p, b, i) == Feed(p.(uri := Some(i)), b, i + 1)
  {
    var q := p.(uri := Some(i));
    assert b[..i + 1][i] == b[i];
    assert q == StepHeader(p, b[..i + 1]);
    hide StepHeader, Feed;
    OneStep(p, b, i, q);
  }

  lemma TargetEnds(q: Progress, b: seq<byte>, i: nat, n: nat)
    requires q.state == ReqUri && q.uri == Some(i) && i < n < |b| && n + 1 < MAX_HEADER_BYTES && b[n] == SPACE
    ensures Feed(q, b, n) == Feed(q.(uriLen := n - i, state := ReqVersion), b, n + 1)
  {
    var r := q.(uriLen := n - i, state := ReqVersion);
    assert b[..n + 1][n] == b[n];
    assert r == StepHeader(q, b[..n + 1]);
    hide StepHeader;
    OneStep(q, b, n, r);
  }

  lemma VersionFeeds(p: Progress, b: seq<byte>, i: nat, v: Version, end: LineEnd)
    requires p.state == ReqVersion && p.version.None? && i + 8 + |EndText(end)| < MAX_HEADER_BYTES
    requires TextAt(b, i, VersionText(v)) && TextAt(b, i + 8, EndText(end))
    ensures Feed(p, b, i) ==
      Feed(p.(version := Some(i), versionLen := 8, httpVersion := v, state := HeaderKey), b, i + 8 + |EndText(end)|)
  {
    var t := VersionText(v);
    assert forall k :: 0 <= k < 8 ==> !IsLineEnd(t[k]);
    assert forall k :: i <= k < i + 8 ==> b[k] == t[k - i];
    var q := p.(version := Some(i));
    assert b[..i + 1][i] == b[i];
    hide VersionOf, VersionText;
    OneStep(p, b, i, q);
    VersionRun(q, b, i + 1, i + 8);
    VersionEnds(q, b, i, v, end);
  }

  lemma VersionEnds(q: Progress, b: seq<byte>, i: nat, v: Version, end: LineEnd)
    requires q.state == ReqVersion && q.version == Some(i) && i + 8 + |EndText(end)| < MAX_HEADER_BYTES
    requires TextAt(b, i, VersionText(v)) && TextAt(b, i + 8, EndText(end))
    ensures Feed(q, b, i + 8) ==
      Feed(q.(versionLen := 8, httpVersion := v, state := HeaderKey), b, i + 8 + |EndText(end)|)
  {
    hide StepHeader, Feed, VersionText;
    EndBytes(b, i + 8, end);
    assert b[..i + 9][i..i + 8] == b[i..i + 8] && b[..i + 9][i + 8] == b[i + 8];
    VersionKnown(q, b[..i + 9], i, v);
    hide TextAt, EndText;
    var r := q.(versionLen := 8, httpVersion := v, state := if end.CrLf? then ReqLf else HeaderKey);
    OneStep(q, b, i + 8, r);
    if end.CrLf? {
      LineEndFeeds(r, b, i + 9);
    }
  }

  lemma EndBytes(b: seq<byte>, i: nat, end: LineEnd)
    requires TextAt(b, i, EndText(end))
    ensures i + |EndText(end)| <= |b| && b[i] == (if end.CrLf? then CR else LF)
    ensures end.CrLf? ==> i + 2 <= |b| && b[i + 1] == LF
    ensures |EndText(end)| == if end.CrLf? then 2 else 1
  {
    assert b[i] == EndText(end)[0];
    assert end.CrLf? ==> b[i + 1] == EndText(end)[1];
  }

  lemma LineEndFeeds(r: Progress, b: seq<byte>, i: nat)
    requires r.state == ReqLf && i < |b| && i + 1 < MAX_HEADER_BYTES && b[i] == LF
    ensures Feed(r, b, i) == Feed(r.(state := HeaderKey), b, i + 1)
  {
    assert b[..i + 1][i] == b[i];
    OneStep(r, b, i, r.(state := HeaderKey));
  }

  lemma VersionKnown(q: Progress, c: seq<byte>, i: nat, v: Version)
    requires q.state == ReqVersion && q.version == Some(i) && |c| == i + 9
    requires c[i..i + 8] == VersionText(v) && IsLineEnd(c[i + 8])
    ensures StepHeader(q, c) ==
      q.(versionLen := 8, httpVersion := v, state := if c[i + 8] == CR then ReqLf else HeaderKey)
  {
    assert Sub(c, i, 8) == VersionText(v);
    hide VersionOf;
  }

  // ---------------------------------------------------------------- a field

  // The entry of a field whose name begins at `i`.
  function Entry(f: Field, i: nat): Header {
    Header(i, |f.name|, if f.value == [] then None else Some(i + |f.name| + 1 + |f.before|), |f.value|)
  }

  lemma NameFeeds(p: Progress, b: seq<byte>, i: nat, name: seq<byte>)
    requires p.state == HeaderKey && p.current == NO_HEADER && |p.headers| < MAX_HEADERS
    requires FieldName(name) && TextAt(b, i, name) && TextAt(b, i + |name|, [HEADER_COLON])
    requires i + |name| + 1 < MAX_HEADER_BYTES
    ensures Feed(p, b, i) == Feed(p.(current := Header(i, |name|, None, 0), state := HeaderValue), b, i + |name| + 1)
  {
    var n := i + |name|;
    NameBytes(b, i, name);
    hide StepHeader, Feed, TextAt, FieldName;
    NameBegins(p, b, i);
    NameRun(p.(current := Header(i, 0, None, 0), state := HeaderName), b, i + 1, n);
    NameEnds(p, b, i, n);
  }

  lemma NameBytes(b: seq<byte>, i: nat, name: seq<byte>)
    requires FieldName(name) && TextAt(b, i, name) && TextAt(b, i + |name|, [HEADER_COLON])
    ensures |name| > 0 && i + |name| < |b| && b[i + |name|] == HEADER_COLON
    ensures !IsLineEnd(b[i]) && b[i] != HEADER_COLON
    ensures forall k :: i + 1 <= k < i + |name| ==> !IsWhitespace(b[k]) && b[k] != HEADER_COLON
  {
    assert b[i] == name[0] && b[i + |name|] == [HEADER_COLON][0];
    forall k | i + 1 <= k < i + |name| ensures !IsWhitespace(b[k]) && b[k] != HEADER_COLON {
      assert b[k] == name[k - i];
    }
  }

  lemma NameBegins(p: Progress, b: seq<byte>, i: nat)
    requires p.state == HeaderKey && p.current == NO_HEADER && |p.headers| < MAX_HEADERS
    requires i < |b| && i + 1 < MAX_HEADER_BYTES && !IsLineEnd(b[i]) && b[i] != HEADER_COLON
    ensures Feed(p, b, i) == Feed(p.(current := Header(i, 0, None, 0), state := HeaderName), b, i + 1)
  {
    var q := p.(current := Header(i, 0, None, 0), state := HeaderName);
    assert b[..i + 1][i] == b[i];
    assert q == StepHeader(p, b[..i + 1]);
    hide StepHeader, Feed;
    OneStep(p, b, i, q);
  }

  lemma NameEnds(p: Progress, b: seq<byte>, i: nat, n: nat)
    requires i <= n < |b| && n + 1 < MAX_HEADER_BYTES && b[n] == HEADER_COLON
    ensures Feed(p.(current := Header(i, 0, None, 0), state := HeaderName), b, n) ==
      Feed(p.(current := Header(i, n - i, None, 0), state := HeaderValue), b, n + 1)
  {
    var q := p.(current := Header(i, 0, None, 0), state := HeaderName);
    var r := p.(current := Header(i, n - i, None, 0), state := HeaderValue);
    assert b[..n + 1][n] == b[n];
    assert r == StepHeader(q, b[..n + 1]);
    hide StepHeader, Feed;
    OneStep(q, b, n, r);
  }

  // What stands behind the colon.
  lemma ValueFeeds(p: Progress, b: seq<byte>, i: nat, f: Field)
    requires p.state == HeaderValue && p.current == Header(i, |f.name|, None, 0)
    requires FieldAt(b, i, f) && ValidField(f) && i + LineLength(f) < MAX_HEADER_BYTES
    ensures Feed(p, b, i + |f.name| + 1) == Feed(p.(current := Entry(f, i)), b, i + LineLength(f))
  {
    hide StepHeader, Feed, IsValue, FieldName, IsBlank, TextAt;
    var n := i + |f.name| + 1;
    var v := n + |f.before|;
    BlankFeeds(p, b, n, f.before);
    if f.value != [] {
      TextFeeds(p, b, v, f.value);
    }
    BlankFeeds(p.(current := Entry(f, i)), b, v + |f.value|, f.after);
  }

  lemma BlankFeeds(p: Progress, b: seq<byte>, i: nat, blank: seq<byte>)
    requires p.state == HeaderValue && TextAt(b, i, blank) && IsBlank(blank) && i + |blank| < MAX_HEADER_BYTES
    ensures Feed(p, b, i) == Feed(p, b, i + |blank|)
  {
    assert forall k :: i <= k < i + |blank| ==> b[k] == blank[k - i];
    hide Feed;
    BlankRun(p, b, i, i + |blank|);
  }

  lemma ValueBytes(b: seq<byte>, i: nat, value: seq<byte>)
    requires TextAt(b, i, value) && IsValue(value) && value != []
    ensures i + |value| <= |b| && !IsWhitespace(b[i]) && !IsWhitespace(b[i + |value| - 1])
    ensures forall k :: i <= k < i + |value| ==> !IsLineEnd(b[k])
  {
    assert b[i] == value[0] && b[i + |value| - 1] == value[|value| - 1];
    forall k | i <= k < i + |value| ensures !IsLineEnd(b[k]) {
      assert b[k] == value[k - i];
    }
  }

  lemma TextBegins(p: Progress, b: seq<byte>, i: nat)
    requires p.state == HeaderValue && p.current.value.None? && i < |b| && i + 1 < MAX_HEADER_BYTES
    requires !IsWhitespace(b[i])
    ensures Feed(p, b, i) == Feed(p.(current := p.current.(value := Some(i), valueLen := 1)), b, i + 1)
  {
    var q := p.(current := p.current.(value := Some(i), valueLen := 1));
    assert b[..i + 1][i] == b[i];
    assert q == StepHeader(p, b[..i + 1]);
    hide StepHeader, Feed;
    OneStep(p, b, i, q);
  }

  lemma TextFeeds(p: Progress, b: seq<byte>, i: nat, value: seq<byte>)
    requires p.state == HeaderValue && p.current.value.None? && i + |value| < MAX_HEADER_BYTES
    requires TextAt(b, i, value) && IsValue(value) && value != []
    ensures Feed(p, b, i) == Feed(p.(current := p.current.(value := Some(i), valueLen := |value|)), b, i + |value|)
  {
    hide StepHeader, Feed;
    var n := i + |value|;
    ValueBytes(b, i, value);
    TextBegins(p, b, i);
    if |value| > 1 {
      ValueRun(p.(current := p.current.(value := Some(i), valueLen := 1)), b, i, i + 1, n);
    }
  }

  lemma EntryFeeds(p: Progress, b: seq<byte>, i: nat, f: Field)
    requires FieldAt(b, i, f) && ValidField(f) && i + LineLength(f) < MAX_HEADER_BYTES
    requires p.state == HeaderKey && p.current == NO_HEADER && |p.headers| < MAX_HEADERS
    ensures Feed(p, b, i) == Feed(p.(current := Entry(f, i), state := HeaderValue), b, i + LineLength(f))
  {
    hide Feed, FieldName, IsValue, IsBlank, TextAt;
    NameFeeds(p, b, i, f.name);
    ValueFeeds(p.(current := Header(i, |f.name|, None, 0), state := HeaderValue), b, i, f);
  }

  // The end of the line stores the field.
  lemma StoreFeeds(p: Progress, b: seq<byte>, i: nat, end: LineEnd, stored: Progress)
    requires p.state == HeaderValue && TextAt(b, i, EndText(end)) && i + |EndText(end)| < MAX_HEADER_BYTES
    requires StoreHeader(p, b[..i + 1]) == Some(stored)
    ensures Feed(p, b, i) == Feed(NextHeader(stored), b, i + |EndText(end)|)
  {
    StoreKeepsNames(p, b[..i + 1]);
    EndBytes(b, i, end);
    assert b[..i + 1][i] == b[i];
    hide StoreHeader, Feed, TextAt, EndText;
    if end.CrLf? {
      assert b[..i + 2][i + 1] == b[i + 1];
      OneStep(p, b, i, stored.(state := HeaderLf));
      OneStep(stored.(state := HeaderLf), b, i + 1, NextHeader(stored));
    } else {
      OneStep(p, b, i, NextHeader(stored));
    }
  }

  // ---------------------------------------------------------------- all fields

  // The recorded offset is that of the last field of that name.
  predicate PointsTo(offset: Option<nat>, hs: seq<Header>, fields: seq<Field>, name: seq<byte>)
    requires |hs| == |fields|
  {
    match LastNamed(fields, name)
    case None => offset == None
    case Some(k) => offset == hs[k].value
  }

  // `p` stands behind these fields, in front of byte `n`.
  predicate ParsedSoFar(p: Progress, b: seq<byte>, n: nat, fields: seq<Field>) {
    && p.state == HeaderKey && p.status == 200 && p.current == NO_HEADER && |p.headers| == |fields|
    && p.bodyBytesRead == 0 && p.body.None? && n <= |b|
    && (forall k :: 0 <= k < |fields| ==>
          && HeaderWithin(p.headers[k], n)
          && NameOf(p.headers[k], b) == fields[k].name && ValueOf(p.headers[k], b) == fields[k].value)
    && DeclaredLength(fields) == Some(p.contentLength)
    && PointsTo(p.contentType, p.headers, fields, CONTENT_TYPE) && PointsTo(p.host, p.headers, fields, HOST)
  }

  // The entries lie within `n` bytes and carry the names of the fields.
  predicate NamesMatch(hs: seq<Header>, b: seq<byte>, n: nat, fields: seq<Field>) {
    && |hs| == |fields|
    && forall k :: 0 <= k < |fields| ==> HeaderWithin(hs[k], n) && NameOf(hs[k], b) == fields[k].name
  }

  // What the request line has left.
  predicate SameLine(p: Progress, q: Progress) {
    q.verb == p.verb && q.uri == p.uri && q.uriLen == p.uriLen && q.httpVersion == p.httpVersion
  }

  lemma PrefixTexts(h: Header, b: seq<byte>, n: nat)
    requires n <= |b| && HeaderWithin(h, n)
    ensures NameOf(h, b[..n]) == NameOf(h, b) && ValueOf(h, b[..n]) == ValueOf(h, b)
  {
    assert b[..n][h.name..h.name + h.nameLen] == b[h.name..h.name + h.nameLen];
    if h.value.Some? {
      assert b[..n][h.value.value..h.value.value + h.valueLen] == b[h.value.value..h.value.value + h.valueLen];
    }
  }

  lemma {:induction false} FoundIfDeclared(hs: seq<Header>, c: seq<byte>, fields: seq<Field>)
    requires |hs| == |fields| && forall k :: 0 <= k < |hs| ==> NameOf(hs[k], c) == fields[k].name
    ensures FindHeader(hs, c, CONTENT_LENGTH).Some? <==> Declares(fields)
  {
    if hs != [] {
      var n := |hs| - 1;
      FoundIfDeclared(hs[..n], c, fields[..n]);
      DeclaresSnoc(fields);
    }
  }

  lemma DeclaresSnoc(fields: seq<Field>)
    requires fields != []
    ensures Declares(fields) <==>
      Declares(fields[..|fields| - 1]) || EqualFold(fields[|fields| - 1].name, CONTENT_LENGTH)
  {
    assert forall k :: 0 <= k < |fields| - 1 ==> fields[..|fields| - 1][k] == fields[k];
  }

  lemma DeclaredSnoc(fields: seq<Field>, f: Field)
    ensures DeclaredLength(fields + [f]) ==
      var before := DeclaredLength(fields);
      if before.None? || EqualFold(f.name, TRANSFER_ENCODING) then None
      else if !EqualFold(f.name, CONTENT_LENGTH) then before
      else if Declares(fields) then None
      else LengthOf(f.value)
  {
    assert (fields + [f])[..|fields|] == fields;
  }

  lemma LastSnoc(fields: seq<Field>, f: Field, name: seq<byte>)
    ensures LastNamed(fields + [f], name) == if EqualFold(f.name, name) then Some(|fields|) else LastNamed(fields, name)
  {
    assert (fields + [f])[..|fields|] == fields;
  }

  // The four names have four lengths.
  lemma NamesDiffer(t: seq<byte>)
    ensures EqualFold(t, CONTENT_LENGTH) ==> |t| == 14
    ensures EqualFold(t, CONTENT_TYPE) ==> |t| == 12
    ensures EqualFold(t, TRANSFER_ENCODING) ==> |t| == 17
    ensures EqualFold(t, HOST) ==> |t| == 4
  {
  }

  // parse_header takes exactly what may be sent.
  lemma FieldIsStored(p: Progress, c: seq<byte>, n: nat, fields: seq<Field>, f: Field)
    requires NamesMatch(p.headers, c, n, fields)
    requires NameOf(p.current, c) == f.name && ValueOf(p.current, c) == f.value
    requires DeclaredLength(fields) == Some(p.contentLength)
    ensures StoreHeader(p, c).Some? <==> DeclaredLength(fields + [f]).Some?
    ensures StoreHeader(p, c).Some? ==>
      var q := StoreHeader(p, c).value;
      && DeclaredLength(fields + [f]) == Some(q.contentLength)
      && q == p.(contentLength := q.contentLength, contentType := q.contentType, host := q.host)
      && q.contentType == (if EqualFold(f.name, CONTENT_TYPE) then p.current.value else p.contentType)
      && q.host == (if EqualFold(f.name, HOST) then p.current.value else p.host)
  {
    FoundIfDeclared(p.headers, c, fields);
    DeclaredSnoc(fields, f);
    NamesDiffer(f.name);
    hide FindHeader, DeclaredLength, Declares, LengthOf, EqualFold, NameOf, ValueOf;
  }

  // The entry denotes the field it was made from.
  lemma EntryTexts(b: seq<byte>, i: nat, f: Field)
    requires FieldAt(b, i, f)
    ensures HeaderWithin(Entry(f, i), i + LineLength(f))
    ensures NameOf(Entry(f, i), b) == f.name && ValueOf(Entry(f, i), b) == f.value
  {
  }

  // One field line.
  lemma FieldFeeds(p: Progress, b: seq<byte>, i: nat, fields: seq<Field>, f: Field) returns (q: Progress)
    requires ParsedSoFar(p, b, i, fields) && FieldAt(b, i, f) && ValidField(f) && |fields| < MAX_HEADERS
    requires i + FieldLength(f) < MAX_HEADER_BYTES && DeclaredLength(fields + [f]).Some?
    ensures Feed(p, b, i) == Feed(q, b, i + FieldLength(f))
    ensures ParsedSoFar(q, b, i + FieldLength(f), fields + [f]) && SameLine(p, q)
  {
    hide ValidField, FieldAt, TextAt, Feed, DeclaredLength, LastNamed, ParsedSoFar, Entry;
    hide NameOf, ValueOf, EqualFold, HeaderWithin, EndText, LineLength, NamesMatch;
    FieldInHand(p, b, i, i + LineLength(f), fields);
    q := EntryStored(p, b, i, fields, f);
    EntryTexts(b, i, f);
    FieldAdded(p, q, b, i, i + LineLength(f), fields, f);
  }

  lemma EntryStored(p: Progress, b: seq<byte>, i: nat, fields: seq<Field>, f: Field) returns (q: Progress)
    requires p.state == HeaderKey && p.current == NO_HEADER && |p.headers| < MAX_HEADERS
    requires FieldAt(b, i, f) && ValidField(f) && i + FieldLength(f) < MAX_HEADER_BYTES
    requires NamesMatch(p.headers, b, i + LineLength(f), fields)
    requires DeclaredLength(fields) == Some(p.contentLength) && DeclaredLength(fields + [f]).Some?
    ensures Feed(p, b, i) == Feed(q, b, i + FieldLength(f)) && DeclaredLength(fields + [f]) == Some(q.contentLength)
    ensures i + FieldLength(f) <= |b|
    ensures q == p.(headers := p.headers + [Entry(f, i)], contentLength := q.contentLength,
                    contentType := q.contentType, host := q.host)
    ensures q.contentType == (if EqualFold(f.name, CONTENT_TYPE) then Entry(f, i).value else p.contentType)
    ensures q.host == (if EqualFold(f.name, HOST) then Entry(f, i).value else p.host)
  {
    hide ValidField, FieldAt, TextAt, Feed, DeclaredLength, Entry, NameOf, ValueOf, EqualFold;
    hide HeaderWithin, EndText, LineLength, NamesMatch;
    EndThere(b, i, f);
    EntryTexts(b, i, f);
    EntryFeeds(p, b, i, f);
    q := LineStored(p.(current := Entry(f, i), state := HeaderValue), b, i + LineLength(f), fields, f);
  }

  lemma EndThere(b: seq<byte>, i: nat, f: Field)
    requires FieldAt(b, i, f)
    ensures TextAt(b, i + LineLength(f), EndText(f.end)) && i + FieldLength(f) <= |b|
  {
  }

  lemma FieldInHand(p: Progress, b: seq<byte>, i: nat, v: nat, fields: seq<Field>)
    requires ParsedSoFar(p, b, i, fields) && i <= v
    ensures p.state == HeaderKey && p.current == NO_HEADER && |p.headers| == |fields|
    ensures DeclaredLength(fields) == Some(p.contentLength) && NamesMatch(p.headers, b, v, fields)
  {
    hide DeclaredLength, LastNamed;
  }

  lemma FieldAdded(p: Progress, q: Progress, b: seq<byte>, i: nat, v: nat, fields: seq<Field>, f: Field)
    requires ParsedSoFar(p, b, i, fields) && i <= v && v + |EndText(f.end)| <= |b|
    requires HeaderWithin(Entry(f, i), v) && NameOf(Entry(f, i), b) == f.name && ValueOf(Entry(f, i), b) == f.value
    requires q == p.(headers := p.headers + [Entry(f, i)], contentLength := q.contentLength,
                     contentType := if EqualFold(f.name, CONTENT_TYPE) then Entry(f, i).value else p.contentType,
                     host := if EqualFold(f.name, HOST) then Entry(f, i).value else p.host)
    requires DeclaredLength(fields + [f]) == Some(q.contentLength)
    ensures ParsedSoFar(q, b, v + |EndText(f.end)|, fields + [f]) && SameLine(p, q)
  {
    LastSnoc(fields, f, CONTENT_TYPE);
    LastSnoc(fields, f, HOST);
    hide DeclaredLength, LastNamed, Entry, EqualFold, EndText;
  }

  // The field in hand is stored at the end of its line.
  lemma LineStored(r: Progress, b: seq<byte>, v: nat, fields: seq<Field>, f: Field) returns (q: Progress)
    requires r.state == HeaderValue && TextAt(b, v, EndText(f.end)) && v + |EndText(f.end)| < MAX_HEADER_BYTES
    requires NamesMatch(r.headers, b, v, fields) && HeaderWithin(r.current, v)
    requires NameOf(r.current, b) == f.name && ValueOf(r.current, b) == f.value
    requires DeclaredLength(fields) == Some(r.contentLength) && DeclaredLength(fields + [f]).Some?
    ensures Feed(r, b, v) == Feed(q, b, v + |EndText(f.end)|) && DeclaredLength(fields + [f]) == Some(q.contentLength)
    ensures q == r.(state := HeaderKey, headers := r.headers + [r.current], current := NO_HEADER,
                    contentLength := q.contentLength,
                    contentType := if EqualFold(f.name, CONTENT_TYPE) then r.current.value else r.contentType,
                    host := if EqualFold(f.name, HOST) then r.current.value else r.host)
  {
    hide DeclaredLength, Feed, StoreHeader, TextAt, EqualFold, NameOf, ValueOf, HeaderWithin, EndText, NamesMatch;
    EndBytes(b, v, f.end);
    StoredTexts(r, b, v, fields);
    FieldIsStored(r, b[..v + 1], v, fields, f);
    var stored := StoreHeader(r, b[..v + 1]).value;
    StoreFeeds(r, b, v, f.end, stored);
    q := NextHeader(stored);
  }

  // At the end of its line the parser sees the same names and value.
  lemma StoredTexts(r: Progress, b: seq<byte>, v: nat, fields: seq<Field>)
    requires v < |b| && NamesMatch(r.headers, b, v, fields) && HeaderWithin(r.current, v)
    ensures NamesMatch(r.headers, b[..v + 1], v, fields)
    ensures NameOf(r.current, b[..v + 1]) == NameOf(r.current, b)
    ensures ValueOf(r.current, b[..v + 1]) == ValueOf(r.current, b)
  {
    forall k | 0 <= k < |fields|
      ensures HeaderWithin(r.headers[k], v) && NameOf(r.headers[k], b[..v + 1]) == fields[k].name
    {
      PrefixTexts(r.headers[k], b, v + 1);
    }
    PrefixTexts(r.current, b, v + 1);
  }

  lemma {:induction false} DeclaredPrefix(fields: seq<Field>, n: nat)
    requires n <= |fields| && DeclaredLength(fields).Some?
    ensures DeclaredLength(fields[..n]).Some?
    decreases |fields|
  {
    if n < |fields| {
      DeclaredPrefix(fields[..|fields| - 1], n);
      assert fields[..|fields| - 1][..n] == fields[..n];
    } else {
      assert fields[..n] == fields;
    }
  }

  // All field lines from the `k`-th on.
  lemma {:induction false} FieldsFeed(p: Progress, b: seq<byte>, i: nat, fields: seq<Field>, k: nat)
    returns (q: Progress)
    requires k <= |fields| <= MAX_HEADERS && ParsedSoFar(p, b, i, fields[..k]) && FieldsAt(b, i, fields[k..])
    requires forall j :: 0 <= j < |fields| ==> ValidField(fields[j])
    requires i + FieldsLength(fields[k..]) < MAX_HEADER_BYTES && DeclaredLength(fields).Some?
    ensures var e := i + FieldsLength(fields[k..]);
      e <= |b| && Feed(p, b, i) == Feed(q, b, e) && ParsedSoFar(q, b, e, fields) && SameLine(p, q)
    decreases |fields| - k
  {
    hide FieldAt, FieldLength, Feed, DeclaredLength, LastNamed, ValidField;
    if k == |fields| {
      assert fields[..k] == fields;
      q := p;
    } else {
      assert fields[k..][1..] == fields[k + 1..] && fields[k..][0] == fields[k];
      assert fields[..k] + [fields[k]] == fields[..k + 1];
      DeclaredPrefix(fields, k + 1);
      var r := FieldFeeds(p, b, i, fields[..k], fields[k]);
      hide ParsedSoFar;
      q := FieldsFeed(r, b, i + FieldLength(fields[k]), fields, k + 1);
    }
  }

  // ---------------------------------------------------------------- the end of the header section

  lemma ReturnFeeds(p: Progress, b: seq<byte>, i: nat)
    requires p.state == HeaderKey && i < |b| && i + 1 < MAX_HEADER_BYTES && b[i] == CR
    ensures Feed(p, b, i) == Feed(p.(state := HeaderEnd), b, i + 1)
  {
    assert b[..i + 1][i] == b[i];
    OneStep(p, b, i, p.(state := HeaderEnd));
  }

  lemma SectionLineFeed(p: Progress, b: seq<byte>, i: nat)
    requires (p.state == HeaderKey || p.state == HeaderEnd) && i < |b| && i + 1 < MAX_HEADER_BYTES && b[i] == LF
    ensures Feed(p, b, i) == Feed(StartBody(p.(state := Body), i + 1), b, i + 1)
  {
    assert b[..i + 1][i] == b[i];
    hide StartBody;
  }

  // The empty line leads to the body, or fails because the body is too long.
  lemma SectionEnds(p: Progress, b: seq<byte>, i: nat, end: LineEnd)
    requires p.state == HeaderKey && TextAt(b, i, EndText(end)) && i + |EndText(end)| < MAX_HEADER_BYTES
    ensures var h := i + |EndText(end)|; Feed(p, b, i) == Feed(StartBody(p.(state := Body), h), b, h)
  {
    hide TextAt, EndText, StepHeader, Step, Feed, StartBody;
    EndBytes(b, i, end);
    if end.CrLf? {
      ReturnFeeds(p, b, i);
      SectionLineFeed(p.(state := HeaderEnd), b, i + 1);
    } else {
      SectionLineFeed(p, b, i);
    }
  }

  lemma BodyFeeds(p: Progress, b: seq<byte>, h: nat)
    requires p.state == HeaderKey && p.bodyBytesRead == 0 && p.body.None? && h < MAX_HEADER_BYTES && h <= |b|
    ensures var q := Feed(StartBody(p.(state := Body), h), b, h);
      && (q.state == Done <==> h + p.contentLength <= |b| && h + p.contentLength < MAX_REQUEST_BYTES)
      && (q.state == Done ==>
            q == p.(state := Done, body := if p.contentLength == 0 then None else Some(h),
                    bodyBytesRead := p.contentLength))
  {
    var t := StartBody(p.(state := Body), h);
    if Settled(t) {
      FeedSettled(t, b, h);
    } else if h < |b| {
      FeedBody(t, b, h);
    }
  }

  // ---------------------------------------------------------------- the whole request

  lemma TokensDiffer(b: seq<byte>, m: Method)
    requires |b| >= 8 && Token(m) <= b[..8]
    ensures MethodOf(b[..8]) == Some(m)
  {
    var t, c := Token(m), b[..8];
    assert c[0] == t[0] && c[1] == t[1] && c[2] == t[2] && c[3] == t[3];
  }

  lemma LineParts(b: seq<byte>, m: Message)
    requires LineAt(b, m)
    ensures var i := |Token(m.verb)|;
      && |b| >= 8 && Token(m.verb) <= b[..8] && RequestLineLength(m) <= |b|
      && TextAt(b, i, m.uri) && TextAt(b, i + |m.uri|, [SPACE])
      && TextAt(b, i + |m.uri| + 1, VersionText(m.version)) && TextAt(b, i + |m.uri| + 9, EndText(m.lineEnd))
  {
    hide Token, VersionText;
    assert b[..8][..|Token(m.verb)|] == b[0..|Token(m.verb)|];
  }

  // The request line, up to the first field.
  lemma LineFeeds(b: seq<byte>, m: Message) returns (p: Progress)
    requires LineAt(b, m) && IsUri(m.uri) && RequestLineLength(m) < MAX_HEADER_BYTES
    ensures After(b) == Feed(p, b, RequestLineLength(m)) && ParsedSoFar(p, b, RequestLineLength(m), [])
    ensures p.verb == m.verb && p.httpVersion == m.version
    ensures p.uri == Some(|Token(m.verb)|) && p.uriLen == |m.uri| && TextAt(b, p.uri.value, m.uri)
  {
    hide LineAt, TextAt, IsUri, After, Feed, MethodOf, Token, VersionText, EndText;
    LineParts(b, m);
    TokensDiffer(b, m.verb);
    LaunchFeeds(b);
    var i, start := |Token(m.verb)|, UriStart(m.verb);
    TargetFeeds(start, b, i, m.uri);
    var target := start.(uri := Some(i), uriLen := |m.uri|, state := ReqVersion);
    var n := i + |m.uri| + 1;
    VersionFeeds(target, b, n, m.version, m.lineEnd);
    p := target.(version := Some(n), versionLen := 8, httpVersion := m.version, state := HeaderKey);
  }

  /** What the parser says about a text that begins with a well-formed request: the parts of that request. */
  predicate TakenApart(p: Progress, b: seq<byte>, m: Message) {
    && p.state == Done && p.status == 200 && p.verb == m.verb && p.httpVersion == m.version
    && p.uri.Some? && Sub(b, p.uri.value, p.uriLen) == m.uri
    && |p.headers| == |m.fields|
    && (forall k :: 0 <= k < |m.fields| ==>
          NameOf(p.headers[k], b) == m.fields[k].name && ValueOf(p.headers[k], b) == m.fields[k].value)
    && PointsTo(p.contentType, p.headers, m.fields, CONTENT_TYPE) && PointsTo(p.host, p.headers, m.fields, HOST)
    && p.contentLength == p.bodyBytesRead == |m.body|
    && (if m.body == [] then p.body.None? else p.body.Some? && Sub(b, p.body.value, p.contentLength) == m.body)
  }

  lemma HeadFeeds(b: seq<byte>, m: Message) returns (q: Progress)
    requires MessageAt(b, m) && ValidMessage(m)
    ensures var h := HeadLength(m);
      && h <= |b| && After(b) == Feed(StartBody(q.(state := Body), h), b, h)
    ensures ParsedSoFar(q, b, HeadLength(m) - |EndText(m.sectionEnd)|, m.fields)
    ensures q.verb == m.verb && q.httpVersion == m.version && q.uri.Some? && Sub(b, q.uri.value, q.uriLen) == m.uri
  {
    hide LineAt, FieldsAt, TextAt, IsUri, DeclaredLength, LastNamed, ValidField, After, Feed, StartBody, EndText, Token;
    var p := LineFeeds(b, m);
    var i := RequestLineLength(m);
    assert m.fields[..0] == [] && m.fields[0..] == m.fields;
    q := FieldsFeed(p, b, i, m.fields, 0);
    SectionEnds(q, b, i + FieldsLength(m.fields), m.sectionEnd);
    TextThere(b, i + FieldsLength(m.fields), EndText(m.sectionEnd));
    TextThere(b, p.uri.value, m.uri);
  }

  lemma TextThere(b: seq<byte>, i: nat, t: seq<byte>)
    requires TextAt(b, i, t)
    ensures i + |t| <= |b| && Sub(b, i, |t|) == t
  {
  }

  /** Round trip: whatever follows it, a printed request is taken apart into exactly the parts it was made of. */
  lemma ParsePrinted(m: Message, rest: seq<byte>)
    requires ValidMessage(m)
    ensures TakenApart(After(Print(m) + rest), Print(m) + rest, m)
  {
    var b := Print(m) + rest;
    PrintedByParts(b, m, rest);
    hide MessageAt, DeclaredLength, LastNamed, ValidField, IsUri, Feed, After, StartBody, Print, HeadLength;
    var q := HeadFeeds(b, m);
    BodyFeeds(q, b, HeadLength(m));
    BodyThere(b, m);
  }

  lemma BodyThere(b: seq<byte>, m: Message)
    requires MessageAt(b, m)
    ensures Sub(b, HeadLength(m), |m.body|) == m.body && HeadLength(m) + |m.body| <= |b|
  {
  }
}
