/** What the header table of a request means: field names, and the one Content-Length. */
module HttpFields {
  import opened Common
  import opened HttpParser

  // ---------------------------------------------------------------- growing input

  lemma SubGrows(b: seq<byte>, from: nat, len: nat)
    requires b != [] && from + len < |b|
    ensures Sub(b, from, len) == Sub(b[..|b| - 1], from, len)
  {
  }

  lemma HeaderGrows(h: Header, b: seq<byte>)
    requires b != [] && HeaderWithin(h, |b| - 1)
    ensures NameOf(h, b) == NameOf(h, b[..|b| - 1]) && ValueOf(h, b) == ValueOf(h, b[..|b| - 1])
  {
    SubGrows(b, h.name, h.nameLen);
    if h.value.Some? {
      SubGrows(b, h.value.value, h.valueLen);
    }
  }

  // ---------------------------------------------------------------- field names

  // Only the first byte of a name may be a space or a tab.
  predicate FieldName(t: seq<byte>) {
    && t != [] && !IsLineEnd(t[0]) && t[0] != HEADER_COLON
    && forall k :: 1 <= k < |t| ==> !IsWhitespace(t[k]) && t[k] != HEADER_COLON
  }

  predicate NamesFit(p: Progress, b: seq<byte>) {
    && (forall k :: 0 <= k < |p.headers| ==> FieldName(NameOf(p.headers[k], b)))
    && (p.state == HeaderValue || p.state == HeaderLf ==> FieldName(NameOf(p.current, b)))
    && (p.state == HeaderName ==> p.current.name < |b| && p.current.nameLen == 0 && FieldName(b[p.current.name..]))
  }

  lemma OldNamesFit(p: Progress, b: seq<byte>)
    requires b != [] && Within(p, |b| - 1) && NamesFit(p, b[..|b| - 1])
    ensures forall k :: 0 <= k < |p.headers| ==> FieldName(NameOf(p.headers[k], b))
    ensures p.state == HeaderValue || p.state == HeaderLf ==> FieldName(NameOf(p.current, b))
  {
    forall k | 0 <= k < |p.headers| ensures FieldName(NameOf(p.headers[k], b)) {
      HeaderGrows(p.headers[k], b);
    }
    HeaderGrows(p.current, b);
  }

  lemma NameStepFits(p: Progress, b: seq<byte>)
    requires b != [] && Within(p, |b| - 1) && NamesFit(p, b[..|b| - 1]) && p.state == HeaderName
    ensures NamesFit(StepName(p, b), b)
  {
    OldNamesFit(p, b);
    var from := p.current.name;
    var t := b[from..];
    assert t[..|t| - 1] == b[..|b| - 1][from..];
    assert forall k :: 0 <= k < |t| - 1 ==> t[k] == t[..|t| - 1][k];
    assert Sub(b, from, |b| - 1 - from) == t[..|t| - 1];
  }

  lemma KeyStepFits(p: Progress, b: seq<byte>)
    requires b != [] && Within(p, |b| - 1) && NamesFit(p, b[..|b| - 1]) && p.state == HeaderKey
    ensures NamesFit(StepKey(p, b), b)
  {
    OldNamesFit(p, b);
    assert b[|b| - 1..] == [b[|b| - 1]];
  }

  lemma ValueStepFits(p: Progress, b: seq<byte>)
    requires b != [] && Within(p, |b| - 1) && NamesFit(p, b[..|b| - 1]) && p.state == HeaderValue
    ensures NamesFit(StepValue(p, b), b)
  {
    OldNamesFit(p, b);
    StoreKeepsNames(p, b);
    hide StoreHeader, FieldName;
  }

  lemma StoreKeepsNames(p: Progress, b: seq<byte>)
    ensures StoreHeader(p, b).Some? ==>
      var q := StoreHeader(p, b).value; q.headers == p.headers && q.current == p.current && q.state == p.state
  {
  }

  lemma HeaderStepFits(p: Progress, b: seq<byte>)
    requires b != [] && Within(p, |b| - 1) && NamesFit(p, b[..|b| - 1])
    ensures NamesFit(StepHeader(p, b), b)
  {
    OldNamesFit(p, b);
    if p.state == HeaderKey {
      KeyStepFits(p, b);
    } else if p.state == HeaderName {
      NameStepFits(p, b);
    } else if p.state == HeaderValue {
      ValueStepFits(p, b);
    } else {
      hide StepKey, StepName, StepValue;
    }
  }

  lemma StepFits(p: Progress, b: seq<byte>)
    requires b != [] && Within(p, |b| - 1) && NamesFit(p, b[..|b| - 1])
    ensures NamesFit(Step(p, b), b)
  {
    OldNamesFit(p, b);
    HeaderStepFits(p, b);
    hide StepHeader;
  }

  lemma {:induction false} FeedFits(p: Progress, b: seq<byte>, i: nat)
    requires i <= |b| && Within(p, i) && NamesFit(p, b[..i])
    ensures NamesFit(Feed(p, b, i), b)
    decreases |b| - i
  {
    if i == |b| {
      assert b[..i] == b;
    } else {
      assert b[..i + 1][..i] == b[..i];
      StepWithin(p, b[..i + 1]);
      StepFits(p, b[..i + 1]);
      FeedFits(Step(p, b[..i + 1]), b, i + 1);
    }
  }

  /** Every recorded name is free of colons and, but for its first byte, of whitespace; so it is a name without
      whitespace exactly when that first byte is neither space nor tab. */
  lemma RecordedNames(b: seq<byte>, k: nat)
    requires k < |After(b).headers|
    ensures var name := NameOf(After(b).headers[k], b);
      && FieldName(name)
      && ((exists i :: 0 <= i < |name| && IsWhitespace(name[i])) <==> name[0] == SPACE || name[0] == TAB)
  {
    hide After, NameOf;
    AfterFits(b);
    var name := NameOf(After(b).headers[k], b);
    if name[0] == SPACE || name[0] == TAB {
      assert IsWhitespace(name[0]);
    }
  }

  lemma AfterFits(b: seq<byte>)
    ensures NamesFit(After(b), b)
  {
    if |b| >= 8 {
      LaunchFeeds(b);
      hide After, Feed;
      var m := MethodOf(b[..8]);
      if m.Some? {
        FeedFits(UriStart(m.value), b, |Token(m.value)|);
      }
    }
  }

  // ---------------------------------------------------------------- Content-Length

  // The headers that parse_header has seen.
  function Seen(p: Progress): seq<Header> {
    if p.state == HeaderLf then p.headers + [p.current] else p.headers
  }

  // At most one of them is a Content-Length, and it holds the recorded number; without one the number is 0.
  predicate LengthFits(hs: seq<Header>, b: seq<byte>, n: nat) {
    match FindHeader(hs, b, CONTENT_LENGTH)
    case None => n == 0
    case Some(i) =>
      i < |hs| && LengthOf(ValueOf(hs[i], b)) == Some(n)
      && forall j :: 0 <= j < |hs| && IsNamed(hs[j], b, CONTENT_LENGTH) ==> j == i
  }

  lemma {:induction false} FindGrows(hs: seq<Header>, b: seq<byte>, name: seq<byte>)
    requires b != [] && forall k :: 0 <= k < |hs| ==> HeaderWithin(hs[k], |b| - 1)
    ensures FindHeader(hs, b, name) == FindHeader(hs, b[..|b| - 1], name)
  {
    if hs != [] {
      FindGrows(hs[..|hs| - 1], b, name);
      HeaderGrows(hs[|hs| - 1], b);
    }
  }

  lemma {:induction false} FoundFirst(hs: seq<Header>, b: seq<byte>, name: seq<byte>)
    ensures FindHeader(hs, b, name) == None ==> forall j :: 0 <= j < |hs| ==> !IsNamed(hs[j], b, name)
    ensures FindHeader(hs, b, name).Some? ==> FindHeader(hs, b, name).value < |hs|
  {
    if hs != [] {
      FoundFirst(hs[..|hs| - 1], b, name);
    }
  }

  lemma LengthGrows(hs: seq<Header>, b: seq<byte>, n: nat)
    requires b != [] && (forall k :: 0 <= k < |hs| ==> HeaderWithin(hs[k], |b| - 1)) && LengthFits(hs, b[..|b| - 1], n)
    ensures LengthFits(hs, b, n)
  {
    FindGrows(hs, b, CONTENT_LENGTH);
    forall k | 0 <= k < |hs|
      ensures NameOf(hs[k], b) == NameOf(hs[k], b[..|b| - 1]) && ValueOf(hs[k], b) == ValueOf(hs[k], b[..|b| - 1])
    {
      HeaderGrows(hs[k], b);
    }
    FoundFirst(hs, b, CONTENT_LENGTH);
  }

  // One more header: it is a Content-Length only if there was none before.
  lemma StoreKeepsLength(p: Progress, b: seq<byte>)
    requires LengthFits(p.headers, b, p.contentLength) && StoreHeader(p, b).Some?
    ensures LengthFits(p.headers + [p.current], b, StoreHeader(p, b).value.contentLength)
  {
    var hs := p.headers + [p.current];
    assert hs[..|hs| - 1] == p.headers;
    FoundFirst(p.headers, b, CONTENT_LENGTH);
    NotTwice(p, b);
  }

  lemma NotTwice(p: Progress, b: seq<byte>)
    requires StoreHeader(p, b).Some?
    ensures IsNamed(p.current, b, CONTENT_LENGTH) ==>
      FindHeader(p.headers, b, CONTENT_LENGTH).None?
      && LengthOf(ValueOf(p.current, b)) == Some(StoreHeader(p, b).value.contentLength)
    ensures !IsNamed(p.current, b, CONTENT_LENGTH) ==> StoreHeader(p, b).value.contentLength == p.contentLength
    ensures StoreHeader(p, b).value.headers == p.headers && StoreHeader(p, b).value.current == p.current
  {
  }

  predicate LengthKept(p: Progress, b: seq<byte>) {
    p.state != Failed ==> LengthFits(Seen(p), b, p.contentLength)
  }

  lemma ValueStepKeepsLength(p: Progress, b: seq<byte>)
    requires b != [] && p.state == HeaderValue && LengthFits(p.headers, b, p.contentLength)
    ensures LengthKept(StepValue(p, b), b)
  {
    if StoreHeader(p, b).Some? {
      StoreKeepsLength(p, b);
      NotTwice(p, b);
    }
    hide LengthFits, StoreHeader;
  }

  lemma OtherStepsSeeNothing(p: Progress, b: seq<byte>)
    requires b != [] && p.state != HeaderValue && p.state != Failed
    ensures var q := StepHeader(p, b); q.state != Failed ==> Seen(q) == Seen(p) && q.contentLength == p.contentLength
  {
  }

  lemma BodyStepsSeeNothing(q: Progress, n: nat)
    requires q.state == Body
    ensures n <= MAX_REQUEST_BYTES ==>
      Seen(StartBody(q, n)) == Seen(q) && StartBody(q, n).contentLength == q.contentLength
    ensures Seen(StepBody(q)) == Seen(q) && StepBody(q).contentLength == q.contentLength
  {
  }

  lemma SeenWithin(p: Progress, n: nat)
    requires Within(p, n)
    ensures forall k :: 0 <= k < |Seen(p)| ==> HeaderWithin(Seen(p)[k], n)
    ensures p.state != HeaderLf ==> Seen(p) == p.headers
  {
  }

  lemma StepKeepsLength(p: Progress, b: seq<byte>)
    requires b != [] && Within(p, |b| - 1) && LengthKept(p, b[..|b| - 1])
    ensures LengthKept(Step(p, b), b)
  {
    hide LengthFits, StepValue, StepKey, StepName, StepUri, StepVersion, StartBody, StepBody, Seen, NextHeader;
    SeenWithin(p, |b| - 1);
    if p.state != Failed {
      LengthGrows(Seen(p), b, p.contentLength);
      var q := StepHeader(p, b);
      if p.state == HeaderValue {
        ValueStepKeepsLength(p, b);
      } else {
        OtherStepsSeeNothing(p, b);
      }
      if p.state == Body {
        BodyStepsSeeNothing(p, |b|);
      } else if q.state == Body {
        BodyStepsSeeNothing(q, |b|);
      }
    }
  }

  lemma {:induction false} FeedKeepsLength(p: Progress, b: seq<byte>, i: nat)
    requires i <= |b| && Within(p, i) && LengthKept(p, b[..i])
    ensures LengthKept(Feed(p, b, i), b)
    decreases |b| - i
  {
    if i == |b| {
      assert b[..i] == b;
    } else {
      assert b[..i + 1][..i] == b[..i];
      StepWithin(p, b[..i + 1]);
      StepKeepsLength(p, b[..i + 1]);
      FeedKeepsLength(Step(p, b[..i + 1]), b, i + 1);
    }
  }

  /** The content length is the exact value of the one Content-Length field, or 0 without such a field, as long as
      the request has not been refused. */
  lemma ContentLengthIsExact(b: seq<byte>)
    ensures var p := After(b); p.state != Failed ==> LengthFits(Seen(p), b, p.contentLength)
  {
    if |b| >= 8 {
      LaunchFeeds(b);
      var m := MethodOf(b[..8]);
      if m.Some? {
        FeedKeepsLength(UriStart(m.value), b, |Token(m.value)|);
      }
    }
  }
}
