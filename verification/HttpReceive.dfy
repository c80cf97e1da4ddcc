/** parse_http_request: whatever the socket delivers goes through the chunk parser until it settles. */
module HttpReceive {
  import opened Common
  import opened HttpParser
  import opened HttpRequest
  import opened UriText
  import opened UriNormalize
  import HttpMessage
  import HttpRoundTrip

  // What the next recv finds: bytes that are ready, an orderly end, nothing yet, or another error.
  datatype Event = Data(bytes: seq<byte>) | Closed | WouldBlock | Broken

  predicate Ends(e: Event) {
    e == Closed || e == Broken || e == Data([])
  }

  // The bytes that arrive before the end.
  function Stream(events: seq<Event>): seq<byte> {
    if events == [] || Ends(events[0]) then []
    else if events[0].Data? then events[0].bytes + Stream(events[1..])
    else Stream(events[1..])
  }

  // How the bytes end, if they do.
  function Ending(events: seq<Event>): Option<Event> {
    if events == [] then None
    else if Ends(events[0]) then Some(events[0])
    else Ending(events[1..])
  }

  // How much the kernel still holds.
  function Backlog(events: seq<Event>): nat {
    if events == [] then 0
    else 1 + (if events[0].Data? then |events[0].bytes| else 0) + Backlog(events[1..])
  }

  function TargetText(p: Progress, b: seq<byte>): seq<byte> {
    if p.uri.None? then [] else Sub(b, p.uri.value, p.uriLen)
  }

  function StatusOf(outcome: Outcome): nat {
    match outcome
    case Normalized => 200
    case TooManyParams => 414
    case Invalid => 400
  }

  /** The status for these bytes and this end; None while more is waited for. */
  function ReplyTo(b: seq<byte>, end: Option<Event>): Option<nat> {
    var p := After(b);
    if p.state == Done then Some(StatusOf(OutcomeOf(TargetText(p, b))))
    else if p.state == Failed then Some(p.status)
    else match end
      case None => None
      case Some(Broken) => Some(500)
      case Some(_) => Some(400)
  }

  // recv: at most as much as there is room for; the kernel keeps the rest.
  function Remaining(events: seq<Event>, n: nat): seq<Event>
    requires events != [] && events[0].Data? && n <= |events[0].bytes|
  {
    var bytes := events[0].bytes;
    if n == |bytes| then events[1..] else [Data(bytes[n..])] + events[1..]
  }

  lemma RemainingStream(events: seq<Event>, n: nat)
    requires events != [] && events[0].Data? && 0 < n <= |events[0].bytes|
    ensures Stream(events) == events[0].bytes[..n] + Stream(Remaining(events, n))
    ensures Ending(events) == Ending(Remaining(events, n))
    ensures Backlog(Remaining(events, n)) < Backlog(events)
  {
    var bytes := events[0].bytes;
    assert bytes == bytes[..n] + bytes[n..];
    if n == |bytes| {
      assert bytes[..n] == bytes;
    } else {
      assert Remaining(events, n)[1..] == events[1..];
      Associative(bytes[..n], bytes[n..], Stream(events[1..]));
    }
  }

  // The bytes are stored behind those received before.
  method Store(r: Request, bytes: seq<byte>)
    requires r.Valid() && r.bufLen + |bytes| <= MAX_REQUEST_BYTES
    modifies r.buf, r`bufLen
    ensures r.Valid() && r.bufLen == old(r.bufLen) + |bytes|
    ensures r.Received() == old(r.Received()) + bytes && r.View() == old(r.View())
  {
    var i := 0;
    while i < |bytes|
      modifies r.buf
      invariant 0 <= i <= |bytes|
      invariant r.buf[..r.bufLen] == old(r.buf[..r.bufLen])
      invariant forall k :: 0 <= k < i ==> r.buf[r.bufLen + k] == bytes[k]
    {
      r.buf[r.bufLen + i] := bytes[i];
      i := i + 1;
    }
    r.bufLen := r.bufLen + |bytes|;
    assert r.buf[..r.bufLen] == old(r.buf[..r.bufLen]) + bytes;
  }

  // The parser has read all it was given and wants more.
  ghost predicate Waiting(r: Request)
    reads r, r.headers, r.buf
  {
    r.Valid() && r.View() == After(r.Received()) && !Settled(r.View())
  }

  // One delivery: recv and parse_chunk.
  method Deliver(r: Request, bytes: seq<byte>) returns (code: Code)
    requires Waiting(r) && bytes != [] && r.bufLen + |bytes| <= MAX_REQUEST_BYTES
    modifies r, r.buf, r.headers
    ensures r.Valid() && r.Received() == old(r.Received()) + bytes
    ensures r.View() == After(r.Received()) && code == CodeOf(r.state)
  {
    ghost var before := r.Received();
    Store(r, bytes);
    assert r.buf[..r.bufLen - |bytes|] == before by {
      assert (before + bytes)[..|before|] == before;
    }
    code := r.ParseChunk(|bytes|);
  }

  // A settled request has a target inside what was received.
  lemma TargetReceived(b: seq<byte>)
    requires After(b).state == Done
    ensures After(b).uri.Some? && After(b).uri.value + After(b).uriLen <= |b|
  {
    AfterWithin(b);
    HasTarget(b);
  }

  predicate TargetKnown(p: Progress) {
    p.state == Failed || p.state == ReqMethod || p.state == ReqUri || p.uri.Some?
  }

  lemma StepKeepsTarget(p: Progress, b: seq<byte>)
    requires b != [] && TargetKnown(p)
    ensures TargetKnown(Step(p, b))
  {
  }

  lemma {:induction false} FeedKeepsTarget(p: Progress, b: seq<byte>, i: nat)
    requires i <= |b| && TargetKnown(p)
    ensures TargetKnown(Feed(p, b, i))
    decreases |b| - i
  {
    if i < |b| {
      StepKeepsTarget(p, b[..i + 1]);
      FeedKeepsTarget(Step(p, b[..i + 1]), b, i + 1);
    }
  }

  lemma HasTarget(b: seq<byte>)
    ensures TargetKnown(After(b))
  {
    if |b| >= 8 {
      LaunchFeeds(b);
      var m := MethodOf(b[..8]);
      if m.Some? {
        FeedKeepsTarget(UriStart(m.value), b, |Token(m.value)|);
      }
    }
  }

  lemma AfterNothing()
    ensures After([]) == START
  {
  }

  // What has settled the parser settles it whatever follows.
  lemma PrefixSettles(received: seq<byte>, b: seq<byte>)
    requires received <= b && Settled(After(received))
    ensures After(b) == After(received)
  {
    assert b[..|received|] == received;
    SettledStays(b, |received|);
  }

  /** The complete request: its target is normalised in the receive buffer. */
  method Finish(r: Request, ghost b: seq<byte>, ghost end: Option<Event>) returns (target: Target, reply: Option<nat>)
    requires r.Valid() && r.View() == After(r.Received()) && r.state == Done && r.Received() <= b
    modifies r.buf
    ensures r.Valid() && r.View() == After(b) && reply == ReplyTo(b, end)
    ensures reply == Some(200) ==> Served(target, r.View(), b)
    ensures forall m :: HttpMessage.ValidMessage(m) && HttpMessage.Print(m) <= b ==>
      reply == Some(if |QueryPairs(m.uri)| > 32 then 414 else if PathOfTarget(Path(m.uri)).None? then 400 else 200)
  {
    hide After, OutcomeOf, QueryPairs, PathOfTarget, PairsOf, Path, HttpMessage.ValidMessage, HttpMessage.Print;
    ghost var received, p := r.Received(), r.View();
    PrefixSettles(received, b);
    TargetReceived(received);
    target := new Target(r.buf, r.uri.value, r.uriLen);
    assert target.Text() == TargetText(p, b);
    var outcome := target.NormalizeUri();
    reply := Some(StatusOf(outcome));
    forall m | HttpMessage.ValidMessage(m) && HttpMessage.Print(m) <= b
      ensures reply ==
        Some(if |QueryPairs(m.uri)| > 32 then 414 else if PathOfTarget(Path(m.uri)).None? then 400 else 200)
    {
      ReplyToMessage(b, end, m);
    }
  }

  // The target holds the path and the parameters that the received text asks for.
  ghost predicate Served(target: Target, p: Progress, b: seq<byte>)
    reads target, target.buf, target.params
  {
    var text := TargetText(p, b);
    && target.Valid() && p.uri.Some? && p.uri.value + p.uriLen <= target.buf.Length
    && OutcomeOf(text) == Normalized && target.Text() == PathOfTarget(Path(text)).value
    && PairsOf(target.params[..target.paramCount], target.buf[..p.uri.value + p.uriLen]) == QueryPairs(text)
  }

  /** parse_http_request for what recv finds call by call. The request and the reply depend on the bytes and
      the way they end, not on how they were cut: a well-formed request is answered 414 when its query has more than 32
      pairs, else 400 when its target names no path, else 200; a refused one gets the status of its refusal; and one
      that is not complete gets 400 when the stream ends and 500 when it breaks. */
  method ParseHttpRequest(events: seq<Event>) returns (request: Request, target: Target?, reply: Option<nat>)
    ensures fresh(request) && request.Valid() && request.View() == After(Stream(events))
    ensures reply == ReplyTo(Stream(events), Ending(events))
    ensures reply == Some(200) ==> target != null && Served(target, request.View(), Stream(events))
    ensures forall m :: HttpMessage.ValidMessage(m) && HttpMessage.Print(m) <= Stream(events) ==>
      && reply == Some(if |QueryPairs(m.uri)| > 32 then 414 else if PathOfTarget(Path(m.uri)).None? then 400 else 200)
      && TargetText(request.View(), Stream(events)) == m.uri
    ensures After(Stream(events)).state == Failed ==> reply == Some(After(Stream(events)).status)
    ensures !Settled(After(Stream(events))) ==>
      && (reply.None? <==> Closed !in events && Broken !in events && Data([]) !in events)
      && forall k :: 0 <= k < |events| && Ends(events[k]) && (forall j :: 0 <= j < k ==> !Ends(events[j])) ==>
           reply == Some(if events[k] == Broken then 500 else 400)
  {
    hide After, Served, OutcomeOf, TargetText, PathOfTarget, Path, QueryPairs, HttpMessage.ValidMessage, Ends;
    request, target, reply := Receive(events);
    forall m | HttpMessage.ValidMessage(m) && HttpMessage.Print(m) <= Stream(events)
      ensures reply ==
        Some(if |QueryPairs(m.uri)| > 32 then 414 else if PathOfTarget(Path(m.uri)).None? then 400 else 200)
      ensures TargetText(request.View(), Stream(events)) == m.uri
    {
      ReplyToMessage(Stream(events), Ending(events), m);
    }
    ReplyOtherwise(Stream(events), Ending(events));
    EndingIs(events);
  }

  lemma {:induction false} EndingIs(events: seq<Event>)
    ensures Ending(events).None? <==> Closed !in events && Broken !in events && Data([]) !in events
    ensures forall k :: 0 <= k < |events| && Ends(events[k]) && (forall j :: 0 <= j < k ==> !Ends(events[j])) ==>
      Ending(events) == Some(events[k])
  {
    if events != [] {
      var rest := events[1..];
      EndingIs(rest);
      assert events == [events[0]] + rest;
      assert forall k :: 0 < k < |events| ==> events[k] == rest[k - 1];
      assert forall k :: 0 <= k < |rest| ==> rest[k] == events[k + 1];
    }
  }

  lemma ReplyToMessage(b: seq<byte>, end: Option<Event>, m: HttpMessage.Message)
    requires HttpMessage.ValidMessage(m) && HttpMessage.Print(m) <= b
    ensures ReplyTo(b, end) ==
      Some(if |QueryPairs(m.uri)| > 32 then 414 else if PathOfTarget(Path(m.uri)).None? then 400 else 200)
    ensures TargetText(After(b), b) == m.uri
  {
    hide After, PathOfTarget, Path, QueryPairs, HttpMessage.ValidMessage, HttpMessage.Print, Sub;
    var rest := b[|HttpMessage.Print(m)|..];
    assert b == HttpMessage.Print(m) + rest;
    HttpRoundTrip.ParsePrinted(m, rest);
  }

  // A request that is refused, or not complete.
  lemma ReplyOtherwise(b: seq<byte>, end: Option<Event>)
    ensures After(b).state == Failed ==> ReplyTo(b, end) == Some(After(b).status)
    ensures !Settled(After(b)) ==>
      ReplyTo(b, end) == if end.None? then None else Some(if end.value == Broken then 500 else 400)
  {
    hide After;
  }

  method Receive(events: seq<Event>) returns (request: Request, target: Target?, reply: Option<nat>)
    ensures fresh(request) && request.Valid() && request.View() == After(Stream(events))
    ensures reply == ReplyTo(Stream(events), Ending(events))
    ensures reply == Some(200) ==> target != null && Served(target, request.View(), Stream(events))
  {
    hide After, Served, OutcomeOf, TargetText;
    request := new Request();
    AfterNothing();
    assert request.Received() == [];
    target := null;
    var rest := events;
    while rest != []
      invariant fresh(request) && fresh(request.buf) && fresh(request.headers) && Waiting(request)
      invariant Stream(events) == request.Received() + Stream(rest) && Ending(events) == Ending(rest)
      decreases Backlog(rest)
    {
      RoomForMore(request.Received());
      assert request.Received() + [] == request.Received();
      match rest[0]
      case Closed => return request, null, Some(400);
      case Broken => return request, null, Some(500);
      case WouldBlock => rest := rest[1..];
      case Data(bytes) =>
        var room := MAX_REQUEST_BYTES - request.bufLen;
        var n := if |bytes| < room then |bytes| else room;
        if n == 0 {
          return request, null, Some(400);
        }
        RemainingStream(rest, n);
        Associative(request.Received(), bytes[..n], Stream(Remaining(rest, n)));
        var code := Deliver(request, bytes[..n]);
        rest := Remaining(rest, n);
        if code == OK {
          target, reply := Finish(request, Stream(events), Ending(events));
          return;
        } else if code == PARSE_FAILED {
          StatusSaysFailure(request.Received());
          PrefixSettles(request.Received(), Stream(events));
          return request, null, Some(request.status);
        }
    }
    assert request.Received() + [] == request.Received();
    reply := None;
  }

  function Flatten(chunks: seq<seq<byte>>): seq<byte> {
    if chunks == [] then [] else chunks[0] + Flatten(chunks[1..])
  }

  predicate NonEmpty(chunks: seq<seq<byte>>) {
    forall i :: 0 <= i < |chunks| ==> chunks[i] != []
  }

  // The deliveries of these chunks, and then the end.
  function Deliveries(chunks: seq<seq<byte>>, end: Event): seq<Event> {
    if chunks == [] then [end] else [Data(chunks[0])] + Deliveries(chunks[1..], end)
  }

  lemma {:induction false} DeliveriesStream(chunks: seq<seq<byte>>, end: Event)
    requires NonEmpty(chunks) && Ends(end)
    ensures Stream(Deliveries(chunks, end)) == Flatten(chunks) && Ending(Deliveries(chunks, end)) == Some(end)
  {
    if chunks != [] {
      DeliveriesStream(chunks[1..], end);
      assert Deliveries(chunks, end)[1..] == Deliveries(chunks[1..], end);
    }
  }

  /** Two ways of cutting the same bytes lead to the same reply. */
  method ReceiveTwice(one: seq<seq<byte>>, other: seq<seq<byte>>, end: Event)
    returns (reply: Option<nat>, again: Option<nat>)
    requires NonEmpty(one) && NonEmpty(other) && Flatten(one) == Flatten(other) && Ends(end)
    ensures reply == again == ReplyTo(Flatten(one), Some(end)) && reply.Some?
  {
    DeliveriesStream(one, end);
    DeliveriesStream(other, end);
    var first, target;
    first, target, reply := ParseHttpRequest(Deliveries(one, end));
    var second;
    second, target, again := ParseHttpRequest(Deliveries(other, end));
    assert first.View() == second.View();
  }
}
