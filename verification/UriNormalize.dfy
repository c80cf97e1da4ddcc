/** src/http_request_path.c: the request target is decoded and normalised inside the receive buffer. */
module UriNormalize {
  import opened Common
  import opened HttpParser
  import opened UriText

  datatype Outcome = Normalized | TooManyParams | Invalid

  // hex_val
  function HexVal(c: byte): (v: int)
    ensures IsHex(c) ==> v == HexDigit(c)
    ensures !IsHex(c) ==> v == -1
  {
    if 0x30 <= c <= 0x39 then c - 0x30
    else if 0x41 <= c <= 0x46 then c - 0x41 + 10
    else if 0x61 <= c <= 0x66 then c - 0x61 + 10
    else -1
  }

  // Nothing but the `n` bytes at `from` has changed.
  twostate predicate OnlyWithin(a: array<byte>, from: nat, n: nat)
    reads a
  {
    forall k :: 0 <= k < a.Length && (k < from || from + n <= k) ==> a[k] == old(a[k])
  }

  // The first `c` in a[i..end], or `end`.
  method Find(a: array<byte>, i: nat, end: nat, c: byte) returns (n: nat)
    requires i <= end <= a.Length
    ensures i <= n <= end && n == i + Next(a[i..end], 0, c) == Next(a[..end], i, c)
    ensures (n < end ==> a[n] == c) && c !in a[i..n]
  {
    n := i;
    while n < end && a[n] != c
      invariant i <= n <= end && c !in a[i..n]
    {
      assert a[i..n + 1] == a[i..n] + [a[n]];
      n := n + 1;
    }
    assert forall k :: 0 <= k < n - i ==> a[i..end][k] == a[i..n][k];
    NextIs(a[i..end], 0, c, n - i);
    assert forall k :: i <= k < n ==> a[..end][k] == a[i..n][k - i];
    NextIs(a[..end], i, c, n);
  }

  function Prepend(x: seq<byte>, rest: Option<seq<byte>>): Option<seq<byte>> {
    if rest.None? then None else Some(x + rest.value)
  }

  lemma PrependOneMore(x: seq<byte>, c: byte, rest: Option<seq<byte>>)
    ensures Prepend(x, Before(c, rest)) == Prepend(x + [c], rest)
  {
    if rest.Some? {
      assert x + ([c] + rest.value) == (x + [c]) + rest.value;
    }
  }

  lemma PrependNothing(rest: Option<seq<byte>>)
    ensures Prepend([], rest) == rest
  {
    if rest.Some? {
      assert [] + rest.value == rest.value;
    }
  }

  /** url_decode of the `len` bytes at `from`, in place; what is behind them stays. */
  method UrlDecode(a: array<byte>, from: nat, len: nat) returns (newLen: Option<nat>)
    requires from + len <= a.Length
    modifies a
    ensures newLen.Some? <==> Decoded(old(a[from..from + len])).Some?
    ensures newLen.Some? ==>
      newLen.value <= len && a[from..from + newLen.value] == Decoded(old(a[from..from + len])).value
    ensures OnlyWithin(a, from, len)
  {
    ghost var s := a[from..from + len];
    var r, w := 0, 0;
    assert a[from..from + w] == [];
    PrependNothing(DecodedFrom(s, 0));
    while r < len
      invariant 0 <= w <= r <= len
      invariant a[from + r..from + len] == s[r..]
      invariant Prepend(a[from..from + w], DecodedFrom(s, r)) == Decoded(s)
      invariant OnlyWithin(a, from, len)
    {
      var c, next := ReadDecoded(a, from, r, len, s);
      if c.None? {
        return None;
      }
      PrependOneMore(a[from..from + w], c.value, DecodedFrom(s, next));
      Write(a, from, w, r, next, len, s, c.value);
      r, w := next, w + 1;
    }
    newLen := Some(w);
  }

  // One byte or one escape.
  method ReadDecoded(a: array<byte>, from: nat, r: nat, len: nat, ghost s: seq<byte>)
    returns (c: Option<byte>, next: nat)
    requires r < len == |s| && from + len <= a.Length && a[from + r..from + len] == s[r..]
    ensures c.None? ==> DecodedFrom(s, r).None?
    ensures c.Some? ==> r < next <= len && DecodedFrom(s, r) == Before(c.value, DecodedFrom(s, next))
  {
    assert a[from + r] == s[r..][0] == s[r];
    next := r + 1;
    if a[from + r] != PERCENT {
      return Some(a[from + r]), next;
    }
    if r + 2 >= len {
      return None, next;
    }
    assert a[from + r + 1] == s[r..][1] == s[r + 1] && a[from + r + 2] == s[r..][2] == s[r + 2];
    var h1, h2 := HexVal(a[from + r + 1]), HexVal(a[from + r + 2]);
    if h1 < 0 || h2 < 0 {
      return None, next;
    }
    var decoded := h1 * 16 + h2;
    if decoded == 0 {
      return None, next;
    }
    c, next := Some(decoded), r + 3;
  }

  // str[w++] = c, which never reaches what is still to be read.
  method Write(a: array<byte>, from: nat, w: nat, r: nat, next: nat, len: nat, ghost s: seq<byte>, c: byte)
    requires w <= r < next <= len == |s| && from + len <= a.Length && a[from + r..from + len] == s[r..]
    modifies a
    ensures a[from..from + w + 1] == old(a[from..from + w]) + [c]
    ensures a[from + next..from + len] == s[next..] && OnlyWithin(a, from, len)
  {
    assert a[from + next..from + len] == a[from + r..from + len][next - r..];
    a[from + w] := c;
  }

  // ---------------------------------------------------------------- normalize_path

  /** normalize_path of the `len` bytes at `from`, in place. */
  method NormalizePath(a: array<byte>, from: nat, len: nat) returns (newLen: Option<nat>)
    requires from + len <= a.Length
    modifies a
    ensures newLen.Some? <==> NormalPath(old(a[from..from + len])).Some?
    ensures newLen.Some? ==>
      newLen.value <= len && a[from..from + newLen.value] == NormalPath(old(a[from..from + len])).value
    ensures OnlyWithin(a, from, len)
  {
    if len == 0 || a[from] != SLASH {
      return None;
    }
    ghost var s := a[from..from + len];
    ghost var stack: seq<seq<byte>> := [];
    var r, w := 0, 0;
    assert s[0..] == s && a[from..from + w] == [];
    while r < len
      invariant 0 <= w <= r <= len && AtSlash(s, r)
      invariant a[from + r..from + len] == s[r..]
      invariant a[from..from + w] == Join(stack) && Names(stack)
      invariant Rest(stack, s[r..]) == Rest([], s)
      invariant OnlyWithin(a, from, len)
    {
      var ok;
      ok, r, w, stack := PathTurn(a, from, r, w, len, s, stack);
      if !ok {
        return None;
      }
    }
    RestOfNothing(stack);
    EmptyJoin(stack);
    if w == 0 {
      a[from] := SLASH;
      w := 1;
    }
    newLen := Some(w);
  }

  ghost predicate AtSlash(s: seq<byte>, r: nat) {
    r < |s| ==> s[r] == SLASH
  }

  // One turn of the loop: the next segment is found, and its effect on what has been written so far.
  method PathTurn(a: array<byte>, from: nat, start: nat, w: nat, len: nat, ghost s: seq<byte>,
                  ghost stack: seq<seq<byte>>)
    returns (ok: bool, r: nat, v: nat, ghost next: seq<seq<byte>>)
    requires w <= start < len == |s| && from + len <= a.Length && AtSlash(s, start)
    requires a[from + start..from + len] == s[start..]
    requires a[from..from + w] == Join(stack) && Names(stack)
    modifies a
    ensures start < r <= len && v <= r && AtSlash(s, r) && OnlyWithin(a, from, len)
    ensures !ok ==> Rest(stack, s[start..]).None?
    ensures ok ==> a[from + r..from + len] == s[r..] && Rest(next, s[r..]) == Rest(stack, s[start..])
    ensures ok ==> a[from..from + v] == Join(next) && Names(next)
  {
    hide Join, Rest;
    var segStart, segLen := NextSegment(a, from, start, len, s, stack);
    ok, r, v, next := true, segStart + segLen, w, stack;
    if segLen == 0 {
      assert s[segStart..r] == [];
      return;
    }
    ghost var segment := s[segStart..r];
    var taken := TakeSegment(a, from, w, segStart, segLen, len, stack);
    if taken.None? {
      return false, r, 0, stack;
    }
    next := Visit(stack, segment).value;
    v := taken.value;
  }

  lemma EmptyJoin(stack: seq<seq<byte>>)
    ensures Join(stack) == [] <==> stack == []
  {
  }

  // The next segment, which has no slash, and what it leaves to be resolved.
  method NextSegment(a: array<byte>, from: nat, start: nat, len: nat, ghost s: seq<byte>, ghost stack: seq<seq<byte>>)
    returns (segStart: nat, segLen: nat)
    requires start < len == |s| && from + len <= a.Length && a[from + start..from + len] == s[start..]
    requires s[start] == SLASH
    ensures start < segStart && segStart + segLen <= len
    ensures segLen == 0 ==> segStart == len
    ensures a[from + segStart + segLen..from + len] == s[segStart + segLen..]
    ensures a[from + segStart..from + segStart + segLen] == s[segStart..segStart + segLen]
    ensures SLASH !in s[segStart..segStart + segLen]
    ensures AtSlash(s, segStart + segLen)
    ensures Rest(stack, s[start..]) == match Visit(stack, s[segStart..segStart + segLen])
                                       case None => None
                                       case Some(next) => Rest(next, s[segStart + segLen..])
  {
    segStart := SkipSlashes(a, from, start, len, s, stack);
    var end := Find(a, from + segStart, from + len, SLASH);
    segLen := end - from - segStart;
    ghost var t := s[segStart..];
    assert t[..segLen] == s[segStart..segStart + segLen] == a[from + segStart..end];
    assert t[segLen..] == s[segStart + segLen..];
    assert segLen < |t| ==> t[segLen] == a[end];
    assert a[end..from + len] == a[from + segStart..from + len][segLen..];
    RestAtSegment(stack, t);
  }

  // The three kinds of segments: `.`, `..` and names.
  method TakeSegment(a: array<byte>, from: nat, w: nat, segStart: nat, segLen: nat, len: nat,
                     ghost stack: seq<seq<byte>>)
    returns (v: Option<nat>)
    requires w < segStart && 0 < segLen && segStart + segLen <= len && from + len <= a.Length
    requires Names(stack) && a[from..from + w] == Join(stack)
    requires SLASH !in a[from + segStart..from + segStart + segLen]
    modifies a
    ensures var visited := Visit(stack, old(a[from + segStart..from + segStart + segLen]));
      if visited.None? then v.None?
      else
        && v.Some? && v.value <= segStart + segLen
        && a[from..from + v.value] == Join(visited.value) && Names(visited.value)
    ensures OnlyWithin(a, from, segStart + segLen)
    ensures a[from + segStart + segLen..from + len] == old(a[from + segStart + segLen..from + len])
  {
    ghost var segment := a[from + segStart..from + segStart + segLen];
    if segLen == 1 && a[from + segStart] == DOT {
      assert segment == ONE_DOT;
      return Some(w);
    }
    if segLen == 2 && a[from + segStart] == DOT && a[from + segStart + 1] == DOT {
      assert segment == TWO_DOTS;
      EmptyJoin(stack);
      if w == 0 {
        return None;
      }
      var back := PopSegment(a, from, w, stack);
      return Some(back);
    }
    assert segment[0] == a[from + segStart] && (segLen == 2 ==> segment[1] == a[from + segStart + 1]);
    var next := CopySegment(a, from, w, segStart, segLen, len);
    assert (stack + [segment])[..|stack|] == stack;
    v := Some(next);
  }

  // The slashes in front of a segment.
  method SkipSlashes(a: array<byte>, from: nat, start: nat, len: nat, ghost s: seq<byte>, ghost stack: seq<seq<byte>>)
    returns (r: nat)
    requires start < len == |s| && from + len <= a.Length && a[from + start..from + len] == s[start..]
    requires s[start] == SLASH
    ensures start < r <= len && (r < len ==> s[r] != SLASH)
    ensures a[from + r..from + len] == s[r..] && Rest(stack, s[r..]) == Rest(stack, s[start..])
  {
    hide Rest;
    r := start;
    while r < len && a[from + r] == SLASH
      invariant start <= r <= len && (r == start ==> s[r] == SLASH)
      invariant a[from + r..from + len] == s[r..]
      invariant Rest(stack, s[r..]) == Rest(stack, s[start..])
    {
      assert a[from + r] == s[r..][0] == s[r];
      RestAtSlash(stack, s[r..]);
      assert s[r..][1..] == s[r + 1..];
      assert a[from + r + 1..from + len] == a[from + r..from + len][1..];
      r := r + 1;
    }
    assert r < len ==> a[from + r] == s[r..][0];
    assert a[from + start] == s[start..][0];
  }

  // Going back to the slash of the last name that was kept.
  method PopSegment(a: array<byte>, from: nat, w: nat, ghost stack: seq<seq<byte>>) returns (v: nat)
    requires 0 < w && from + w <= a.Length && a[from..from + w] == Join(stack) && Names(stack)
    ensures stack != [] && v <= w && a[from..from + v] == Join(stack[..|stack| - 1])
  {
    ghost var front, name := Join(stack[..|stack| - 1]), stack[|stack| - 1];
    ghost var joined := Join(stack);
    assert joined == front + ([SLASH] + name);
    hide Join;
    assert SLASH !in a[from + |front| + 1..from + w] by {
      assert a[from + |front| + 1..from + w] == joined[|front| + 1..] == name;
    }
    assert a[from + |front|] == joined[|front|] == SLASH;
    v := w;
    while v > 0 && a[from + v - 1] != SLASH
      invariant |front| + 1 <= v <= w
    {
      v := v - 1;
    }
    if v > 0 {
      v := v - 1;
    }
    assert v == |front|;
    SameFront(a[from..from + v], joined, front);
  }

  lemma SameFront(s: seq<byte>, joined: seq<byte>, front: seq<byte>)
    requires |s| == |front| && front <= joined && s <= joined
    ensures s == front
  {
    assert s == joined[..|s|] == front;
  }

  // A slash and the segment behind what has been written; the copy never reaches unread bytes.
  method CopySegment(a: array<byte>, from: nat, w: nat, segStart: nat, segLen: nat, ghost len: nat) returns (v: nat)
    requires w < segStart && segStart + segLen <= len && from + len <= a.Length
    modifies a
    ensures v == w + 1 + segLen && v <= segStart + segLen
    ensures a[from..from + v] == old(a[from..from + w]) + ([SLASH] + old(a[from + segStart..from + segStart + segLen]))
    ensures OnlyWithin(a, from, segStart + segLen)
  {
    ghost var front, segment := a[from..from + w], a[from + segStart..from + segStart + segLen];
    a[from + w] := SLASH;
    v := w + 1;
    var i := 0;
    while i < segLen
      invariant 0 <= i <= segLen && v == w + 1 + i
      invariant forall k :: 0 <= k < a.Length && (k < from + w || from + segStart + i <= k) ==> a[k] == old(a[k])
      invariant a[from + w] == SLASH
      invariant forall k :: 0 <= k < i ==> a[from + w + 1 + k] == segment[k]
    {
      a[from + v] := a[from + segStart + i];
      v := v + 1;
      i := i + 1;
    }
    CopiedText(a[..], from, w, v, front, segment);
    assert a[..][from..from + v] == a[from..from + v];
  }

  lemma CopiedText(t: seq<byte>, from: nat, w: nat, v: nat, front: seq<byte>, segment: seq<byte>)
    requires from + v <= |t| && v == w + 1 + |segment| && |front| == w && t[from + w] == SLASH
    requires forall k :: 0 <= k < w ==> t[from + k] == front[k]
    requires forall k :: 0 <= k < |segment| ==> t[from + w + 1 + k] == segment[k]
    ensures t[from..from + v] == front + ([SLASH] + segment)
  {
    assert t[from..from + w] == front && t[from + w + 1..from + v] == segment;
    assert t[from..from + v] == t[from..from + w] + ([t[from + w]] + t[from + w + 1..from + v]);
  }

  // ---------------------------------------------------------------- the request's fields

  // The part of a request that normalize_uri changes. No offset stands for the constant "/".
  class Target {
    const buf: array<byte>
    var uri: Option<nat>
    var uriLen: nat
    const params: array<Param>
    var paramCount: nat

    ghost predicate Valid()
      reads this
    {
      && params.Length == MAX_QUERY_PARAMS && paramCount <= MAX_QUERY_PARAMS
      && (uri.Some? ==> uri.value + uriLen <= buf.Length)
    }

    // The text of the target.
    ghost function Text(): seq<byte>
      requires Valid()
      reads this, buf
    {
      if uri.None? then [SLASH] else buf[uri.value..uri.value + uriLen]
    }

    constructor (buf: array<byte>, uri: nat, uriLen: nat)
      requires uri + uriLen <= buf.Length
      ensures Valid() && fresh(params) && this.buf == buf && this.uri == Some(uri) && this.uriLen == uriLen
      ensures paramCount == 0
    {
      this.buf, this.uri, this.uriLen, paramCount := buf, Some(uri), uriLen, 0;
      params := new Param[MAX_QUERY_PARAMS];
    }

    /** parse_query_params: the target loses its query and fragment; all parameters are recorded, or the
        first MAX_QUERY_PARAMS of them when there are more. */
    method ParseQueryParams() returns (ok: bool)
      requires Valid() && uri.Some? && paramCount == 0
      modifies `uriLen, `paramCount, params
      ensures Valid()
      ensures Recorded(params[..], paramCount, QueryParams(buf[..uri.value + old(uriLen)], uri.value), ok)
      ensures uriLen == if ok then TargetLength(old(Text())) else old(uriLen)
    {
      hide Params, Next, TargetLength;
      var from, end := uri.value, uri.value + uriLen;
      var query, finalLen := FindQuery(from, end);
      ghost var b := buf[..end];
      assert b[from..] == buf[from..end];
      ghost var all := QueryParams(b, from);
      ok := true;
      if query < uriLen {
        ok := RecordParams(from + query + 1, end);
        assert Recorded(params[..], paramCount, all, ok);
      } else {
        assert all == [] == params[..paramCount];
      }
      if ok {
        uriLen := finalLen;
      }
    }

    // The loop up to the first question mark, and where the target ends.
    method FindQuery(from: nat, end: nat) returns (query: nat, finalLen: nat)
      requires from <= end <= buf.Length
      ensures query == Next(buf[from..end], 0, QUESTION) && finalLen == TargetLength(buf[from..end])
    {
      ghost var t := buf[from..end];
      var finalLenSet := false;
      finalLen, query := end - from, 0;
      while query < end - from && buf[from + query] != QUESTION
        invariant query <= |t| && finalLen <= |t|
        invariant QUESTION !in t[..query] && HASH !in t[..if finalLenSet then finalLen else query]
        invariant if finalLenSet then finalLen < query && t[finalLen] == HASH else finalLen == |t|
      {
        assert t[..query + 1] == t[..query] + [t[query]];
        if buf[from + query] == HASH && !finalLenSet {
          finalLen, finalLenSet := query, true;
        }
        query := query + 1;
      }
      NextSkips(t, 0, QUESTION, query);
      assert query < |t| ==> t[query] == QUESTION;
      if query < end - from && !finalLenSet {
        finalLen := query;
      }
      assert finalLen <= query && t[..query][..finalLen] == t[..finalLen];
      TargetLengthIs(t, finalLen);
    }

    // The loop over name, value and ampersand from offset `start` on.
    method RecordParams(start: nat, end: nat) returns (ok: bool)
      requires Valid() && start <= end <= buf.Length && paramCount == 0
      modifies `paramCount, params
      ensures Valid() && Recorded(params[..], paramCount, Params(buf[..end], start), ok)
    {
      ghost var all := Params(buf[..end], start);
      var i, done := start, false;
      ok := true;
      while !done
        invariant Valid() && i <= end
        invariant if done then Recorded(params[..], paramCount, all, ok)
                  else all == params[..paramCount] + Params(buf[..end], i)
        decreases !done, end - i
      {
        i, done, ok := ParamsTurn(i, end, all);
      }
    }

    // One turn of that loop.
    method ParamsTurn(i: nat, end: nat, ghost all: seq<Param>) returns (next: nat, done: bool, ok: bool)
      requires Valid() && i <= end <= buf.Length
      requires all == params[..paramCount] + Params(buf[..end], i)
      modifies `paramCount, params
      ensures Valid() && next <= end
      ensures if done then Recorded(params[..], paramCount, all, ok)
              else i < next && all == params[..paramCount] + Params(buf[..end], next)
    {
      hide Params, Next;
      ghost var b := buf[..end];
      next, done, ok := i, true, true;
      var equals := Find(buf, i, end, EQUALS);
      if equals == end {
        NoParams(b, i);
      } else {
        ghost var a := Next(b, equals + 1, AMPERSAND);
        ghost var p, further := ParamAt(b, i, equals, a), if a == end then [] else Params(b, a + 1);
        ParamsOneByOne(b, i, equals, a, further);
        if paramCount >= MAX_QUERY_PARAMS {
          ok := false;
        } else {
          Associative(params[..paramCount], [p], further);
          next := RecordParam(i, equals, end);
          if next < end {
            next, done := next + 1, false;
          }
        }
      }
    }

    /** normalize_uri: the target becomes the normal path it names; bytes behind the path are left alone, so
        the recorded parameters keep their texts. */
    method NormalizeUri() returns (outcome: Outcome)
      requires Valid() && uri.Some? && paramCount == 0
      modifies this, params, buf
      ensures Valid()
      ensures outcome == OutcomeOf(old(Text()))
      ensures outcome == Normalized ==> Text() == PathOfTarget(Path(old(Text()))).value
      ensures outcome == Normalized ==>
        PairsOf(params[..paramCount], buf[..old(uri.value + uriLen)]) == QueryPairs(old(Text()))
      ensures OnlyWithin(buf, old(uri.value), |Path(old(Text()))|)
    {
      hide PairsIn, PairsOf, Params, Next, PathOfTarget, QueryPairs, QueryParams, TargetLength;
      ghost var from, text, b := uri.value, Text(), buf[..uri.value + uriLen];
      assert b[from..] == text;
      ghost var ps := QueryParams(b, from);
      QueryPairsAtOffsets(b, from, text, ps);
      var ok := ParseQueryParams();
      if !ok {
        return TooManyParams;
      }
      ghost var end := from + uriLen;
      assert b[from..end] == b[from..][..uriLen] && buf[from..end] == b[from..end];
      outcome := NormalizeTarget();
      KeptPairs(b, buf[..|b|], end, ps);
    }

    // The steps behind the parsing of the query.
    method NormalizeTarget() returns (outcome: Outcome)
      requires Valid() && uri.Some?
      modifies `uri, `uriLen, buf
      ensures Valid()
      ensures var path := PathOfTarget(old(Text()));
        if path.None? then outcome == Invalid else outcome == Normalized && Text() == path.value
      ensures OnlyWithin(buf, old(uri.value), old(uriLen))
    {
      hide Decoded, PathOfDecoded;
      var newLen := UrlDecode(buf, uri.value, uriLen);
      if newLen.None? {
        return Invalid;
      }
      uriLen := newLen.value;
      outcome := NormalizeDecoded();
    }

    // The steps behind the decoding.
    method NormalizeDecoded() returns (outcome: Outcome)
      requires Valid() && uri.Some?
      modifies `uri, `uriLen, buf
      ensures Valid()
      ensures var path := PathOfDecoded(old(Text()));
        if path.None? then outcome == Invalid else outcome == Normalized && Text() == path.value
      ensures OnlyWithin(buf, old(uri.value), old(uriLen))
    {
      hide PathStart, NormalPath;
      var from := uri.value;
      ghost var d := Text();
      if uriLen == 1 && buf[from] == ASTERISK {
        assert d == [ASTERISK];
        return Invalid;
      }
      var start := FindPath(from, uriLen);
      if start.None? {
        uri, uriLen := None, 1;
        return Normalized;
      }
      var path, pathLen := from + start.value, uriLen - start.value;
      assert d[start.value..] == buf[path..path + pathLen];
      var newLen := NormalizePath(buf, path, pathLen);
      if newLen.None? {
        return Invalid;
      }
      uri, uriLen := Some(path), newLen.value;
      outcome := Normalized;
    }

    // The absolute forms lose their scheme and authority.
    method FindPath(from: nat, len: nat) returns (start: Option<nat>)
      requires from + len <= buf.Length
      ensures start == PathStart(buf[from..from + len])
    {
      hide EqualFold, Next;
      ghost var d := buf[from..from + len];
      var scheme := 0;
      if len >= 7 {
        var http := EqualsIgnoringCase(buf, from, HTTP_SCHEME);
        assert d[..7] == buf[from..from + 7];
        scheme := if http then 7 else 0;
      }
      if scheme == 0 && len >= 8 {
        var https := EqualsIgnoringCase(buf, from, HTTPS_SCHEME);
        assert d[..8] == buf[from..from + 8];
        scheme := if https then 8 else 0;
      }
      if scheme == 0 {
        return Some(0);
      }
      var slash := Find(buf, from + scheme, from + len, SLASH);
      assert d[scheme..] == buf[from + scheme..from + len];
      NextSuffix(d, scheme, SLASH);
      start := if slash < from + len then Some(slash - from) else None;
    }

    // One parameter whose name ends before the equals sign; its value ends before offset `next`.
    method RecordParam(nameStart: nat, equals: nat, end: nat) returns (next: nat)
      requires Valid() && nameStart <= equals < end <= buf.Length && paramCount < MAX_QUERY_PARAMS
      modifies `paramCount, params
      ensures Valid() && equals < next == Next(buf[..end], equals + 1, AMPERSAND)
      ensures params[..paramCount] == old(params[..paramCount]) + [ParamAt(buf[..end], nameStart, equals, next)]
    {
      params[paramCount] := Param(nameStart, equals - nameStart, None, 0);
      paramCount := paramCount + 1;
      next := equals + 1;
      if next < end {
        next := Find(buf, equals + 1, end, AMPERSAND);
        params[paramCount - 1] := params[paramCount - 1].(value := Some(equals + 1), valueLen := next - (equals + 1));
      }
      assert params[..paramCount] == params[..paramCount - 1] + [params[paramCount - 1]];
    }
  }

  // The recorded parameters are `all` of them, or as many as there is room for.
  ghost predicate Recorded(table: seq<Param>, count: nat, all: seq<Param>, ok: bool) {
    && count <= |table| == MAX_QUERY_PARAMS
    && if ok then table[..count] == all
       else |all| > MAX_QUERY_PARAMS == count && table == all[..MAX_QUERY_PARAMS]
  }

  // The parameters behind the first question mark of the target that starts at `from` and ends with `b`.
  function QueryParams(b: seq<byte>, from: nat): seq<Param>
    requires from <= |b|
  {
    var q := from + Next(b[from..], 0, QUESTION);
    if q == |b| then [] else Params(b, q + 1)
  }

  // A target without its query and fragment.
  function Path(text: seq<byte>): seq<byte> {
    text[..TargetLength(text)]
  }

  function QueryPairs(text: seq<byte>): seq<Pair> {
    var q := Next(text, 0, QUESTION);
    if q == |text| then [] else PairsIn(text[q + 1..])
  }

  function OutcomeOf(text: seq<byte>): Outcome {
    if |QueryPairs(text)| > MAX_QUERY_PARAMS then TooManyParams
    else if PathOfTarget(Path(text)).None? then Invalid
    else Normalized
  }

  // The recorded offsets denote the pairs of the query and lie behind the path.
  lemma QueryPairsAtOffsets(b: seq<byte>, from: nat, text: seq<byte>, ps: seq<Param>)
    requires from <= |b| && text == b[from..] && ps == QueryParams(b, from)
    ensures PairsOf(ps, b) == QueryPairs(text) && |ps| == |QueryPairs(text)|
    ensures AllWithin(ps, from + TargetLength(text), |b|)
  {
    hide PairsIn, PairsOf, Params, Next;
    var q := Next(text, 0, QUESTION);
    if q < |text| {
      QueryAt(b, from + q + 1, text[q + 1..], ps);
    }
    AsManyPairs(ps, b);
  }

  predicate AllWithin(ps: seq<Param>, from: nat, to: nat) {
    forall p :: p in ps ==> ParamWithin(p, from, to)
  }

  lemma QueryAt(b: seq<byte>, i: nat, query: seq<byte>, ps: seq<Param>)
    requires i <= |b| && query == b[i..] && ps == Params(b, i)
    ensures PairsOf(ps, b) == PairsIn(query) && AllWithin(ps, i, |b|)
  {
    OffsetsDenotePairs(b, i);
    ParamsWithin(b, i);
  }

  lemma {:induction false} AsManyPairs(ps: seq<Param>, b: seq<byte>)
    ensures |PairsOf(ps, b)| == |ps|
  {
    if ps != [] {
      AsManyPairs(ps[1..], b);
    }
  }

  // Parameters keep their texts when only bytes in front of them change.
  lemma {:induction false} KeptPairs(b: seq<byte>, c: seq<byte>, from: nat, ps: seq<Param>)
    requires |b| == |c| && (forall k :: from <= k < |b| ==> b[k] == c[k])
    requires AllWithin(ps, from, |b|)
    ensures PairsOf(ps, b) == PairsOf(ps, c)
  {
    if ps != [] {
      KeptPairs(b, c, from, ps[1..]);
      assert ParamWithin(ps[0], from, |b|);
      assert PairOf(ps[0], b).name == PairOf(ps[0], c).name && PairOf(ps[0], b).value == PairOf(ps[0], c).value;
    }
  }

  lemma TargetLengthIs(t: seq<byte>, n: nat)
    requires n <= |t| && QUESTION !in t[..n] && HASH !in t[..n]
    requires n < |t| ==> t[n] == QUESTION || t[n] == HASH
    ensures TargetLength(t) == n
  {
    assert t[0..n] == t[..n];
    NextSkips(t, 0, QUESTION, n);
    NextSkips(t, 0, HASH, n);
  }
}
