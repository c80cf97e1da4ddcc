/** What src/http_request_path.c promises about request targets: percent-decoding (section 2.1 of
    RFC 3986), removal of dot segments (section 5.2.4) and query parameters. */
module UriText {
  import opened Common
  import opened HttpParser

  const PERCENT: byte := 0x25
  const SLASH: byte := 0x2F
  const DOT: byte := 0x2E
  const QUESTION: byte := 0x3F
  const HASH: byte := 0x23
  const EQUALS: byte := 0x3D
  const AMPERSAND: byte := 0x26
  const ASTERISK: byte := 0x2A

  const MAX_QUERY_PARAMS: nat := 32

  // The first `c` in `s` at or behind `i`, or the end.
  function Next(s: seq<byte>, i: nat, c: byte): (n: nat)
    requires i <= |s|
    ensures i <= n <= |s|
    decreases |s| - i
  {
    if i == |s| || s[i] == c then i else Next(s, i + 1, c)
  }

  lemma {:induction false} NextFacts(s: seq<byte>, i: nat, c: byte)
    requires i <= |s|
    ensures var n := Next(s, i, c); (n < |s| ==> s[n] == c) && c !in s[i..n]
    decreases |s| - i
  {
    if i < |s| && s[i] != c {
      NextFacts(s, i + 1, c);
      var n := Next(s, i, c);
      assert s[i..n] == [s[i]] + s[i + 1..n];
    }
  }

  lemma {:induction false} NextIs(s: seq<byte>, i: nat, c: byte, n: nat)
    requires i <= n <= |s| && (n < |s| ==> s[n] == c) && forall k :: i <= k < n ==> s[k] != c
    ensures Next(s, i, c) == n
    decreases n - i
  {
    if i < n {
      NextIs(s, i + 1, c, n);
    }
  }

  lemma {:induction false} NextSkips(s: seq<byte>, i: nat, c: byte, n: nat)
    requires i <= n <= |s| && c !in s[i..n]
    ensures Next(s, i, c) == Next(s, n, c)
    decreases n - i
  {
    if i < n {
      assert s[i] == s[i..n][0] && s[i + 1..n] == s[i..n][1..];
      NextSkips(s, i + 1, c, n);
    }
  }

  lemma NextSuffix(s: seq<byte>, i: nat, c: byte)
    requires i <= |s|
    ensures i + Next(s[i..], 0, c) == Next(s, i, c)
  {
    var n := Next(s, i, c);
    NextFacts(s, i, c);
    assert forall k :: 0 <= k < n - i ==> s[i..][k] == s[i..n][k];
    NextIs(s[i..], 0, c, n - i);
  }

  // ---------------------------------------------------------------- percent-decoding

  predicate EscapeAt(s: seq<byte>, i: nat) {
    i + 2 < |s| && IsHex(s[i + 1]) && IsHex(s[i + 2]) && (s[i + 1] != 0x30 || s[i + 2] != 0x30)
  }

  function EscapedByte(hi: byte, lo: byte): byte
    requires IsHex(hi) && IsHex(lo)
  {
    HexDigit(hi) * 16 + HexDigit(lo)
  }

  // The text behind `i` without its escapes; None at a bad escape or an escaped NUL.
  function DecodedFrom(s: seq<byte>, i: nat): Option<seq<byte>>
    requires i <= |s|
    decreases |s| - i
  {
    if i == |s| then Some([])
    else if s[i] != PERCENT then Before(s[i], DecodedFrom(s, i + 1))
    else if !EscapeAt(s, i) then None
    else Before(EscapedByte(s[i + 1], s[i + 2]), DecodedFrom(s, i + 3))
  }

  function Before(c: byte, rest: Option<seq<byte>>): Option<seq<byte>> {
    if rest.None? then None else Some([c] + rest.value)
  }

  function Decoded(s: seq<byte>): Option<seq<byte>> {
    DecodedFrom(s, 0)
  }

  // Text with some bytes escaped, in whatever letter case.
  datatype Piece = Plain(c: byte) | Escaped(hi: byte, lo: byte)

  predicate ValidPiece(p: Piece) {
    match p
    case Plain(c) => c != PERCENT
    case Escaped(hi, lo) => IsHex(hi) && IsHex(lo) && (hi != 0x30 || lo != 0x30)
  }

  predicate ValidPieces(ps: seq<Piece>) {
    forall i :: 0 <= i < |ps| ==> ValidPiece(ps[i])
  }

  function PrintPieces(ps: seq<Piece>): seq<byte> {
    if ps == [] then []
    else match ps[0]
      case Plain(c) => [c] + PrintPieces(ps[1..])
      case Escaped(hi, lo) => [PERCENT, hi, lo] + PrintPieces(ps[1..])
  }

  function MeantBy(ps: seq<Piece>): seq<byte>
    requires ValidPieces(ps)
  {
    if ps == [] then []
    else match ps[0]
      case Plain(c) => [c] + MeantBy(ps[1..])
      case Escaped(hi, lo) => [EscapedByte(hi, lo)] + MeantBy(ps[1..])
  }

  // Decoding a suffix reads that suffix only.
  lemma {:induction false} DecodedSuffix(s: seq<byte>, i: nat, j: nat)
    requires i + j <= |s|
    ensures DecodedFrom(s[i..], j) == DecodedFrom(s, i + j)
    decreases |s| - i - j
  {
    var t := s[i..];
    if j < |t| {
      assert t[j] == s[i + j];
      if t[j] != PERCENT {
        DecodedSuffix(s, i, j + 1);
      } else if j + 2 < |t| {
        assert t[j + 1] == s[i + j + 1] && t[j + 2] == s[i + j + 2];
        DecodedSuffix(s, i, j + 3);
      }
    }
  }

  /** Decoding inverts escaping, whichever bytes were escaped. */
  lemma {:induction false} DecodePieces(ps: seq<Piece>)
    requires ValidPieces(ps)
    ensures Decoded(PrintPieces(ps)) == Some(MeantBy(ps))
  {
    if ps != [] {
      DecodePieces(ps[1..]);
      var s, rest := PrintPieces(ps), PrintPieces(ps[1..]);
      match ps[0]
      case Plain(c) =>
        assert s[1..] == rest;
        DecodedSuffix(s, 1, 0);
      case Escaped(hi, lo) =>
        assert s[3..] == rest;
        DecodedSuffix(s, 3, 0);
    }
  }

  /** Only escaped text decodes. */
  lemma {:induction false} DecodedIsPieces(s: seq<byte>) returns (ps: seq<Piece>)
    requires Decoded(s).Some?
    ensures ValidPieces(ps) && PrintPieces(ps) == s && MeantBy(ps) == Decoded(s).value
  {
    if s == [] {
      ps := [];
    } else if s[0] != PERCENT {
      DecodedSuffix(s, 1, 0);
      var rest := DecodedIsPieces(s[1..]);
      ps := [Plain(s[0])] + rest;
      assert ps[1..] == rest;
    } else {
      DecodedSuffix(s, 3, 0);
      var rest := DecodedIsPieces(s[3..]);
      ps := [Escaped(s[1], s[2])] + rest;
      assert ps[1..] == rest;
    }
  }

  // ---------------------------------------------------------------- path segments

  // The texts between slashes.
  function Segments(s: seq<byte>): (parts: seq<seq<byte>>)
    ensures parts != []
  {
    var n := Next(s, 0, SLASH);
    if n == |s| then [s] else [s[..n]] + Segments(s[n + 1..])
  }

  const ONE_DOT: seq<byte> := [DOT]
  const TWO_DOTS: seq<byte> := [DOT, DOT]

  // A segment that stays in a normal path.
  predicate IsName(segment: seq<byte>) {
    segment != [] && segment != ONE_DOT && segment != TWO_DOTS && SLASH !in segment
  }

  predicate Names(stack: seq<seq<byte>>) {
    forall i :: 0 <= i < |stack| ==> IsName(stack[i])
  }

  // What one segment does to the names kept so far.
  function Visit(stack: seq<seq<byte>>, segment: seq<byte>): Option<seq<seq<byte>>> {
    if segment == [] || segment == ONE_DOT then Some(stack)
    else if segment == TWO_DOTS then if stack == [] then None else Some(stack[..|stack| - 1])
    else Some(stack + [segment])
  }

  function Resolve(stack: seq<seq<byte>>, segments: seq<seq<byte>>): Option<seq<seq<byte>>>
    decreases |segments|
  {
    if segments == [] then Some(stack)
    else match Visit(stack, segments[0])
      case None => None
      case Some(next) => Resolve(next, segments[1..])
  }

  function Join(stack: seq<seq<byte>>): seq<byte> {
    if stack == [] then [] else Join(stack[..|stack| - 1]) + ([SLASH] + stack[|stack| - 1])
  }

  function PathOf(stack: seq<seq<byte>>): seq<byte> {
    if stack == [] then [SLASH] else Join(stack)
  }

  /** normalize_path: a stack fold over the segments; None without a leading slash and when `..` leaves the root. */
  function NormalPath(s: seq<byte>): Option<seq<byte>> {
    if s == [] || s[0] != SLASH then None
    else match Resolve([], Segments(s))
      case None => None
      case Some(stack) => Some(PathOf(stack))
  }

  // The fold over the segments of what is left of a path.
  function Rest(stack: seq<seq<byte>>, s: seq<byte>): Option<seq<seq<byte>>> {
    Resolve(stack, Segments(s))
  }

  lemma RestAtSlash(stack: seq<seq<byte>>, s: seq<byte>)
    requires s != [] && s[0] == SLASH
    ensures Rest(stack, s) == Rest(stack, s[1..])
  {
    assert Segments(s)[1..] == Segments(s[1..]);
  }

  lemma RestAtSegment(stack: seq<seq<byte>>, s: seq<byte>)
    ensures var n := Next(s, 0, SLASH);
      Rest(stack, s) == match Visit(stack, s[..n])
                        case None => None
                        case Some(next) => Rest(next, s[n..])
  {
    var n := Next(s, 0, SLASH);
    var visited := Visit(stack, s[..n]);
    if n < |s| {
      assert Segments(s)[1..] == Segments(s[n + 1..]);
      if visited.Some? {
        NextFacts(s, 0, SLASH);
        RestAtSlash(visited.value, s[n..]);
        assert s[n..][1..] == s[n + 1..];
        assert Resolve(stack, Segments(s)) == Resolve(visited.value, Segments(s)[1..]);
      }
    } else {
      assert s[..n] == s && s[n..] == [];
      RestOfOne(stack, s);
      if visited.Some? {
        RestOfNothing(visited.value);
      }
    }
  }

  lemma RestOfOne(stack: seq<seq<byte>>, s: seq<byte>)
    requires Next(s, 0, SLASH) == |s|
    ensures Rest(stack, s) == Visit(stack, s)
  {
    var one := [s];
    assert Segments(s) == one && one[0] == s && one[1..] == [];
    assert Resolve(stack, one) == Visit(stack, s);
  }

  lemma RestOfNothing(stack: seq<seq<byte>>)
    ensures Rest(stack, []) == Some(stack)
  {
    assert Segments([])[1..] == [];
  }

  lemma {:induction false} SegmentsHaveNoSlash(s: seq<byte>)
    ensures forall i :: 0 <= i < |Segments(s)| ==> SLASH !in Segments(s)[i]
  {
    var n := Next(s, 0, SLASH);
    NextFacts(s, 0, SLASH);
    assert s[..n] == s[0..n];
    if n < |s| {
      SegmentsHaveNoSlash(s[n + 1..]);
    }
  }

  lemma {:induction false} ResolveKeepsNames(stack: seq<seq<byte>>, segments: seq<seq<byte>>)
    requires Names(stack) && (forall i :: 0 <= i < |segments| ==> SLASH !in segments[i])
    requires Resolve(stack, segments).Some?
    ensures Names(Resolve(stack, segments).value)
    decreases |segments|
  {
    if segments != [] {
      ResolveKeepsNames(Visit(stack, segments[0]).value, segments[1..]);
    }
  }

  // Names resolve to themselves.
  lemma {:induction false} ResolveNames(stack: seq<seq<byte>>, segments: seq<seq<byte>>)
    requires Names(segments)
    ensures Resolve(stack, segments) == Some(stack + segments)
    decreases |segments|
  {
    if segments == [] {
      assert stack + [] == stack;
    } else {
      ResolveNames(stack + [segments[0]], segments[1..]);
      assert stack + [segments[0]] + segments[1..] == stack + segments;
    }
  }

  lemma {:induction false} SegmentsAppend(s: seq<byte>, name: seq<byte>)
    requires SLASH !in name
    ensures Segments(s + ([SLASH] + name)) == Segments(s) + [name]
  {
    var t := s + ([SLASH] + name);
    var n := Next(s, 0, SLASH);
    NextFacts(s, 0, SLASH);
    assert forall k :: 0 <= k < n ==> t[k] == s[0..n][k];
    NextIs(t, 0, SLASH, n);
    if n == |s| {
      assert t[..n] == s && t[n + 1..] == name;
      NextIs(name, 0, SLASH, |name|);
    } else {
      assert t[..n] == s[..n] && t[n + 1..] == s[n + 1..] + ([SLASH] + name);
      SegmentsAppend(s[n + 1..], name);
    }
  }

  lemma {:induction false} SegmentsOfJoin(stack: seq<seq<byte>>)
    requires Names(stack)
    ensures Segments(Join(stack)) == [[]] + stack
  {
    if stack != [] {
      var front, name := stack[..|stack| - 1], stack[|stack| - 1];
      SegmentsOfJoin(front);
      SegmentsAppend(Join(front), name);
      assert front + [name] == stack;
    }
  }

  lemma {:induction false} JoinStartsWithSlash(stack: seq<seq<byte>>)
    requires stack != []
    ensures Join(stack) != [] && Join(stack)[0] == SLASH
  {
    if |stack| > 1 {
      JoinStartsWithSlash(stack[..|stack| - 1]);
    }
  }

  lemma NormalPathParts(s: seq<byte>) returns (stack: seq<seq<byte>>)
    requires NormalPath(s).Some?
    ensures Names(stack) && NormalPath(s) == Some(PathOf(stack))
  {
    SegmentsHaveNoSlash(s);
    ResolveKeepsNames([], Segments(s));
    stack := Resolve([], Segments(s)).value;
  }

  /** A normal path starts with a slash and none of its segments is empty, `.` or `..`. */
  lemma NormalPathHasNames(s: seq<byte>)
    requires NormalPath(s).Some?
    ensures var p := NormalPath(s).value;
      p != [] && p[0] == SLASH && (p == [SLASH] || (Segments(p)[0] == [] && Names(Segments(p)[1..])))
  {
    var stack := NormalPathParts(s);
    if stack != [] {
      JoinStartsWithSlash(stack);
      SegmentsOfJoin(stack);
    }
  }

  /** Normalising twice is normalising once. */
  lemma NormalPathIdempotent(s: seq<byte>)
    requires NormalPath(s).Some?
    ensures NormalPath(NormalPath(s).value) == NormalPath(s)
  {
    var stack := NormalPathParts(s);
    var p := PathOf(stack);
    if stack == [] {
      RestAtSlash([], p);
      assert p[1..] == [];
      assert Rest([], p) == Some([]);
    } else {
      JoinStartsWithSlash(stack);
      SegmentsOfJoin(stack);
      assert ([[]] + stack)[1..] == stack;
      ResolveNames([], stack);
      assert [] + stack == stack;
    }
  }

  // How many directories deep the segments lead; a name goes down, `..` goes up.
  function Depth(segments: seq<seq<byte>>): int {
    if segments == [] then 0
    else
      var segment := segments[|segments| - 1];
      Depth(segments[..|segments| - 1]) +
      if segment == [] || segment == ONE_DOT then 0 else if segment == TWO_DOTS then -1 else 1
  }

  lemma {:induction false} ResolveAppend(segments: seq<seq<byte>>, n: nat)
    requires n <= |segments|
    ensures Resolve([], segments) == match Resolve([], segments[..n])
                                     case None => None
                                     case Some(stack) => Resolve(stack, segments[n..])
  {
    ResolveSplit([], segments, n);
  }

  lemma {:induction false} ResolveSplit(stack: seq<seq<byte>>, segments: seq<seq<byte>>, n: nat)
    requires n <= |segments|
    ensures Resolve(stack, segments) == match Resolve(stack, segments[..n])
                                        case None => None
                                        case Some(next) => Resolve(next, segments[n..])
    decreases n
  {
    if n == 0 {
      assert segments[n..] == segments;
    } else {
      assert segments[..n][1..] == segments[1..][..n - 1] && segments[1..][n - 1..] == segments[n..];
      var visited := Visit(stack, segments[0]);
      if visited.Some? {
        ResolveSplit(visited.value, segments[1..], n - 1);
      }
    }
  }

  /** The fold fails exactly when some `..` leads above the root. */
  lemma {:induction false} ResolveFailsAboveRoot(segments: seq<seq<byte>>)
    ensures Resolve([], segments).None? <==> exists n: nat :: n <= |segments| && Depth(segments[..n]) < 0
    ensures Resolve([], segments).Some? ==> |Resolve([], segments).value| == Depth(segments)
  {
    if segments == [] {
    } else {
      var n := |segments| - 1;
      var front := segments[..n];
      ResolveFailsAboveRoot(front);
      ResolveAppend(segments, n);
      assert segments[n..] == [segments[n]];
      assert forall k: nat :: k <= n ==> front[..k] == segments[..k];
      assert segments[..n + 1] == segments;
      if Resolve([], front).Some? {
        var stack := Resolve([], front).value;
        assert Resolve(stack, [segments[n]]) == Visit(stack, segments[n]);
        if Resolve([], segments).None? {
          assert Depth(segments[..n + 1]) < 0;
        } else {
          forall k: nat | k <= |segments| ensures Depth(segments[..k]) >= 0 {
            if k <= n {
              assert front[..k] == segments[..k];
            }
          }
        }
      } else {
        var k: nat :| k <= n && Depth(front[..k]) < 0;
        assert Depth(segments[..k]) < 0;
      }
    }
  }

  // ---------------------------------------------------------------- the whole target

  const HTTP_SCHEME: seq<byte> := [0x68, 0x74, 0x74, 0x70, 0x3A, 0x2F, 0x2F]
  const HTTPS_SCHEME: seq<byte> := [0x68, 0x74, 0x74, 0x70, 0x73, 0x3A, 0x2F, 0x2F]

  // Where the path of a decoded target starts; None for an absolute form without a path.
  function PathStart(d: seq<byte>): (start: Option<nat>)
    ensures start.Some? ==> start.value <= |d|
  {
    if |d| >= 7 && EqualFold(d[..7], HTTP_SCHEME) then SlashFrom(d, 7)
    else if |d| >= 8 && EqualFold(d[..8], HTTPS_SCHEME) then SlashFrom(d, 8)
    else Some(0)
  }

  function SlashFrom(d: seq<byte>, i: nat): Option<nat>
    requires i <= |d|
  {
    if Next(d, i, SLASH) == |d| then None else Some(Next(d, i, SLASH))
  }

  // The target without its query and fragment.
  function TargetLength(t: seq<byte>): (n: nat)
    ensures n <= |t|
  {
    var q, h := Next(t, 0, QUESTION), Next(t, 0, HASH);
    if q < h then q else h
  }

  /** The path that a target without query and fragment names. */
  function PathOfTarget(t: seq<byte>): Option<seq<byte>> {
    match Decoded(t)
    case None => None
    case Some(d) => PathOfDecoded(d)
  }

  function PathOfDecoded(d: seq<byte>): Option<seq<byte>> {
    if d == [ASTERISK] then None
    else match PathStart(d)
      case None => Some([SLASH])
      case Some(start) => NormalPath(d[start..])
  }

  /** Whatever the target, the path that is served starts at the root and has no empty or dot segment. */
  lemma ServedPathHasNames(t: seq<byte>)
    requires PathOfTarget(t).Some?
    ensures var p := PathOfTarget(t).value;
      p != [] && p[0] == SLASH && (p == [SLASH] || (Segments(p)[0] == [] && Names(Segments(p)[1..])))
  {
    var d := Decoded(t).value;
    if PathStart(d).Some? {
      NormalPathHasNames(d[PathStart(d).value..]);
    }
  }

  // ---------------------------------------------------------------- query parameters

  // Offsets as in the header table; a value that is empty at the very end has no offset.
  datatype Param = Param(name: nat, nameLen: nat, value: Option<nat>, valueLen: nat)

  function ParamAt(b: seq<byte>, i: nat, e: nat, a: nat): Param
    requires i <= e < a <= |b|
  {
    Param(i, e - i, if e + 1 == |b| then None else Some(e + 1), a - (e + 1))
  }

  // The parameters in `b` from `i` on: a name runs to the next `=`, a value to the next `&`.
  function Params(b: seq<byte>, i: nat): seq<Param>
    requires i <= |b|
    decreases |b| - i
  {
    var e := Next(b, i, EQUALS);
    if e == |b| then []
    else
      var a := Next(b, e + 1, AMPERSAND);
      [ParamAt(b, i, e, a)] + if a == |b| then [] else Params(b, a + 1)
  }

  datatype Pair = Pair(name: seq<byte>, value: seq<byte>)

  predicate ValidPairs(ps: seq<Pair>) {
    forall i :: 0 <= i < |ps| ==> EQUALS !in ps[i].name && AMPERSAND !in ps[i].value
  }

  // name=value&name=value, followed by `tail`
  function PrintPairs(ps: seq<Pair>, tail: seq<byte>): seq<byte> {
    if ps == [] then tail
    else ps[0].name + ([EQUALS] + (ps[0].value + if |ps| == 1 then tail else [AMPERSAND] + PrintPairs(ps[1..], tail)))
  }

  // What may be left behind the pairs: text without `=`, which only an ampersand separates from them.
  predicate ValidTail(ps: seq<Pair>, tail: seq<byte>) {
    EQUALS !in tail && (ps != [] && tail != [] ==> tail[0] == AMPERSAND)
  }

  // The pairs in a text, without offsets.
  function PairsIn(s: seq<byte>): seq<Pair>
    decreases |s|
  {
    var e := Next(s, 0, EQUALS);
    if e == |s| then []
    else
      var rest := s[e + 1..];
      var a := Next(rest, 0, AMPERSAND);
      [Pair(s[..e], rest[..a])] + if a == |rest| then [] else PairsIn(rest[a + 1..])
  }

  lemma NextInFront(x: seq<byte>, c: byte, y: seq<byte>)
    requires c !in x && (y == [] || y[0] == c)
    ensures Next(x + y, 0, c) == |x|
  {
    NextIs(x + y, 0, c, |x|);
  }

  lemma NoPairs(s: seq<byte>)
    requires EQUALS !in s
    ensures PairsIn(s) == []
  {
    NextIs(s, 0, EQUALS, |s|);
  }

  lemma FirstPair(name: seq<byte>, value: seq<byte>, behind: seq<byte>)
    requires EQUALS !in name && AMPERSAND !in value && (behind == [] || behind[0] == AMPERSAND)
    ensures PairsIn(name + ([EQUALS] + (value + behind))) ==
      [Pair(name, value)] + if behind == [] then [] else PairsIn(behind[1..])
  {
    var rest := value + behind;
    var s := name + ([EQUALS] + rest);
    NextInFront(name, EQUALS, [EQUALS] + rest);
    Cut(name, [EQUALS] + rest);
    assert s[|name| + 1..] == rest;
    NextInFront(value, AMPERSAND, behind);
    Cut(value, behind);
  }

  lemma Cut(x: seq<byte>, y: seq<byte>)
    ensures (x + y)[..|x|] == x
    ensures y != [] ==> (x + y)[|x| + 1..] == y[1..]
  {
  }

  // Any text is what is in front of the first `c` and the rest.
  lemma SplitAt(s: seq<byte>, c: byte) returns (front: seq<byte>, rest: seq<byte>)
    ensures s == front + rest && |front| == Next(s, 0, c)
    ensures c !in front && (rest == [] || rest[0] == c)
    ensures c in s ==> rest != []
  {
    var n := Next(s, 0, c);
    NextFacts(s, 0, c);
    front, rest := s[0..n], s[n..];
  }

  // Any text with a pair is its first pair and what is behind it.
  lemma SplitPair(s: seq<byte>) returns (name: seq<byte>, value: seq<byte>, behind: seq<byte>)
    requires EQUALS in s
    ensures s == name + ([EQUALS] + (value + behind)) && |behind| < |s|
    ensures EQUALS !in name && AMPERSAND !in value && (behind == [] || behind[0] == AMPERSAND)
  {
    var rest;
    name, rest := SplitAt(s, EQUALS);
    value, behind := SplitAt(rest[1..], AMPERSAND);
    assert rest == [EQUALS] + rest[1..];
  }

  /** Parsing recovers exactly the printed pairs. */
  lemma {:induction false} ParsePrintedPairs(ps: seq<Pair>, tail: seq<byte>)
    requires ValidPairs(ps) && ValidTail(ps, tail)
    ensures PairsIn(PrintPairs(ps, tail)) == ps
    decreases |ps|
  {
    if ps == [] {
      NoPairs(tail);
    } else if |ps| == 1 {
      FirstPair(ps[0].name, ps[0].value, tail);
      if tail != [] {
        NoPairs(tail[1..]);
      }
    } else {
      var behind := [AMPERSAND] + PrintPairs(ps[1..], tail);
      FirstPair(ps[0].name, ps[0].value, behind);
      assert behind[1..] == PrintPairs(ps[1..], tail);
      ParsePrintedPairs(ps[1..], tail);
    }
  }

  /** Conversely, any text is the printed form of the pairs parsed from it and a tail without `=`. */
  lemma {:induction false} ParsedIsPrinted(s: seq<byte>) returns (tail: seq<byte>)
    ensures ValidPairs(PairsIn(s)) && ValidTail(PairsIn(s), tail)
    ensures s == PrintPairs(PairsIn(s), tail)
    decreases |s|
  {
    if EQUALS !in s {
      NoPairs(s);
      tail := s;
    } else {
      var name, value, behind := SplitPair(s);
      FirstPair(name, value, behind);
      if behind == [] {
        tail := [];
        assert value + tail == value + behind;
      } else {
        var further := PairsIn(behind[1..]);
        tail := ParsedIsPrinted(behind[1..]);
        assert behind == [AMPERSAND] + behind[1..];
        PrintFirst(Pair(name, value), further, tail);
        if further == [] {
          tail := behind;
        }
      }
    }
  }

  lemma PrintFirst(p: Pair, ps: seq<Pair>, tail: seq<byte>)
    ensures PrintPairs([p] + ps, tail) ==
      p.name + ([EQUALS] + (p.value + if ps == [] then tail else [AMPERSAND] + PrintPairs(ps, tail)))
  {
    assert ([p] + ps)[1..] == ps;
  }

  // The texts a parameter stands for.
  function PairOf(p: Param, b: seq<byte>): Pair {
    Pair(Sub(b, p.name, p.nameLen), if p.value.None? then [] else Sub(b, p.value.value, p.valueLen))
  }

  function PairsOf(ps: seq<Param>, b: seq<byte>): seq<Pair> {
    if ps == [] then [] else [PairOf(ps[0], b)] + PairsOf(ps[1..], b)
  }

  /** The recorded offsets denote exactly the pairs of the text. */
  lemma {:induction false} OffsetsDenotePairs(b: seq<byte>, i: nat)
    requires i <= |b|
    ensures PairsOf(Params(b, i), b) == PairsIn(b[i..])
    decreases |b| - i
  {
    hide PairsIn, Params, Next;
    var e := Next(b, i, EQUALS);
    if e == |b| {
      NextFacts(b, i, EQUALS);
      assert b[i..] == b[i..e];
      NoPairs(b[i..]);
      NoParams(b, i);
    } else {
      var a := Next(b, e + 1, AMPERSAND);
      ghost var further := [];
      if a < |b| {
        OffsetsDenotePairs(b, a + 1);
        further := Params(b, a + 1);
      }
      OnePairMore(b, i, e, a, further);
    }
  }

  lemma OnePairMore(b: seq<byte>, i: nat, e: nat, a: nat, further: seq<Param>)
    requires i <= e < a <= |b| && e == Next(b, i, EQUALS) && a == Next(b, e + 1, AMPERSAND)
    requires further == if a == |b| then [] else Params(b, a + 1)
    requires PairsOf(further, b) == if a == |b| then [] else PairsIn(b[a + 1..])
    ensures PairsOf(Params(b, i), b) == PairsIn(b[i..])
  {
    PairsAtOffset(b, i, e, a);
    TextsOfParam(b, i, e, a);
    PairsOfCons(ParamAt(b, i, e, a), further, b);
    ParamsOneByOne(b, i, e, a, further);
  }

  lemma NoParams(b: seq<byte>, i: nat)
    requires i <= |b| && Next(b, i, EQUALS) == |b|
    ensures Params(b, i) == []
  {
    hide Next;
  }

  lemma LastParam(b: seq<byte>, i: nat, e: nat)
    requires i <= e < |b| && e == Next(b, i, EQUALS) && Next(b, e + 1, AMPERSAND) == |b|
    ensures Params(b, i) == [ParamAt(b, i, e, |b|)]
  {
    hide Next;
  }

  lemma ParamAndMore(b: seq<byte>, i: nat, e: nat, a: nat)
    requires i <= e < a < |b| && e == Next(b, i, EQUALS) && a == Next(b, e + 1, AMPERSAND)
    ensures Params(b, i) == [ParamAt(b, i, e, a)] + Params(b, a + 1)
  {
    hide Next;
  }

  lemma PairsAtOffset(b: seq<byte>, i: nat, e: nat, a: nat)
    requires i <= e < a <= |b| && e == Next(b, i, EQUALS) && a == Next(b, e + 1, AMPERSAND)
    ensures PairsIn(b[i..]) == [Pair(b[i..e], b[e + 1..a])] + if a == |b| then [] else PairsIn(b[a + 1..])
  {
    hide PairsIn, Next;
    var name, value, behind := b[i..e], b[e + 1..a], b[a..];
    NextFacts(b, i, EQUALS);
    NextFacts(b, e + 1, AMPERSAND);
    assert b[i..] == name + ([EQUALS] + (value + behind));
    FirstPair(name, value, behind);
    if a < |b| {
      assert behind[1..] == b[a + 1..];
    }
  }

  lemma TextsOfParam(b: seq<byte>, i: nat, e: nat, a: nat)
    requires i <= e < a <= |b|
    ensures PairOf(ParamAt(b, i, e, a), b) == Pair(b[i..e], b[e + 1..a])
  {
  }

  lemma PairsOfCons(p: Param, ps: seq<Param>, b: seq<byte>)
    ensures PairsOf([p] + ps, b) == [PairOf(p, b)] + PairsOf(ps, b)
  {
    assert ([p] + ps)[1..] == ps;
  }

  // Every parameter lies between the place the parsing started from and the end.
  predicate ParamWithin(p: Param, from: nat, to: nat) {
    && from <= p.name && p.name + p.nameLen <= to
    && (p.value.Some? ==> from <= p.value.value && p.value.value + p.valueLen <= to)
  }

  lemma {:induction false} ParamsWithin(b: seq<byte>, i: nat)
    requires i <= |b|
    ensures forall p :: p in Params(b, i) ==> ParamWithin(p, i, |b|)
    decreases |b| - i
  {
    var e := Next(b, i, EQUALS);
    if e < |b| {
      var a := Next(b, e + 1, AMPERSAND);
      var further := [];
      if a < |b| {
        ParamsWithin(b, a + 1);
        further := Params(b, a + 1);
      }
      ParamsOneByOne(b, i, e, a, further);
    }
  }

  lemma ParamsOneByOne(b: seq<byte>, i: nat, e: nat, a: nat, further: seq<Param>)
    requires i <= e < a <= |b| && e == Next(b, i, EQUALS) && a == Next(b, e + 1, AMPERSAND)
    requires further == if a == |b| then [] else Params(b, a + 1)
    ensures Params(b, i) == [ParamAt(b, i, e, a)] + further
  {
    if a == |b| {
      LastParam(b, i, e);
    } else {
      ParamAndMore(b, i, e, a);
    }
  }
}
