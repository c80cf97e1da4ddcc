/** What the path and the query of a request target are, said about the parts it is put together from. */
module UriTargets {
  import opened Common
  import opened HttpParser
  import opened UriText
  import opened UriNormalize

  // ---------------------------------------------------------------- path, fragment and query

  /** A path, then perhaps a fragment, then a question mark and printed pairs: these pairs and this path are found.
      Without a question mark there are no pairs. */
  lemma WholeTarget(path: seq<byte>, fragment: seq<byte>, ps: seq<Pair>, tail: seq<byte>)
    requires 0x3F !in path && 0x23 !in path
    requires 0x3F !in fragment && (fragment != [] ==> fragment[0] == 0x23)
    requires ValidPairs(ps) && ValidTail(ps, tail)
    ensures var text := path + (fragment + ([0x3F] + PrintPairs(ps, tail)));
      QueryPairs(text) == ps && Path(text) == path
    ensures QueryPairs(path + fragment) == [] && Path(path + fragment) == path
  {
    hide Next, PairsIn, PrintPairs, TargetLength;
    var query := PrintPairs(ps, tail);
    var text := path + (fragment + ([0x3F] + query));
    var front := path + fragment;
    assert text == front + ([0x3F] + query) && front == path + (fragment + []);
    NextInFront(front, QUESTION, [0x3F] + query);
    NextInFront(front, QUESTION, []);
    assert front + [] == front;
    Cut(front, [0x3F] + query);
    assert ([0x3F] + query)[1..] == query;
    ParsePrintedPairs(ps, tail);
    EndsWhere(path, fragment, [0x3F] + query);
    EndsWhere(path, fragment, []);
  }

  lemma EndsWhere(path: seq<byte>, fragment: seq<byte>, rest: seq<byte>)
    requires 0x3F !in path && 0x23 !in path && (fragment != [] ==> fragment[0] == 0x23)
    requires rest != [] ==> rest[0] == 0x3F
    ensures Path(path + (fragment + rest)) == path
  {
    hide Next, TargetLength;
    var text := path + (fragment + rest);
    assert text[..|path|] == path;
    assert |path| < |text| ==> text[|path|] == (fragment + rest)[0];
    TargetLengthIs(text, |path|);
  }

  // ---------------------------------------------------------------- the forms of a target

  /** A target that begins with a slash is its own path. */
  lemma OriginForm(d: seq<byte>)
    requires d != [] && d[0] == 0x2F
    ensures PathOfDecoded(d) == NormalPath(d)
  {
    hide NormalPath;
    NoScheme(d, Ascii("http://"));
    NoScheme(d, Ascii("https://"));
    SchemesAre();
    hide Ascii;
    assert d[0..] == d;
  }

  lemma SchemesAre()
    ensures HTTP_SCHEME == Ascii("http://") && HTTPS_SCHEME == Ascii("https://")
  {
    SameText("http://", HTTP_SCHEME);
    SameText("https://", HTTPS_SCHEME);
  }

  lemma NoScheme(d: seq<byte>, scheme: seq<byte>)
    requires d != [] && d[0] == 0x2F && (scheme == Ascii("http://") || scheme == Ascii("https://"))
    ensures |d| >= |scheme| ==> !EqualFold(d[..|scheme|], scheme)
  {
    assert scheme[0] == 0x68;
    if |d| >= |scheme| {
      assert d[..|scheme|][0] == d[0];
    }
  }

  /** `http://` or `https://`, in any letter case, and an authority are left out; without a path behind them the path
      is a slash. */
  lemma AbsoluteForm(scheme: seq<byte>, authority: seq<byte>, path: seq<byte>)
    requires EqualFold(scheme, Ascii("http://")) || EqualFold(scheme, Ascii("https://"))
    requires 0x2F !in authority && (path != [] ==> path[0] == 0x2F)
    ensures PathOfDecoded(scheme + (authority + path)) == if path == [] then Some([0x2F]) else NormalPath(path)
  {
    hide NormalPath, Next, EqualFold;
    SchemesAre();
    hide Ascii;
    var d := scheme + (authority + path);
    SchemeLength(scheme);
    SchemeFound(scheme, d);
    var i := |scheme|;
    assert d[i..] == authority + path;
    NextInFront(authority, SLASH, path);
    NextSuffix(d, i, SLASH);
    assert d[i + |authority|..] == path;
  }

  lemma SchemeLength(scheme: seq<byte>)
    ensures EqualFold(scheme, HTTP_SCHEME) ==> |scheme| == 7
    ensures EqualFold(scheme, HTTPS_SCHEME) ==> |scheme| == 8
  {
  }

  lemma SchemeFound(scheme: seq<byte>, d: seq<byte>)
    requires EqualFold(scheme, HTTP_SCHEME) || EqualFold(scheme, HTTPS_SCHEME)
    requires |scheme| <= |d| && d[..|scheme|] == scheme
    ensures d != [ASTERISK]
    ensures |scheme| == 7 ==> EqualFold(d[..7], HTTP_SCHEME)
    ensures |scheme| == 8 ==> EqualFold(d[..8], HTTPS_SCHEME) && !EqualFold(d[..7], HTTP_SCHEME)
  {
    SchemeLength(scheme);
    if |scheme| == 8 {
      assert d[..7][4] == scheme[4];
      assert Lower(scheme[4]) == Lower(HTTPS_SCHEME[4]);
    }
  }

  /** Everything else names no path, the asterisk form included. */
  lemma NoForm(d: seq<byte>)
    requires d != [] ==> d[0] != 0x2F
    requires forall scheme :: scheme <= d ==>
      !EqualFold(scheme, Ascii("http://")) && !EqualFold(scheme, Ascii("https://"))
    ensures PathOfDecoded(d) == None
  {
    SchemesAre();
    hide Ascii, EqualFold, Next;
    if |d| >= 7 {
      assert d[..7] <= d;
    }
    if |d| >= 8 {
      assert d[..8] <= d;
    }
    assert d[0..] == d;
  }

  // ---------------------------------------------------------------- percent-encoding

  /** A byte is escaped by the hexadecimal digits of its two halves, in any letter case; the zero byte cannot be. */
  lemma EscapeOf(c: byte, capital: bool, capital2: bool)
    ensures Decoded([0x25, HexChar(c / 16, capital), HexChar(c % 16, capital2)]) == if c == 0 then None else Some([c])
  {
    hide HexChar;
    HexCharIs(c / 16, capital);
    HexCharIs(c % 16, capital2);
    var hi, lo := HexChar(c / 16, capital), HexChar(c % 16, capital2);
    if c == 0 {
      ZeroChar(capital);
      ZeroChar(capital2);
    } else {
      var one := [Escaped(hi, lo)];
      assert one[1..] == [];
      DecodePieces(one);
      assert PrintPieces(one) == [0x25, hi, lo] + [] == [0x25, hi, lo];
      assert MeantBy(one) == [EscapedByte(hi, lo)] + [] == [c];
    }
  }

  lemma ZeroChar(capital: bool)
    ensures HexChar(0, capital) == 0x30
  {
  }

  // ---------------------------------------------------------------- segments

  // The segments with slashes between them.
  function Spread(parts: seq<seq<byte>>): seq<byte>
    requires parts != []
  {
    if |parts| == 1 then parts[0] else parts[0] + ([0x2F] + Spread(parts[1..]))
  }

  /** The segments are the pieces between the slashes, all of them and in order. */
  lemma {:induction false} SegmentsSpread(s: seq<byte>)
    ensures Spread(Segments(s)) == s && forall i :: 0 <= i < |Segments(s)| ==> 0x2F !in Segments(s)[i]
  {
    SegmentsHaveNoSlash(s);
    var n := Next(s, 0, SLASH);
    NextFacts(s, 0, SLASH);
    if n < |s| {
      var rest := Segments(s[n + 1..]);
      SegmentsSpread(s[n + 1..]);
      assert Segments(s)[1..] == rest;
      assert s == s[..n] + ([s[n]] + s[n + 1..]);
    }
  }

  predicate Named(segment: seq<byte>) {
    segment != [] && segment != [0x2E] && segment != [0x2E, 0x2E]
  }

  // A segment that is not empty, `.` or `..`, and that no later `..` takes back: from it on the path stays below.
  predicate Survives(segments: seq<seq<byte>>, i: nat)
    requires i < |segments|
  {
    Named(segments[i]) && forall j :: i < j <= |segments| ==> Below(segments, i, j)
  }

  // In front of segment `j` the path is deeper than in front of segment `i`.
  predicate Below(segments: seq<seq<byte>>, i: nat, j: nat)
    requires i < j <= |segments|
  {
    Depth(segments[..j]) > Depth(segments[..i])
  }

  lemma BelowSnoc(front: seq<seq<byte>>, segment: seq<byte>, i: nat, j: nat)
    requires i < j <= |front|
    ensures Below(front + [segment], i, j) <==> Below(front, i, j)
  {
    hide Depth;
    var all := front + [segment];
    assert all[..i] == front[..i] && all[..j] == front[..j];
  }

  lemma BelowAll(front: seq<seq<byte>>, segment: seq<byte>, i: nat)
    requires i <= |front|
    ensures Below(front + [segment], i, |front| + 1) <==> Depth(front + [segment]) > Depth(front[..i])
    ensures (front + [segment])[..i] == front[..i]
  {
    hide Depth;
    var all := front + [segment];
    assert all[..i] == front[..i] && all[..|all|] == all;
  }

  ghost predicate SurvivorAt(segments: seq<seq<byte>>, depth: nat) {
    exists i: nat :: i < |segments| && Survives(segments, i) && Depth(segments[..i]) == depth
  }

  lemma DepthSnoc(segments: seq<seq<byte>>, segment: seq<byte>)
    ensures Depth(segments + [segment]) ==
      Depth(segments) + if segment == [] || segment == [0x2E] then 0 else if segment == [0x2E, 0x2E] then -1 else 1
  {
    assert (segments + [segment])[..|segments|] == segments;
  }

  lemma ResolveSnoc(segments: seq<seq<byte>>, segment: seq<byte>)
    ensures Resolve([], segments + [segment]) ==
      match Resolve([], segments)
      case None => None
      case Some(stack) => Visit(stack, segment)
  {
    var all := segments + [segment];
    ResolveAppend(all, |segments|);
    assert all[..|segments|] == segments && all[|segments|..] == [segment];
    if Resolve([], segments).Some? {
      var stack := Resolve([], segments).value;
      assert [segment][1..] == [];
      hide Visit;
      assert Resolve(stack, [segment]) == Visit(stack, segment);
    }
  }

  /** Where the fold succeeds, the names it keeps are the segments that survive, each at its depth, and nothing else. */
  lemma {:induction false} SurvivorsAreKept(segments: seq<seq<byte>>)
    requires Resolve([], segments).Some?
    ensures var stack := Resolve([], segments).value;
      && |stack| == Depth(segments)
      && (forall i: nat :: i < |segments| && Survives(segments, i) ==>
            0 <= Depth(segments[..i]) < |stack| && stack[Depth(segments[..i])] == segments[i])
      && (forall d: nat :: d < |stack| ==> SurvivorAt(segments, d))
  {
    hide Depth, Survives, SurvivorAt, Visit, Resolve;
    if segments == [] {
      NothingKept();
    } else {
      var n := |segments| - 1;
      var front, segment := segments[..n], segments[n];
      assert front + [segment] == segments;
      ResolveSnoc(front, segment);
      SurvivorsAreKept(front);
      OneMoreSegment(front, segment, Resolve([], front).value, Resolve([], segments).value);
    }
  }

  // A segment of the front survives all of it when it survives the front and the last segment does not go back to it.
  lemma SurvivesSnoc(front: seq<seq<byte>>, segment: seq<byte>, i: nat)
    requires i < |front|
    ensures Survives(front + [segment], i) <==> Survives(front, i) && Depth(front + [segment]) > Depth(front[..i])
    ensures (front + [segment])[..i] == front[..i]
  {
    hide Depth, Below, Named;
    var all := front + [segment];
    assert all[i] == front[i];
    BelowAll(front, segment, i);
    forall j: nat | i < j <= |front| ensures Below(all, i, j) <==> Below(front, i, j) {
      BelowSnoc(front, segment, i, j);
    }
  }

  lemma NothingKept()
    ensures Resolve([], []) == Some([]) && Depth([]) == 0
  {
  }

  lemma OneMoreSegment(front: seq<seq<byte>>, segment: seq<byte>, before: seq<seq<byte>>, after: seq<seq<byte>>)
    requires Visit(before, segment) == Some(after) && |before| == Depth(front)
    requires forall i: nat :: i < |front| && Survives(front, i) ==>
      0 <= Depth(front[..i]) < |before| && before[Depth(front[..i])] == front[i]
    requires forall d: nat :: d < |before| ==> SurvivorAt(front, d)
    ensures var all := front + [segment];
      && |after| == Depth(all)
      && (forall i: nat :: i < |all| && Survives(all, i) ==>
            0 <= Depth(all[..i]) < |after| && after[Depth(all[..i])] == all[i])
      && (forall d: nat :: d < |after| ==> SurvivorAt(all, d))
  {
    hide Depth, Survives;
    var all := front + [segment];
    DepthSnoc(front, segment);
    LastSurvives(front, segment);
    forall i: nat | i < |all| && Survives(all, i)
      ensures 0 <= Depth(all[..i]) < |after| && after[Depth(all[..i])] == all[i]
    {
      if i < |front| {
        SurvivesSnoc(front, segment, i);
      }
    }
    forall d: nat | d < |after| ensures SurvivorAt(all, d) {
      if d < |before| {
        assert SurvivorAt(front, d);
        var i: nat :| i < |front| && Survives(front, i) && Depth(front[..i]) == d;
        SurvivesSnoc(front, segment, i);
        assert Survives(all, i) && Depth(all[..i]) == d;
      } else {
        assert Survives(all, |front|) && Depth(all[..|front|]) == d;
      }
    }
  }

  lemma LastSurvives(front: seq<seq<byte>>, segment: seq<byte>)
    ensures var all := front + [segment];
      && all[..|front|] == front
      && (Survives(all, |front|) <==> Named(segment))
  {
    DepthSnoc(front, segment);
    BelowAll(front, segment, |front|);
    assert front[..|front|] == front;
    hide Depth, Below;
  }

  /** The normal path: each surviving segment behind a slash, or a slash when there is none; no path when `..` leads
      above the root. */
  lemma NormalPathIs(s: seq<byte>) returns (names: seq<seq<byte>>)
    requires s != [] && s[0] == 0x2F
    ensures NormalPath(s).None? <==> LeavesRoot(Segments(s))
    ensures NormalPath(s).Some? ==>
      && (if names == [] then NormalPath(s).value == [0x2F] else Segments(NormalPath(s).value) == [[]] + names)
      && (forall i: nat :: i < |Segments(s)| && Survives(Segments(s), i) ==>
            0 <= Depth(Segments(s)[..i]) < |names| && names[Depth(Segments(s)[..i])] == Segments(s)[i])
      && (forall d: nat :: d < |names| ==> SurvivorAt(Segments(s), d))
  {
    hide Segments, Resolve, Join, Depth, Survives, SurvivorAt, Names, LeavesRoot;
    names := [];
    FailsAboveRoot(Segments(s));
    if Resolve([], Segments(s)).Some? {
      names := Resolve([], Segments(s)).value;
      SurvivorsAreKept(Segments(s));
      SegmentsHaveNoSlash(s);
      NoNamesYet();
      ResolveKeepsNames([], Segments(s));
      SegmentsOfJoin(names);
    }
  }

  // Some `..` among the segments leads above the root.
  ghost predicate LeavesRoot(segments: seq<seq<byte>>) {
    exists n: nat :: n <= |segments| && Depth(segments[..n]) < 0
  }

  lemma FailsAboveRoot(segments: seq<seq<byte>>)
    ensures Resolve([], segments).None? <==> LeavesRoot(segments)
  {
    ResolveFailsAboveRoot(segments);
  }

  lemma NoNamesYet()
    ensures Names([])
  {
  }
}
