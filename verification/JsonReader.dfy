/** The strict reader of src/app/json_parser.c as functions from the unread text to a syntax tree
    and the text behind it, and the proof that they accept exactly the grammar. */
module JsonReader {
  import opened Common
  import opened JsonString
  import opened JsonGrammar

  // A tree and the text that follows it.
  datatype Parsed<+T> = Parsed(node: T, rest: seq<byte>)

  // The longest prefix of bytes that satisfy `p`.
  function Span(t: seq<byte>, p: byte -> bool): (s: seq<byte>)
    ensures s <= t && All(s, p)
    ensures |s| < |t| ==> !p(t[|s|])
  {
    if t == [] || !p(t[0]) then [] else [t[0]] + Span(t[1..], p)
  }

  function Spaces(t: seq<byte>): seq<byte> {
    Span(t, IsSpace)
  }

  function AfterSpace(t: seq<byte>): (r: seq<byte>)
    ensures |r| <= |t|
  {
    t[|Spaces(t)|..]
  }

  predicate Starts(c: byte, t: seq<byte>) {
    t != [] && t[0] == c
  }

  function ReadText(t: seq<byte>): (r: Option<Parsed<seq<Unit>>>)
    ensures r.Some? ==> |r.value.rest| < |t|
  {
    if !Starts(QUOTE, AfterSpace(t)) then None
    else match ScanBody(AfterSpace(t)[1..])
      case None => None
      case Some((us, rest)) => Some(Parsed(us, rest))
  }

  // ---------------------------------------------------------------- numbers and literals

  function ReadWhole(t: seq<byte>): (r: Option<Parsed<seq<byte>>>)
    ensures r.Some? ==> |r.value.rest| < |t|
  {
    if t == [] || !IsDigit(t[0]) then None
    else if t[0] == ZERO then Some(Parsed([ZERO], t[1..]))
    else Some(Parsed(Span(t, IsDigit), t[|Span(t, IsDigit)|..]))
  }

  function ReadFraction(t: seq<byte>): (r: Option<Parsed<Option<seq<byte>>>>)
    ensures r.Some? ==> |r.value.rest| <= |t|
  {
    if !Starts(DOT, t) then Some(Parsed(None, t))
    else
      var digits := Span(t[1..], IsDigit);
      if digits == [] then None else Some(Parsed(Some(digits), t[1..][|digits|..]))
  }

  function ReadExponent(t: seq<byte>): (r: Option<Parsed<Option<Exponent>>>)
    ensures r.Some? ==> |r.value.rest| <= |t|
  {
    if t == [] || !IsExponentMark(t[0]) then Some(Parsed(None, t))
    else
      var sign := if |t| > 1 && (t[1] == PLUS || t[1] == MINUS) then [t[1]] else [];
      var tail := t[1 + |sign|..];
      var digits := Span(tail, IsDigit);
      if digits == [] then None else Some(Parsed(Some(Exponent(t[0], sign, digits)), tail[|digits|..]))
  }

  function ReadNumeral(t: seq<byte>): (r: Option<Parsed<Numeral>>)
    ensures r.Some? ==> |r.value.rest| < |t|
  {
    var negative := Starts(MINUS, t);
    match ReadWhole(if negative then t[1..] else t)
    case None => None
    case Some(whole) =>
      match ReadFraction(whole.rest)
      case None => None
      case Some(fraction) =>
        match ReadExponent(fraction.rest)
        case None => None
        case Some(exponent) =>
          Some(Parsed(Numeral(negative, whole.node, fraction.node, exponent.node), exponent.rest))
  }

  function ReadWord(t: seq<byte>): (r: Option<Parsed<Word>>)
    ensures r.Some? ==> |r.value.rest| < |t|
  {
    if PrintWord(True) <= t then Some(Parsed(True, t[4..]))
    else if PrintWord(False) <= t then Some(Parsed(False, t[5..]))
    else if PrintWord(Null) <= t then Some(Parsed(Null, t[4..]))
    else None
  }

  function ReadScalar(t: seq<byte>): (r: Option<Parsed<Value>>)
    ensures r.Some? ==> |r.value.rest| < |t|
  {
    if Starts(QUOTE, t) then
      match ScanBody(t[1..])
      case None => None
      case Some((us, rest)) => Some(Parsed(Text(us), rest))
    else match ReadWord(t)
      case Some(p) => Some(Parsed(Literal(p.node), p.rest))
      case None =>
        match ReadNumeral(t)
        case None => None
        case Some(p) => Some(Parsed(Number(p.node), p.rest))
  }

  // ---------------------------------------------------------------- values

  // read_value; the tree does not include the space in front.
  function ReadValue(t: seq<byte>, depth: nat): (r: Option<Parsed<Value>>)
    ensures r.Some? ==> |r.value.rest| < |t|
    decreases |t|, 3
  {
    var u := AfterSpace(t);
    if depth > MAX_JSON_DEPTH || u == [] then None
    else if u[0] == LBRACE then ReadObject(u, depth)
    else if u[0] == LBRACKET then ReadArray(u, depth)
    else ReadScalar(u)
  }

  function ReadArray(t: seq<byte>, depth: nat): (r: Option<Parsed<Value>>)
    requires Starts(LBRACKET, t)
    ensures r.Some? ==> |r.value.rest| < |t|
    decreases |t|, 0
  {
    var w := t[1..];
    if Starts(RBRACKET, AfterSpace(w)) then Some(Parsed(EmptyArray(Spaces(w)), AfterSpace(w)[1..]))
    else match ReadItems(w, depth + 1)
      case None => None
      case Some(p) => Some(Parsed(Array(p.node), p.rest))
  }

  // A value and the space around it.
  function ReadItem(t: seq<byte>, depth: nat): (r: Option<Parsed<Item>>)
    ensures r.Some? ==> |r.value.rest| < |t|
    decreases |t|, 4
  {
    match ReadValue(t, depth)
    case None => None
    case Some(p) => Some(Parsed(Item(Spaces(t), p.node, Spaces(p.rest)), AfterSpace(p.rest)))
  }

  function ReadItems(t: seq<byte>, depth: nat): (r: Option<Parsed<Items>>)
    ensures r.Some? ==> |r.value.rest| < |t|
    decreases |t|, 5
  {
    match ReadItem(t, depth)
    case None => None
    case Some(p) =>
      if Starts(RBRACKET, p.rest) then Some(Parsed(LastItem(p.node), p.rest[1..]))
      else if Starts(COMMA, p.rest) then
        match ReadItems(p.rest[1..], depth)
        case None => None
        case Some(q) => Some(Parsed(MoreItems(p.node, q.node), q.rest))
      else None
  }

  // read_object, every field read with read_value.
  function ReadObject(t: seq<byte>, depth: nat): (r: Option<Parsed<Value>>)
    ensures r.Some? ==> |r.value.rest| < |t|
    decreases |t|, 1
  {
    var u := AfterSpace(t);
    if depth > MAX_JSON_DEPTH || !Starts(LBRACE, u) then None
    else if Starts(RBRACE, AfterSpace(u[1..])) then
      Some(Parsed(EmptyObject(Spaces(u[1..])), AfterSpace(u[1..])[1..]))
    else match ReadMembers(u[1..], depth, [])
      case None => None
      case Some(p) => Some(Parsed(Object(p.node), p.rest))
  }

  // One key, the colon and the value; `keys` are the raw keys already read, newest first.
  function ReadMember(t: seq<byte>, depth: nat, keys: seq<seq<byte>>): (r: Option<Parsed<Member>>)
    ensures r.Some? ==> |r.value.rest| < |t|
    decreases |t|, 6
  {
    match ReadText(t)
    case None => None
    case Some(k) =>
      var c := AfterSpace(k.rest);
      if PrintUnits(k.node) in keys || !Starts(COLON, c) then None
      else match ReadItem(c[1..], depth + 1)
        case None => None
        case Some(p) => Some(Parsed(Member(Spaces(t), k.node, Spaces(k.rest), p.node), p.rest))
  }

  function ReadMembers(t: seq<byte>, depth: nat, keys: seq<seq<byte>>): (r: Option<Parsed<Members>>)
    ensures r.Some? ==> |r.value.rest| < |t|
    decreases |t|, 7
  {
    match ReadMember(t, depth, keys)
    case None => None
    case Some(p) =>
      if Starts(RBRACE, p.rest) then Some(Parsed(LastMember(p.node), p.rest[1..]))
      else if Starts(COMMA, p.rest) then
        match ReadMembers(p.rest[1..], depth, [RawKey(p.node)] + keys)
        case None => None
        case Some(q) => Some(Parsed(MoreMembers(p.node, q.node), q.rest))
      else None
  }

  // ---------------------------------------------------------------- soundness

  lemma SpaceSplit(t: seq<byte>)
    ensures t == Spaces(t) + AfterSpace(t) && All(Spaces(t), IsSpace)
    ensures AfterSpace(t) != [] ==> !IsSpace(AfterSpace(t)[0])
  {
  }

  lemma Headed(c: byte, t: seq<byte>)
    requires Starts(c, t)
    ensures t == [c] + t[1..]
  {
  }

  lemma {:induction false} TextSound(t: seq<byte>, us: seq<Unit>, rest: seq<byte>)
    requires ReadText(t) == Some(Parsed(us, rest))
    ensures ValidUnits(us) && t == Spaces(t) + PrintText(us, rest)
  {
    ScanSound(AfterSpace(t)[1..]);
    Headed(QUOTE, AfterSpace(t));
    SpaceSplit(t);
  }

  lemma {:induction false} WholeSound(t: seq<byte>, s: seq<byte>, rest: seq<byte>)
    requires ReadWhole(t) == Some(Parsed(s, rest))
    ensures s != [] && All(s, IsDigit) && (s[0] == ZERO ==> |s| == 1) && t == s + rest
    ensures rest != [] && s != [ZERO] ==> !IsDigit(rest[0])
  {
  }

  lemma {:induction false} FractionSound(t: seq<byte>, f: Option<seq<byte>>, rest: seq<byte>)
    requires ReadFraction(t) == Some(Parsed(f, rest))
    ensures f.Some? ==> f.value != [] && All(f.value, IsDigit)
    ensures t == PrintFraction(f, rest)
    ensures rest != [] ==> if f.Some? then !IsDigit(rest[0]) else rest[0] != DOT
  {
    if f.Some? {
      Headed(DOT, t);
    }
  }

  lemma {:induction false} ExponentSound(t: seq<byte>, e: Option<Exponent>, rest: seq<byte>)
    requires ReadExponent(t) == Some(Parsed(e, rest))
    ensures e.Some? ==> ValidExponent(e.value)
    ensures t == PrintExponent(e, rest)
    ensures rest != [] ==> if e.Some? then !IsDigit(rest[0]) else !IsExponentMark(rest[0])
  {
    hide Span;
    if e.Some? {
      var sign, tail := e.value.sign, t[1 + |e.value.sign|..];
      Headed(t[0], t);
      assert t[1..] == sign + tail;
      assert tail == Span(tail, IsDigit) + rest;
    }
  }

  lemma {:induction false} NumeralSound(t: seq<byte>, n: Numeral, rest: seq<byte>)
    requires ReadNumeral(t) == Some(Parsed(n, rest))
    ensures ValidNumeral(n) && t == PrintNumeral(n, rest) && NumeralStops(n, rest)
  {
    var tail := if Starts(MINUS, t) then t[1..] else t;
    var whole := ReadWhole(tail).value;
    var fraction := ReadFraction(whole.rest).value;
    WholeSound(tail, whole.node, whole.rest);
    FractionSound(whole.rest, fraction.node, fraction.rest);
    ExponentSound(fraction.rest, n.exponent, rest);
    if n.negative {
      Headed(MINUS, t);
    }
  }

  lemma {:induction false} ScalarSound(t: seq<byte>, v: Value, rest: seq<byte>)
    requires ReadScalar(t) == Some(Parsed(v, rest))
    ensures ValidValue(v) && Height(v) == 0 && t == Print(v, rest) && Stops(v, rest)
  {
    if v.Text? {
      ScanSound(t[1..]);
      Headed(QUOTE, t);
    } else if v.Number? {
      NumeralSound(t, v.numeral, rest);
    }
  }

  // Whatever is accepted is the text of a valid tree within the depth limit, read to its end.
  lemma {:induction false} ValueSound(t: seq<byte>, depth: nat, v: Value, rest: seq<byte>)
    requires ReadValue(t, depth) == Some(Parsed(v, rest))
    ensures ValidValue(v) && depth + Height(v) <= MAX_JSON_DEPTH
    ensures t == Spaces(t) + Print(v, rest) && Stops(v, rest)
    decreases |t|, 3
  {
    var u := AfterSpace(t);
    SpaceSplit(t);
    if u[0] == LBRACE {
      ObjectSound(u, depth, v, rest);
      SpaceSplit(u);
      assert Spaces(u) == [] && [] + Print(v, rest) == Print(v, rest);
    } else if u[0] == LBRACKET {
      ArraySound(u, depth, v, rest);
    } else {
      ScalarSound(u, v, rest);
    }
  }

  lemma {:induction false} ArraySound(t: seq<byte>, depth: nat, v: Value, rest: seq<byte>)
    requires Starts(LBRACKET, t) && depth <= MAX_JSON_DEPTH && ReadArray(t, depth) == Some(Parsed(v, rest))
    ensures ValidValue(v) && depth + Height(v) <= MAX_JSON_DEPTH && t == Print(v, rest) && Stops(v, rest)
    decreases |t|, 0
  {
    Headed(LBRACKET, t);
    var w := t[1..];
    if v.EmptyArray? {
      SpaceSplit(w);
      Headed(RBRACKET, AfterSpace(w));
    } else {
      ItemsSound(w, depth + 1, v.items, rest);
    }
  }

  lemma {:induction false} ItemSound(t: seq<byte>, depth: nat, item: Item, rest: seq<byte>)
    requires ReadItem(t, depth) == Some(Parsed(item, rest))
    ensures ValidItem(item) && depth + Height(item.value) <= MAX_JSON_DEPTH && t == PrintItem(item, rest)
    decreases |t|, 4
  {
    var p := ReadValue(t, depth).value;
    ValueSound(t, depth, p.node, p.rest);
    SpaceSplit(t);
    SpaceSplit(p.rest);
  }

  lemma {:induction false} ItemsSound(t: seq<byte>, depth: nat, items: Items, rest: seq<byte>)
    requires ReadItems(t, depth) == Some(Parsed(items, rest))
    ensures ValidItems(items) && depth + ItemsHeight(items) <= MAX_JSON_DEPTH && t == PrintItems(items, rest)
    decreases |t|, 5
  {
    var p := ReadItem(t, depth).value;
    ItemSound(t, depth, p.node, p.rest);
    if items.LastItem? {
      Headed(RBRACKET, p.rest);
    } else {
      Headed(COMMA, p.rest);
      ItemsSound(p.rest[1..], depth, items.rest, rest);
    }
  }

  lemma {:induction false} ObjectSound(t: seq<byte>, depth: nat, v: Value, rest: seq<byte>)
    requires ReadObject(t, depth) == Some(Parsed(v, rest))
    ensures ValidValue(v) && (v.Object? || v.EmptyObject?) && depth + Height(v) <= MAX_JSON_DEPTH
    ensures t == Spaces(t) + Print(v, rest)
    decreases |t|, 1
  {
    hide Spaces;
    var u := AfterSpace(t);
    SpaceSplit(t);
    Headed(LBRACE, u);
    if v.EmptyObject? {
      SpaceSplit(u[1..]);
      Headed(RBRACE, AfterSpace(u[1..]));
    } else {
      MembersSound(u[1..], depth, [], v.members, rest);
    }
  }

  lemma {:induction false} MemberSound(t: seq<byte>, depth: nat, keys: seq<seq<byte>>, m: Member, rest: seq<byte>)
    requires ReadMember(t, depth, keys) == Some(Parsed(m, rest))
    ensures ValidMember(m) && RawKey(m) !in keys && depth + 1 + Height(m.item.value) <= MAX_JSON_DEPTH
    ensures t == PrintMember(m, rest)
    decreases |t|, 6
  {
    var k := ReadText(t).value;
    var c := AfterSpace(k.rest);
    TextSound(t, k.node, k.rest);
    SpaceSplit(t);
    SpaceSplit(k.rest);
    Headed(COLON, c);
    ItemSound(c[1..], depth + 1, m.item, rest);
  }

  lemma {:induction false} MembersSound(t: seq<byte>, depth: nat, keys: seq<seq<byte>>, ms: Members, rest: seq<byte>)
    requires ReadMembers(t, depth, keys) == Some(Parsed(ms, rest))
    ensures ValidMembers(ms) && DistinctKeys(ms, keys) && depth + 1 + MembersHeight(ms) <= MAX_JSON_DEPTH
    ensures t == PrintMembers(ms, rest)
    decreases |t|, 7
  {
    hide ReadMember, PrintMember, ValidMember, Height;
    var p := ReadMember(t, depth, keys).value;
    MemberSound(t, depth, keys, p.node, p.rest);
    if ms.LastMember? {
      Headed(RBRACE, p.rest);
    } else {
      Headed(COMMA, p.rest);
      MembersSound(p.rest[1..], depth, [RawKey(p.node)] + keys, ms.rest, rest);
    }
  }

  // ---------------------------------------------------------------- completeness

  // A maximal run is found again in front of anything that does not continue it.
  lemma {:induction false} SpanOf(s: seq<byte>, t: seq<byte>, p: byte -> bool)
    requires All(s, p) && (t == [] || !p(t[0]))
    ensures Span(s + t, p) == s && (s + t)[|s|..] == t
  {
    if s == [] {
      assert s + t == t;
    } else {
      assert (s + t)[1..] == s[1..] + t;
      SpanOf(s[1..], t, p);
    }
  }

  lemma SpacesOf(space: seq<byte>, t: seq<byte>)
    requires All(space, IsSpace) && (t == [] || !IsSpace(t[0]))
    ensures Spaces(space + t) == space && AfterSpace(space + t) == t
  {
    SpanOf(space, t, IsSpace);
  }

  lemma TailOf(c: byte, t: seq<byte>)
    ensures Starts(c, [c] + t) && ([c] + t)[1..] == t
  {
  }

  lemma TextComplete(space: seq<byte>, us: seq<Unit>, rest: seq<byte>)
    requires All(space, IsSpace) && ValidUnits(us)
    ensures ReadText(space + PrintText(us, rest)) == Some(Parsed(us, rest))
    ensures Spaces(space + PrintText(us, rest)) == space
  {
    SpacesOf(space, PrintText(us, rest));
    TailOf(QUOTE, PrintUnits(us) + ([QUOTE] + rest));
    ScanComplete(us, rest);
  }

  lemma {:induction false} WholeComplete(s: seq<byte>, rest: seq<byte>)
    requires s != [] && All(s, IsDigit) && (s[0] == ZERO ==> |s| == 1)
    requires rest != [] && s != [ZERO] ==> !IsDigit(rest[0])
    ensures ReadWhole(s + rest) == Some(Parsed(s, rest))
  {
    if s[0] == ZERO {
      assert s == [ZERO];
      TailOf(ZERO, rest);
    } else {
      SpanOf(s, rest, IsDigit);
    }
  }

  lemma {:induction false} FractionComplete(f: Option<seq<byte>>, rest: seq<byte>)
    requires f.Some? ==> f.value != [] && All(f.value, IsDigit)
    requires rest != [] ==> if f.Some? then !IsDigit(rest[0]) else rest[0] != DOT
    ensures ReadFraction(PrintFraction(f, rest)) == Some(Parsed(f, rest))
  {
    if f.Some? {
      TailOf(DOT, f.value + rest);
      SpanOf(f.value, rest, IsDigit);
    }
  }

  lemma {:induction false} ExponentComplete(e: Option<Exponent>, rest: seq<byte>)
    requires e.Some? ==> ValidExponent(e.value)
    requires rest != [] ==> if e.Some? then !IsDigit(rest[0]) else !IsExponentMark(rest[0])
    ensures ReadExponent(PrintExponent(e, rest)) == Some(Parsed(e, rest))
  {
    var t := PrintExponent(e, rest);
    if e.Some? {
      var sign, digits := e.value.sign, e.value.digits;
      assert IsDigit(digits[0]);
      assert t[1] == (if sign == [] then digits[0] else sign[0]);
      assert t[1 + |sign|..] == digits + rest;
      SpanOf(digits, rest, IsDigit);
    }
  }

  // What follows the whole part neither is nor hides another digit.
  lemma FirstAfterWhole(n: Numeral, rest: seq<byte>)
    requires ValidNumeral(n) && NumeralStops(n, rest)
    ensures var t := PrintFraction(n.fraction, PrintExponent(n.exponent, rest));
      t != [] && n.whole != [ZERO] ==> !IsDigit(t[0])
    ensures var t := PrintExponent(n.exponent, rest);
      t != [] ==> if n.fraction.Some? then !IsDigit(t[0]) else t[0] != DOT
  {
  }

  lemma {:induction false} NumeralComplete(n: Numeral, rest: seq<byte>)
    requires ValidNumeral(n) && NumeralStops(n, rest)
    ensures ReadNumeral(PrintNumeral(n, rest)) == Some(Parsed(n, rest))
    ensures PrintNumeral(n, rest) != []
    ensures PrintNumeral(n, rest)[0] == MINUS || IsDigit(PrintNumeral(n, rest)[0])
  {
    var t3 := PrintExponent(n.exponent, rest);
    var t2 := PrintFraction(n.fraction, t3);
    FirstAfterWhole(n, rest);
    ExponentComplete(n.exponent, rest);
    FractionComplete(n.fraction, t3);
    WholeComplete(n.whole, t2);
    assert (n.whole + t2)[0] == n.whole[0] && IsDigit(n.whole[0]);
    TailOf(MINUS, n.whole + t2);
  }

  lemma NotAWord(t: seq<byte>)
    requires t != [] && (t[0] == MINUS || IsDigit(t[0]))
    ensures ReadWord(t).None?
  {
    assert forall w: Word :: PrintWord(w)[0] > 0x39;
  }

  lemma {:induction false} WordComplete(w: Word, rest: seq<byte>)
    ensures ReadWord(PrintWord(w) + rest) == Some(Parsed(w, rest))
    ensures !Starts(QUOTE, PrintWord(w) + rest)
  {
    var t := PrintWord(w) + rest;
    assert t[0] == PrintWord(w)[0];
    assert t[|PrintWord(w)|..] == rest;
  }

  lemma {:induction false} ScalarComplete(v: Value, rest: seq<byte>)
    requires ValidValue(v) && Stops(v, rest) && (v.Text? || v.Number? || v.Literal?)
    ensures ReadScalar(Print(v, rest)) == Some(Parsed(v, rest))
  {
    match v
    case Text(us) =>
      TailOf(QUOTE, PrintUnits(us) + ([QUOTE] + rest));
      ScanComplete(us, rest);
    case Number(n) =>
      NumeralComplete(n, rest);
      NotAWord(PrintNumeral(n, rest));
    case Literal(w) =>
      WordComplete(w, rest);
  }

  // The first byte of a printed value tells what it is.
  lemma {:induction false} FirstByte(v: Value, rest: seq<byte>)
    requires ValidValue(v)
    ensures Print(v, rest) != [] && !IsSpace(Print(v, rest)[0])
    ensures Print(v, rest)[0] != RBRACKET && Print(v, rest)[0] != RBRACE
    ensures Print(v, rest)[0] == LBRACE <==> v.Object? || v.EmptyObject?
    ensures Print(v, rest)[0] == LBRACKET <==> v.Array? || v.EmptyArray?
  {
    if v.Number? {
      assert IsDigit(v.numeral.whole[0]);
    }
  }

  /** Every valid tree within the depth limit is read back from its text, whatever follows it, as
      long as a numeral at its end does not go on in what follows. */
  lemma {:induction false} ValueComplete(space: seq<byte>, v: Value, rest: seq<byte>, depth: nat)
    requires All(space, IsSpace) && ValidValue(v) && Stops(v, rest)
    requires depth + Height(v) <= MAX_JSON_DEPTH
    ensures ReadValue(space + Print(v, rest), depth) == Some(Parsed(v, rest))
    ensures Spaces(space + Print(v, rest)) == space
    decreases v, 2
  {
    var u := Print(v, rest);
    FirstByte(v, rest);
    SpacesOf(space, u);
    if v.Object? || v.EmptyObject? {
      assert [] + u == u;
      ObjectComplete([], v, rest, depth);
    } else if v.Array? || v.EmptyArray? {
      ArrayComplete(v, rest, depth);
    } else {
      ScalarComplete(v, rest);
    }
  }

  lemma {:induction false} ArrayComplete(v: Value, rest: seq<byte>, depth: nat)
    requires ValidValue(v) && (v.Array? || v.EmptyArray?) && depth + Height(v) <= MAX_JSON_DEPTH
    ensures Starts(LBRACKET, Print(v, rest))
    ensures ReadArray(Print(v, rest), depth) == Some(Parsed(v, rest))
    decreases v, 1
  {
    match v
    case EmptyArray(space) =>
      TailOf(LBRACKET, space + ([RBRACKET] + rest));
      SpacesOf(space, [RBRACKET] + rest);
      TailOf(RBRACKET, rest);
    case Array(items) =>
      TailOf(LBRACKET, PrintItems(items, rest));
      ItemsComplete(items, rest, depth + 1);
  }

  lemma {:induction false} ItemComplete(item: Item, tail: seq<byte>, depth: nat)
    requires ValidItem(item) && depth + Height(item.value) <= MAX_JSON_DEPTH
    requires tail != [] && (tail[0] == COMMA || tail[0] == RBRACKET || tail[0] == RBRACE)
    ensures ReadItem(PrintItem(item, tail), depth) == Some(Parsed(item, tail))
    ensures var u := AfterSpace(PrintItem(item, tail)); u != [] && u[0] != RBRACKET && u[0] != RBRACE
    decreases item, 0
  {
    var t := item.after + tail;
    assert t[0] == (if item.after == [] then tail[0] else item.after[0]);
    ValueComplete(item.before, item.value, t, depth);
    FirstByte(item.value, t);
    SpacesOf(item.before, Print(item.value, t));
    SpacesOf(item.after, tail);
  }

  lemma {:induction false} ItemsComplete(items: Items, rest: seq<byte>, depth: nat)
    requires ValidItems(items) && depth + ItemsHeight(items) <= MAX_JSON_DEPTH
    ensures ReadItems(PrintItems(items, rest), depth) == Some(Parsed(items, rest))
    ensures !Starts(RBRACKET, AfterSpace(PrintItems(items, rest)))
    decreases items, 0
  {
    match items
    case LastItem(item) =>
      TailOf(RBRACKET, rest);
      ItemComplete(item, [RBRACKET] + rest, depth);
    case MoreItems(item, more) =>
      TailOf(COMMA, PrintItems(more, rest));
      ItemComplete(item, [COMMA] + PrintItems(more, rest), depth);
      ItemsComplete(more, rest, depth);
  }

  lemma {:induction false} ObjectComplete(space: seq<byte>, v: Value, rest: seq<byte>, depth: nat)
    requires All(space, IsSpace) && ValidValue(v) && (v.Object? || v.EmptyObject?)
    requires depth + Height(v) <= MAX_JSON_DEPTH
    ensures ReadObject(space + Print(v, rest), depth) == Some(Parsed(v, rest))
    decreases v, 1
  {
    SpacesOf(space, Print(v, rest));
    match v
    case EmptyObject(inner) =>
      TailOf(LBRACE, inner + ([RBRACE] + rest));
      SpacesOf(inner, [RBRACE] + rest);
      TailOf(RBRACE, rest);
    case Object(members) =>
      TailOf(LBRACE, PrintMembers(members, rest));
      MembersComplete(members, rest, depth, []);
  }

  lemma {:induction false} MemberComplete(m: Member, tail: seq<byte>, depth: nat, keys: seq<seq<byte>>)
    requires ValidMember(m) && RawKey(m) !in keys && depth + 1 + Height(m.item.value) <= MAX_JSON_DEPTH
    requires tail != [] && (tail[0] == COMMA || tail[0] == RBRACE)
    ensures ReadMember(PrintMember(m, tail), depth, keys) == Some(Parsed(m, tail))
    ensures !Starts(RBRACE, AfterSpace(PrintMember(m, tail)))
    decreases m, 0
  {
    var t := [COLON] + PrintItem(m.item, tail);
    TextComplete(m.before, m.key, m.colon + t);
    SpacesOf(m.before, PrintText(m.key, m.colon + t));
    SpacesOf(m.colon, t);
    TailOf(COLON, PrintItem(m.item, tail));
    ItemComplete(m.item, tail, depth + 1);
  }

  lemma {:induction false} MembersComplete(members: Members, rest: seq<byte>, depth: nat, keys: seq<seq<byte>>)
    requires ValidMembers(members) && DistinctKeys(members, keys)
    requires depth + 1 + MembersHeight(members) <= MAX_JSON_DEPTH
    ensures ReadMembers(PrintMembers(members, rest), depth, keys) == Some(Parsed(members, rest))
    ensures !Starts(RBRACE, AfterSpace(PrintMembers(members, rest)))
    decreases members, 0
  {
    match members
    case LastMember(m) =>
      TailOf(RBRACE, rest);
      MemberComplete(m, [RBRACE] + rest, depth, keys);
    case MoreMembers(m, more) =>
      TailOf(COMMA, PrintMembers(more, rest));
      MemberComplete(m, [COMMA] + PrintMembers(more, rest), depth, keys);
      MembersComplete(more, rest, depth, [RawKey(m)] + keys);
  }

  // ---------------------------------------------------------------- both directions together

  /** The reader accepts `t` as tree `v` and stops before `rest` exactly when `t` is space, then the
      text of `v`, then `rest`, with `v` valid, nested within the limit and complete before `rest`. */
  lemma ReaderAcceptsGrammar(t: seq<byte>, depth: nat, v: Value, rest: seq<byte>)
    ensures ReadValue(t, depth) == Some(Parsed(v, rest))
       <==> (exists space: seq<byte> :: All(space, IsSpace) && t == space + Print(v, rest))
            && ValidValue(v) && Stops(v, rest) && depth + Height(v) <= MAX_JSON_DEPTH
  {
    if ReadValue(t, depth) == Some(Parsed(v, rest)) {
      ValueSound(t, depth, v, rest);
      assert All(Spaces(t), IsSpace) && t == Spaces(t) + Print(v, rest);
    }
    if ValidValue(v) && Stops(v, rest) && depth + Height(v) <= MAX_JSON_DEPTH {
      forall space: seq<byte> | All(space, IsSpace) && t == space + Print(v, rest)
        ensures ReadValue(t, depth) == Some(Parsed(v, rest))
      {
        ValueComplete(space, v, rest, depth);
      }
    }
  }
}
