/** Concrete syntax trees of RFC 8259, whitespace included, and the text each one stands for. */
module JsonGrammar {
  import opened Common
  import opened JsonString

  const MAX_JSON_DEPTH: nat := 64

  const LBRACE: byte := 0x7B
  const RBRACE: byte := 0x7D
  const LBRACKET: byte := 0x5B
  const RBRACKET: byte := 0x5D
  const COLON: byte := 0x3A
  const COMMA: byte := 0x2C
  const MINUS: byte := 0x2D
  const PLUS: byte := 0x2B
  const ZERO: byte := 0x30
  const DOT: byte := 0x2E

  predicate IsSpace(c: byte) {
    c == 0x20 || c == 0x09 || c == 0x0A || c == 0x0D
  }

  predicate IsExponentMark(c: byte) {
    c == 0x65 || c == 0x45
  }

  datatype Exponent = Exponent(mark: byte, sign: seq<byte>, digits: seq<byte>)

  datatype Numeral = Numeral(negative: bool, whole: seq<byte>, fraction: Option<seq<byte>>, exponent: Option<Exponent>)

  datatype Word = True | False | Null

  datatype Value =
    | Text(units: seq<Unit>)
    | Number(numeral: Numeral)
    | Literal(word: Word)
    | EmptyArray(space: seq<byte>)
    | Array(items: Items)
    | EmptyObject(space: seq<byte>)
    | Object(members: Members)

  datatype Item = Item(before: seq<byte>, value: Value, after: seq<byte>)

  datatype Items = LastItem(item: Item) | MoreItems(item: Item, rest: Items)

  datatype Member = Member(before: seq<byte>, key: seq<Unit>, colon: seq<byte>, item: Item)

  datatype Members = LastMember(member: Member) | MoreMembers(member: Member, rest: Members)

  // ---------------------------------------------------------------- well-formedness

  predicate ValidExponent(e: Exponent) {
    && IsExponentMark(e.mark)
    && (e.sign == [] || e.sign == [PLUS] || e.sign == [MINUS])
    && e.digits != [] && All(e.digits, IsDigit)
  }

  predicate ValidNumeral(n: Numeral) {
    && n.whole != [] && All(n.whole, IsDigit) && (n.whole[0] == ZERO ==> |n.whole| == 1)
    && (n.fraction.Some? ==> n.fraction.value != [] && All(n.fraction.value, IsDigit))
    && (n.exponent.Some? ==> ValidExponent(n.exponent.value))
  }

  predicate ValidValue(v: Value) {
    match v
    case Text(us) => ValidUnits(us)
    case Number(n) => ValidNumeral(n)
    case Literal(_) => true
    case EmptyArray(space) => All(space, IsSpace)
    case Array(items) => ValidItems(items)
    case EmptyObject(space) => All(space, IsSpace)
    case Object(members) => ValidMembers(members) && DistinctKeys(members, [])
  }

  predicate ValidItem(item: Item) {
    All(item.before, IsSpace) && ValidValue(item.value) && All(item.after, IsSpace)
  }

  predicate ValidItems(items: Items) {
    match items
    case LastItem(item) => ValidItem(item)
    case MoreItems(item, rest) => ValidItem(item) && ValidItems(rest)
  }

  predicate ValidMember(m: Member) {
    All(m.before, IsSpace) && ValidUnits(m.key) && All(m.colon, IsSpace) && ValidItem(m.item)
  }

  predicate ValidMembers(members: Members) {
    match members
    case LastMember(m) => ValidMember(m)
    case MoreMembers(m, rest) => ValidMember(m) && ValidMembers(rest)
  }

  // The reader compares keys as they are written, escapes included.
  function RawKey(m: Member): seq<byte> {
    PrintUnits(m.key)
  }

  // No key occurs twice, nor among the keys seen before.
  predicate DistinctKeys(members: Members, seen: seq<seq<byte>>) {
    match members
    case LastMember(m) => RawKey(m) !in seen
    case MoreMembers(m, rest) => RawKey(m) !in seen && DistinctKeys(rest, [RawKey(m)] + seen)
  }

  // ---------------------------------------------------------------- nesting

  function Max(a: nat, b: nat): nat {
    if a < b then b else a
  }

  // How many levels of elements are nested inside a value.
  function Height(v: Value): nat {
    match v
    case Array(items) => 1 + ItemsHeight(items)
    case Object(members) => 1 + MembersHeight(members)
    case _ => 0
  }

  function ItemsHeight(items: Items): nat {
    match items
    case LastItem(item) => Height(item.value)
    case MoreItems(item, rest) => Max(Height(item.value), ItemsHeight(rest))
  }

  function MembersHeight(members: Members): nat {
    match members
    case LastMember(m) => Height(m.item.value)
    case MoreMembers(m, rest) => Max(Height(m.item.value), MembersHeight(rest))
  }

  // ---------------------------------------------------------------- printing

  // Every printer takes the text that follows and puts its own in front of it.

  function PrintFraction(f: Option<seq<byte>>, k: seq<byte>): seq<byte> {
    if f.None? then k else [DOT] + (f.value + k)
  }

  function PrintExponent(e: Option<Exponent>, k: seq<byte>): seq<byte> {
    if e.None? then k else [e.value.mark] + (e.value.sign + (e.value.digits + k))
  }

  function PrintNumeral(n: Numeral, k: seq<byte>): seq<byte> {
    var unsigned := n.whole + PrintFraction(n.fraction, PrintExponent(n.exponent, k));
    if n.negative then [MINUS] + unsigned else unsigned
  }

  function PrintWord(w: Word): seq<byte> {
    match w
    case True => [0x74, 0x72, 0x75, 0x65]
    case False => [0x66, 0x61, 0x6C, 0x73, 0x65]
    case Null => [0x6E, 0x75, 0x6C, 0x6C]
  }

  function PrintText(us: seq<Unit>, k: seq<byte>): seq<byte> {
    [QUOTE] + (PrintUnits(us) + ([QUOTE] + k))
  }

  function Print(v: Value, k: seq<byte>): seq<byte> {
    match v
    case Text(us) => PrintText(us, k)
    case Number(n) => PrintNumeral(n, k)
    case Literal(w) => PrintWord(w) + k
    case EmptyArray(space) => [LBRACKET] + (space + ([RBRACKET] + k))
    case Array(items) => [LBRACKET] + PrintItems(items, k)
    case EmptyObject(space) => [LBRACE] + (space + ([RBRACE] + k))
    case Object(members) => [LBRACE] + PrintMembers(members, k)
  }

  function PrintItem(item: Item, k: seq<byte>): seq<byte> {
    item.before + Print(item.value, item.after + k)
  }

  // The items up to and including the closing bracket.
  function PrintItems(items: Items, k: seq<byte>): seq<byte> {
    match items
    case LastItem(item) => PrintItem(item, [RBRACKET] + k)
    case MoreItems(item, rest) => PrintItem(item, [COMMA] + PrintItems(rest, k))
  }

  function PrintMember(m: Member, k: seq<byte>): seq<byte> {
    m.before + PrintText(m.key, m.colon + ([COLON] + PrintItem(m.item, k)))
  }

  // The members up to and including the closing brace.
  function PrintMembers(members: Members, k: seq<byte>): seq<byte> {
    match members
    case LastMember(m) => PrintMember(m, [RBRACE] + k)
    case MoreMembers(m, rest) => PrintMember(m, [COMMA] + PrintMembers(rest, k))
  }

  // ---------------------------------------------------------------- where a value ends

  // `rest` does not go on with bytes that would still belong to the numeral.
  predicate NumeralStops(n: Numeral, rest: seq<byte>) {
    rest == [] ||
    if n.exponent.Some? then !IsDigit(rest[0])
    else if n.fraction.Some? then !IsDigit(rest[0]) && !IsExponentMark(rest[0])
    else rest[0] != DOT && !IsExponentMark(rest[0]) && (n.whole == [ZERO] || !IsDigit(rest[0]))
  }

  predicate Stops(v: Value, rest: seq<byte>) {
    v.Number? ==> NumeralStops(v.numeral, rest)
  }
}
