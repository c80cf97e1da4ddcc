/** Requests in the form of section 3 of RFC 9112, with the freedom that section 2.2 and section 5.1 leave: a line ends
    with CRLF or with a bare LF, and spaces and tabs may surround a field value. */
module HttpMessage {
  import opened Common
  import opened HttpParser
  import opened HttpFields

  datatype LineEnd = CrLf | BareLf

  datatype Field = Field(name: seq<byte>, before: seq<byte>, value: seq<byte>, after: seq<byte>, end: LineEnd)

  datatype Message = Message(
    verb: Method, uri: seq<byte>, version: Version, lineEnd: LineEnd,
    fields: seq<Field>, sectionEnd: LineEnd, body: seq<byte>)

  // ---------------------------------------------------------------- printing

  function EndText(e: LineEnd): (t: seq<byte>)
    ensures 1 <= |t| <= 2
  {
    if e.CrLf? then [CR, LF] else [LF]
  }

  function VersionText(v: Version): (t: seq<byte>)
    ensures |t| == 8 && VersionOf(t) == Some(v)
  {
    HTTP_SLASH + [0x31, 0x2E, if v.HTTP_1_0? then 0x30 else 0x31]
  }

  // A field line, followed by `rest`.
  function PrintField(f: Field, rest: seq<byte>): seq<byte> {
    f.name + ([HEADER_COLON] + (f.before + (f.value + (f.after + (EndText(f.end) + rest)))))
  }

  function PrintFields(fields: seq<Field>, rest: seq<byte>): seq<byte> {
    if fields == [] then rest else PrintField(fields[0], PrintFields(fields[1..], rest))
  }

  function PrintLine(m: Message, rest: seq<byte>): seq<byte> {
    Token(m.verb) + (m.uri + ([SPACE] + (VersionText(m.version) + (EndText(m.lineEnd) + rest))))
  }

  function Print(m: Message): seq<byte> {
    PrintLine(m, PrintFields(m.fields, EndText(m.sectionEnd) + m.body))
  }

  // ---------------------------------------------------------------- well-formed requests

  predicate IsUri(t: seq<byte>) {
    t != [] && forall k :: 0 <= k < |t| ==> t[k] != SPACE && !IsLineEnd(t[k])
  }

  predicate IsBlank(t: seq<byte>) {
    forall k :: 0 <= k < |t| ==> t[k] == SPACE || t[k] == TAB
  }

  predicate IsValue(t: seq<byte>) {
    && (forall k :: 0 <= k < |t| ==> !IsLineEnd(t[k]))
    && (t != [] ==> !IsWhitespace(t[0]) && !IsWhitespace(t[|t| - 1]))
  }

  predicate ValidField(f: Field) {
    FieldName(f.name) && IsBlank(f.before) && IsValue(f.value) && IsBlank(f.after)
  }

  // What the fields say about the length of the body; None when they must not be sent.
  function DeclaredLength(fields: seq<Field>): Option<nat> {
    if fields == [] then Some(0)
    else
      var before, f := DeclaredLength(fields[..|fields| - 1]), fields[|fields| - 1];
      if before.None? || EqualFold(f.name, TRANSFER_ENCODING) then None
      else if !EqualFold(f.name, CONTENT_LENGTH) then before
      else if Declares(fields[..|fields| - 1]) then None
      else LengthOf(f.value)
  }

  predicate Declares(fields: seq<Field>) {
    exists k :: 0 <= k < |fields| && EqualFold(fields[k].name, CONTENT_LENGTH)
  }

  // The last field of a name, in any letter case.
  function LastNamed(fields: seq<Field>, name: seq<byte>): (k: Option<nat>)
    ensures k.Some? ==> k.value < |fields|
  {
    if fields == [] then None
    else if EqualFold(fields[|fields| - 1].name, name) then Some(|fields| - 1)
    else LastNamed(fields[..|fields| - 1], name)
  }

  // How many bytes a field has in front of the end of its line.
  function LineLength(f: Field): nat {
    |f.name| + 1 + |f.before| + |f.value| + |f.after|
  }

  function FieldLength(f: Field): nat {
    LineLength(f) + |EndText(f.end)|
  }

  function FieldsLength(fields: seq<Field>): nat {
    if fields == [] then 0 else FieldLength(fields[0]) + FieldsLength(fields[1..])
  }

  function RequestLineLength(m: Message): nat {
    |Token(m.verb)| + |m.uri| + 9 + |EndText(m.lineEnd)|
  }

  // How many bytes are in front of the body.
  function HeadLength(m: Message): nat {
    RequestLineLength(m) + FieldsLength(m.fields) + |EndText(m.sectionEnd)|
  }

  /** What the parser takes: at most 32 fields, at most one Content-Length and no Transfer-Encoding among them, a body
      of the declared length, and less than 4096 and 65536 bytes without and with the body. */
  predicate ValidMessage(m: Message) {
    && IsUri(m.uri) && (forall k :: 0 <= k < |m.fields| ==> ValidField(m.fields[k])) && |m.fields| <= MAX_HEADERS
    && DeclaredLength(m.fields) == Some(|m.body|)
    && HeadLength(m) < MAX_HEADER_BYTES && HeadLength(m) + |m.body| < MAX_REQUEST_BYTES
  }

  // ---------------------------------------------------------------- printed texts by position

  // `t` stands at byte `i`.
  predicate TextAt(b: seq<byte>, i: nat, t: seq<byte>) {
    i + |t| <= |b| && b[i..i + |t|] == t
  }

  // From byte `i` on there is exactly `t`.
  predicate Behind(b: seq<byte>, i: nat, t: seq<byte>) {
    i <= |b| && b[i..] == t
  }

  lemma TextSplits(b: seq<byte>, i: nat, t: seq<byte>, rest: seq<byte>)
    ensures Behind(b, i, t + rest) <==> TextAt(b, i, t) && Behind(b, i + |t|, rest)
  {
    if Behind(b, i, t + rest) {
      assert b[i..][..|t|] == t && b[i..][|t|..] == rest;
    }
    if TextAt(b, i, t) {
      assert b[i..] == b[i..i + |t|] + b[i + |t|..];
    }
  }

  predicate FieldAt(b: seq<byte>, i: nat, f: Field) {
    var n := i + |f.name|;
    var v := n + 1 + |f.before|;
    && TextAt(b, i, f.name) && TextAt(b, n, [HEADER_COLON])
    && TextAt(b, n + 1, f.before) && TextAt(b, v, f.value) && TextAt(b, v + |f.value|, f.after)
    && TextAt(b, i + LineLength(f), EndText(f.end))
  }

  predicate FieldsAt(b: seq<byte>, i: nat, fields: seq<Field>)
    decreases |fields|
  {
    fields == [] || (FieldAt(b, i, fields[0]) && FieldsAt(b, i + FieldLength(fields[0]), fields[1..]))
  }

  predicate LineAt(b: seq<byte>, m: Message) {
    var i := |Token(m.verb)|;
    var n := i + |m.uri|;
    && TextAt(b, 0, Token(m.verb)) && TextAt(b, i, m.uri) && TextAt(b, n, [SPACE])
    && TextAt(b, n + 1, VersionText(m.version)) && TextAt(b, n + 9, EndText(m.lineEnd))
  }

  predicate MessageAt(b: seq<byte>, m: Message) {
    var i := RequestLineLength(m);
    && LineAt(b, m) && FieldsAt(b, i, m.fields)
    && TextAt(b, i + FieldsLength(m.fields), EndText(m.sectionEnd)) && TextAt(b, HeadLength(m), m.body)
  }

  lemma FieldSplits(b: seq<byte>, i: nat, f: Field, rest: seq<byte>)
    ensures Behind(b, i, PrintField(f, rest)) <==> FieldAt(b, i, f) && Behind(b, i + FieldLength(f), rest)
  {
    hide TextAt, Behind, EndText;
    var end := EndText(f.end) + rest;
    var n := i + |f.name|;
    var v := n + 1 + |f.before|;
    TextSplits(b, i, f.name, [HEADER_COLON] + (f.before + (f.value + (f.after + end))));
    TextSplits(b, n, [HEADER_COLON], f.before + (f.value + (f.after + end)));
    TextSplits(b, n + 1, f.before, f.value + (f.after + end));
    TextSplits(b, v, f.value, f.after + end);
    TextSplits(b, v + |f.value|, f.after, end);
    TextSplits(b, i + LineLength(f), EndText(f.end), rest);
  }

  lemma {:induction false} FieldsSplit(b: seq<byte>, i: nat, fields: seq<Field>, rest: seq<byte>)
    ensures Behind(b, i, PrintFields(fields, rest)) <==>
      FieldsAt(b, i, fields) && Behind(b, i + FieldsLength(fields), rest)
    decreases |fields|
  {
    hide PrintField, FieldAt, FieldLength, Behind;
    if fields != [] {
      FieldSplits(b, i, fields[0], PrintFields(fields[1..], rest));
      FieldsSplit(b, i + FieldLength(fields[0]), fields[1..], rest);
    }
  }

  lemma LineSplits(b: seq<byte>, m: Message, rest: seq<byte>)
    ensures Behind(b, 0, PrintLine(m, rest)) <==> LineAt(b, m) && Behind(b, RequestLineLength(m), rest)
  {
    hide TextAt, Behind, Token, VersionText, EndText;
    var end := EndText(m.lineEnd) + rest;
    var i := |Token(m.verb)|;
    var n := i + |m.uri|;
    TextSplits(b, 0, Token(m.verb), m.uri + ([SPACE] + (VersionText(m.version) + end)));
    TextSplits(b, i, m.uri, [SPACE] + (VersionText(m.version) + end));
    TextSplits(b, n, [SPACE], VersionText(m.version) + end);
    TextSplits(b, n + 1, VersionText(m.version), end);
    TextSplits(b, n + 9, EndText(m.lineEnd), rest);
  }

  lemma PartsSplit(b: seq<byte>, m: Message, rest: seq<byte>)
    ensures Behind(b, 0, PrintLine(m, PrintFields(m.fields, EndText(m.sectionEnd) + (m.body + rest)))) <==>
      MessageAt(b, m) && Behind(b, HeadLength(m) + |m.body|, rest)
  {
    hide TextAt, Behind, LineAt, FieldsAt, PrintLine, PrintFields, FieldsLength, EndText;
    var end := EndText(m.sectionEnd) + (m.body + rest);
    var i := RequestLineLength(m);
    LineSplits(b, m, PrintFields(m.fields, end));
    FieldsSplit(b, i, m.fields, end);
    TextSplits(b, i + FieldsLength(m.fields), EndText(m.sectionEnd), m.body + rest);
    TextSplits(b, HeadLength(m), m.body, rest);
  }

  // What stands behind the request does not matter.
  lemma FieldWithRest(f: Field, t: seq<byte>, rest: seq<byte>)
    ensures PrintField(f, t) + rest == PrintField(f, t + rest)
  {
  }

  lemma {:induction false} FieldsWithRest(fields: seq<Field>, t: seq<byte>, rest: seq<byte>)
    ensures PrintFields(fields, t) + rest == PrintFields(fields, t + rest)
  {
    if fields != [] {
      FieldsWithRest(fields[1..], t, rest);
      FieldWithRest(fields[0], PrintFields(fields[1..], t), rest);
      hide PrintField;
    }
  }

  lemma LineWithRest(m: Message, t: seq<byte>, rest: seq<byte>)
    ensures PrintLine(m, t) + rest == PrintLine(m, t + rest)
  {
    hide Token, VersionText, EndText;
  }

  lemma PrintedWithRest(m: Message, rest: seq<byte>)
    ensures Print(m) + rest == PrintLine(m, PrintFields(m.fields, EndText(m.sectionEnd) + (m.body + rest)))
  {
    hide PrintLine, PrintFields, EndText;
    Associative(EndText(m.sectionEnd), m.body, rest);
    FieldsWithRest(m.fields, EndText(m.sectionEnd) + m.body, rest);
    LineWithRest(m, PrintFields(m.fields, EndText(m.sectionEnd) + m.body), rest);
  }

  /** A text is a request and something behind it exactly when the parts of the request are where they should be. */
  lemma PrintedByParts(b: seq<byte>, m: Message, rest: seq<byte>)
    ensures b == Print(m) + rest <==> MessageAt(b, m) && Behind(b, HeadLength(m) + |m.body|, rest)
    ensures |Print(m)| == HeadLength(m) + |m.body|
  {
    hide MessageAt, Print, HeadLength;
    assert forall t :: Behind(b, 0, t) <==> b == t;
    PrintedWithRest(m, rest);
    PartsSplit(b, m, rest);
    PrintedWithRest(m, []);
    PartsSplit(Print(m), m, []);
    assert Print(m) + [] == Print(m);
    assert Print(m)[0..] == Print(m);
  }
}
