/** Challenges as JSON: the sized printer of src/app/json.c, the strict reader of
    src/app/json_request.c, and the proof that the second undoes the first. */
module JsonChallenge {
  import opened Common
  import opened JsonString
  import opened JsonDecoder
  import opened JsonGrammar
  import opened JsonReader
  import opened JsonFields
  import opened JsonParser
  import Utf8

  const KEY_ID: seq<byte> := [0x69, 0x64] // id
  const KEY_CREATOR_ID: seq<byte> := [0x63, 0x72, 0x65, 0x61, 0x74, 0x6F, 0x72, 0x5F, 0x69, 0x64] // creator_id

  datatype Challenge = Challenge(id: int, creatorId: seq<byte>, name: seq<byte>, description: seq<byte>,
                                 flag: seq<byte>, genre: Genre)

  datatype Request = Request(name: seq<byte>, description: seq<byte>, flag: seq<byte>, genre: Genre)

  // ---------------------------------------------------------------- printing

  function PrintNat(n: nat): (s: seq<byte>)
    ensures s != [] && All(s, IsDigit) && Decimal(s) == n && (s[0] == ZERO ==> |s| == 1)
  {
    if n < 10 then
      var s: seq<byte> := [0x30 + n];
      assert s[..0] == [];
      s
    else
      var front := PrintNat(n / 10);
      var s: seq<byte> := front + [0x30 + n % 10];
      assert s[..|s| - 1] == front;
      s
  }

  // The conversion %d.
  function PrintInt(v: int): seq<byte> {
    if v < 0 then [MINUS] + PrintNat(-v) else PrintNat(v)
  }

  // What %.*s prints: the slice, but only up to a NUL in it.
  function UpToNul(s: seq<byte>): (r: seq<byte>)
    ensures |r| <= |s|
    ensures |r| == |s| <==> 0 !in s
    ensures |r| == |s| ==> r == s
    ensures 0 !in r
  {
    if s == [] || s[0] == 0 then [] else [s[0]] + UpToNul(s[1..])
  }

  // One string field of the format string, and its slice.
  datatype StringField = StringField(key: seq<byte>, slice: seq<byte>)

  function StringFields(c: Challenge, includeFlag: bool): seq<StringField> {
    [StringField(KEY_CREATOR_ID, c.creatorId), StringField(KEY_NAME, c.name),
     StringField(KEY_DESCRIPTION, c.description)]
    + (if includeFlag then [StringField(KEY_FLAG, c.flag)] else [])
    + [StringField(KEY_GENRE, GenreBytes(c.genre))]
  }

  // ,"key":"slice" for every field, and the closing brace.
  function FieldsText(fields: seq<StringField>): seq<byte> {
    if fields == [] then [RBRACE]
    else
      [COMMA, QUOTE] + (fields[0].key
      + ([QUOTE, COLON, QUOTE] + (UpToNul(fields[0].slice) + ([QUOTE] + FieldsText(fields[1..])))))
  }

  function IdText(id: int, k: seq<byte>): seq<byte> {
    [LBRACE, QUOTE] + (KEY_ID + ([QUOTE, COLON] + (PrintInt(id) + k)))
  }

  // The text the format string and its arguments stand for.
  function ChallengeText(c: Challenge, includeFlag: bool): seq<byte> {
    IdText(c.id, FieldsText(StringFields(c, includeFlag)))
  }

  predicate NulFree(c: Challenge, includeFlag: bool) {
    0 !in c.creatorId && 0 !in c.name && 0 !in c.description && (includeFlag ==> 0 !in c.flag)
  }

  function Cut(s: seq<byte>): nat {
    |s| - |UpToNul(s)|
  }

  // How many bytes of its slices a challenge loses to NULs when it is printed.
  function Slack(c: Challenge, includeFlag: bool): nat {
    Cut(c.creatorId) + Cut(c.name) + Cut(c.description) + (if includeFlag then Cut(c.flag) else 0)
  }

  lemma SlackIffNul(c: Challenge, includeFlag: bool)
    ensures Slack(c, includeFlag) == 0 <==> NulFree(c, includeFlag)
  {
  }

  // The bytes that the fields take besides the closing brace.
  function FieldsLength(fields: seq<StringField>): nat {
    if fields == [] then 0 else |fields[0].key| + |UpToNul(fields[0].slice)| + 6 + FieldsLength(fields[1..])
  }

  lemma {:induction false} TextLength(fields: seq<StringField>)
    ensures |FieldsText(fields)| == FieldsLength(fields) + 1
  {
    if fields != [] {
      TextLength(fields[1..]);
    }
  }

  lemma SplitLength(front: seq<StringField>, back: seq<StringField>)
    ensures FieldsLength(front + back) == FieldsLength(front) + FieldsLength(back)
  {
    if front == [] {
      assert front + back == back;
    } else {
      assert (front + back)[1..] == front[1..] + back;
    }
  }

  lemma OneLength(f: StringField)
    ensures FieldsLength([f]) == |f.key| + |UpToNul(f.slice)| + 6
  {
  }

  lemma ChallengeLength(c: Challenge, includeFlag: bool)
    ensures |ChallengeText(c, includeFlag)| == 7 + |PrintInt(c.id)|
      + (16 + |UpToNul(c.creatorId)|) + (10 + |UpToNul(c.name)|) + (17 + |UpToNul(c.description)|)
      + (if includeFlag then 10 + |UpToNul(c.flag)| else 0) + (11 + |GenreBytes(c.genre)|)
  {
    var a, b := StringField(KEY_CREATOR_ID, c.creatorId), StringField(KEY_NAME, c.name);
    var d, f := StringField(KEY_DESCRIPTION, c.description), StringField(KEY_FLAG, c.flag);
    var g := StringField(KEY_GENRE, GenreBytes(c.genre));
    var flag := if includeFlag then [f] else [];
    assert StringFields(c, includeFlag) == ([a] + [b] + [d]) + flag + [g];
    SplitLength([a] + [b] + [d] + flag, [g]);
    SplitLength([a] + [b] + [d], flag);
    SplitLength([a] + [b], [d]);
    SplitLength([a], [b]);
    OneLength(a);
    OneLength(b);
    OneLength(d);
    OneLength(f);
    OneLength(g);
    GenreNulFree(c.genre);
    TextLength(StringFields(c, includeFlag));
  }

  // int_string_length, for every `int` whose negation is an `int`.
  method IntStringLength(value: int) returns (length: nat)
    requires -INT_MAX <= value <= INT_MAX
    ensures length == |PrintInt(value)|
  {
    length := 0;
    var v := value;
    if v == 0 {
      return 1;
    }
    if v < 0 {
      length := 1;
      v := -v;
    }
    ghost var sign := length;
    ghost var all := v;
    while v > 0
      invariant v >= 0 && length >= sign
      invariant length - sign + (if v > 0 then |PrintNat(v)| else 0) == |PrintNat(all)|
    {
      length, v := length + 1, v / 10;
    }
  }

  // The sum that challenge_to_json_impl allocates for, final NUL included.
  method JsonSize(c: Challenge, includeFlag: bool) returns (size: nat)
    requires -INT_MAX <= c.id <= INT_MAX
    ensures size == |ChallengeText(c, includeFlag)| + Slack(c, includeFlag) + 1
  {
    var id := IntStringLength(c.id);
    size := 1
    + 5 + id + 1
    + 13 + |c.creatorId| + 3
    + 7 + |c.name| + 3
    + 14 + |c.description| + 3
    + (if includeFlag then 7 + |c.flag| + 3 else 0)
    + 8 + |GenreBytes(c.genre)| + 4;
    ChallengeLength(c, includeFlag);
  }

  lemma GenreNulFree(g: Genre)
    ensures UpToNul(GenreBytes(g)) == GenreBytes(g)
  {
    assert 0 !in GenreBytes(g);
  }

  // snprintf into `buffer[offset..]`, which the caller has sized so that nothing is cut off.
  method Snprintf(buffer: array<byte>, offset: nat, text: seq<byte>) returns (written: nat)
    requires offset + |text| < buffer.Length
    modifies buffer
    ensures written == |text|
    ensures buffer[..offset + |text|] == old(buffer[..offset]) + text
    ensures buffer[offset + |text|] == 0
  {
    written := 0;
    while written < |text|
      invariant 0 <= written <= |text|
      invariant buffer[..offset + written] == old(buffer[..offset]) + text[..written]
    {
      buffer[offset + written] := text[written];
      written := written + 1;
    }
    buffer[offset + written] := 0;
  }

  /** challenge_to_json_impl: the length that will be needed, or a buffer of that length with the
      text and a final NUL; `memory` says whether the allocation succeeds. */
  method ChallengeToJson(c: Challenge, onlySize: bool, includeFlag: bool, memory: bool)
    returns (buffer: array?<byte>, len: nat)
    requires -INT_MAX <= c.id <= INT_MAX
    ensures buffer == null <==> onlySize || !memory
    ensures !onlySize && !memory ==> len == 0
    ensures onlySize || memory ==> len == |ChallengeText(c, includeFlag)| + Slack(c, includeFlag)
    ensures buffer != null ==>
      && fresh(buffer) && buffer.Length == len + 1
      && buffer[..|ChallengeText(c, includeFlag)|] == ChallengeText(c, includeFlag)
      && buffer[|ChallengeText(c, includeFlag)|] == 0
  {
    var size := JsonSize(c, includeFlag);
    buffer, len := null, size - 1;
    if onlySize {
      return;
    }
    if !memory {
      len := 0;
      return;
    }
    buffer := PrintInto(size, ChallengeText(c, includeFlag));
  }

  // A fresh buffer of `size` bytes that starts with `text` and a NUL.
  method PrintInto(size: nat, text: seq<byte>) returns (buffer: array<byte>)
    requires |text| < size
    ensures fresh(buffer) && buffer.Length == size
    ensures buffer[..|text|] == text && buffer[|text|] == 0
  {
    buffer := new byte[size];
    var written := Snprintf(buffer, 0, text);
    assert buffer[..0 + |text|] == [] + text;
  }

  // The printed elements of a list and what printing each of them loses.
  function Texts(cs: seq<Challenge>, includeFlag: bool): (texts: seq<seq<byte>>)
    ensures |texts| == |cs|
  {
    if cs == [] then [] else Texts(cs[..|cs| - 1], includeFlag) + [ChallengeText(cs[|cs| - 1], includeFlag)]
  }

  function Slacks(cs: seq<Challenge>, includeFlag: bool): (slacks: seq<nat>)
    ensures |slacks| == |cs|
  {
    if cs == [] then [] else Slacks(cs[..|cs| - 1], includeFlag) + [Slack(cs[|cs| - 1], includeFlag)]
  }

  lemma {:induction false} ElementAt(cs: seq<Challenge>, includeFlag: bool, i: nat)
    requires i < |cs|
    ensures Texts(cs, includeFlag)[i] == ChallengeText(cs[i], includeFlag)
    ensures Slacks(cs, includeFlag)[i] == Slack(cs[i], includeFlag)
  {
    if i < |cs| - 1 {
      ElementAt(cs[..|cs| - 1], includeFlag, i);
    }
  }

  function Sum(ns: seq<nat>): nat {
    if ns == [] then 0 else Sum(ns[..|ns| - 1]) + ns[|ns| - 1]
  }

  // The elements of a list, each followed by a comma except the last, which the bracket follows.
  function Joined(texts: seq<seq<byte>>): seq<byte> {
    if texts == [] then [RBRACKET]
    else texts[0] + ((if |texts| > 1 then [COMMA] else []) + Joined(texts[1..]))
  }

  function ListText(cs: seq<Challenge>, includeFlag: bool): seq<byte> {
    [LBRACKET] + Joined(Texts(cs, includeFlag))
  }

  predicate IdsFit(cs: seq<Challenge>) {
    forall i :: 0 <= i < |cs| ==> -INT_MAX <= cs[i].id <= INT_MAX
  }

  lemma JoinedStep(texts: seq<seq<byte>>, i: nat, done: seq<byte>)
    requires i < |texts|
    ensures |Joined(texts[i..])| == |texts[i]| + (if i + 1 < |texts| then 1 else 0) + |Joined(texts[i + 1..])|
    ensures done + Joined(texts[i..])
         == done + texts[i] + (if i + 1 < |texts| then [COMMA] else []) + Joined(texts[i + 1..])
  {
    assert texts[i..][1..] == texts[i + 1..];
  }

  // The bytes of the first `n` elements, each with the separator behind it.
  function LengthOfFirst(texts: seq<seq<byte>>, n: nat): nat
    requires n <= |texts|
  {
    if n == 0 then 0 else LengthOfFirst(texts, n - 1) + |texts[n - 1]| + 1
  }

  lemma JoinedNothing(texts: seq<seq<byte>>)
    ensures |Joined(texts[|texts|..])| == 1
  {
  }

  lemma {:induction false} JoinedLength(texts: seq<seq<byte>>, n: nat)
    requires n <= |texts| && texts != []
    ensures |Joined(texts)| == LengthOfFirst(texts, n) + (if n == |texts| then 0 else |Joined(texts[n..])|)
  {
    JoinedNothing(texts);
    hide Joined;
    if n > 0 {
      JoinedLength(texts, n - 1);
      JoinedStep(texts, n - 1, []);
    } else {
      assert texts[0..] == texts;
    }
  }

  // challenge_to_json_impl asked for the size of element `i` only.
  method ElementSize(cs: seq<Challenge>, includeFlag: bool, i: nat) returns (len: nat)
    requires i < |cs| && IdsFit(cs)
    ensures len == |Texts(cs, includeFlag)[i]| + Slacks(cs, includeFlag)[i]
  {
    ElementAt(cs, includeFlag, i);
    var buffer;
    buffer, len := ChallengeToJson(cs[i], true, includeFlag, false);
  }

  method ListSize(cs: seq<Challenge>, includeFlag: bool) returns (total: nat)
    requires cs != [] && IdsFit(cs)
    ensures total == |Joined(Texts(cs, includeFlag))| + Sum(Slacks(cs, includeFlag)) + 2
  {
    ghost var texts, slacks := Texts(cs, includeFlag), Slacks(cs, includeFlag);
    total := ElementSizes(cs, includeFlag, texts, slacks);
    JoinedLength(texts, |cs|);
    total := total + 1;
  }

  // The first loop of challenges_to_json_impl.
  method ElementSizes(cs: seq<Challenge>, includeFlag: bool, ghost texts: seq<seq<byte>>, ghost slacks: seq<nat>)
    returns (total: nat)
    requires IdsFit(cs) && texts == Texts(cs, includeFlag) && slacks == Slacks(cs, includeFlag)
    ensures total == 1 + LengthOfFirst(texts, |cs|) + Sum(slacks)
  {
    hide Texts, Slacks;
    total := 1;
    var i := 0;
    while i < |cs|
      invariant 0 <= i <= |cs|
      invariant total == 1 + LengthOfFirst(texts, i) + Sum(slacks[..i])
    {
      assert slacks[..i + 1][..i] == slacks[..i];
      var len := ElementSize(cs, includeFlag, i);
      total := total + len + 1;
      i := i + 1;
    }
    assert slacks[..i] == slacks;
  }

  /** challenges_to_json_impl for at least one challenge; `failing` is the allocation that fails:
      that of an element, that of the list when it is |cs|, none when it is more. */
  method ChallengesToJson(cs: seq<Challenge>, includeFlag: bool, failing: nat)
    returns (buffer: array?<byte>, len: nat)
    requires cs != [] && IdsFit(cs)
    ensures buffer == null <==> failing <= |cs|
    ensures buffer == null ==> len == 0
    ensures buffer != null ==>
      && fresh(buffer) && buffer.Length == len + 1
      && len == |ListText(cs, includeFlag)| + Sum(Slacks(cs, includeFlag))
      && buffer[..|ListText(cs, includeFlag)|] == ListText(cs, includeFlag)
      && buffer[|ListText(cs, includeFlag)|] == 0
  {
    hide Texts, Joined, ListText, Slacks, Sum;
    ListParts(cs, includeFlag);
    var total := ListSize(cs, includeFlag);
    buffer, len := null, 0;
    if failing == |cs| {
      return;
    }
    ghost var texts := Texts(cs, includeFlag);
    var out, ok := PrintList(cs, includeFlag, failing, total, texts);
    if ok {
      buffer, len := out, total - 1;
    }
  }

  lemma ListParts(cs: seq<Challenge>, includeFlag: bool)
    requires cs != []
    ensures var texts := Texts(cs, includeFlag);
      texts != [] && ListText(cs, includeFlag) == [LBRACKET] + Joined(texts)
      && |ListText(cs, includeFlag)| == |Joined(texts)| + 1
  {
  }

  method PrintList(cs: seq<Challenge>, includeFlag: bool, failing: nat, total: nat, ghost texts: seq<seq<byte>>)
    returns (out: array<byte>, ok: bool)
    requires IdsFit(cs) && texts == Texts(cs, includeFlag) != [] && total >= |Joined(texts)| + 2
    ensures fresh(out) && out.Length == total && (ok <==> failing >= |cs|)
    ensures ok ==> out[..|Joined(texts)| + 1] == [LBRACKET] + Joined(texts) && out[|Joined(texts)| + 1] == 0
  {
    out := new byte[total];
    var offset;
    ok, offset := PrintElements(out, cs, includeFlag, failing, texts);
    if ok {
      out[offset] := RBRACKET;
      out[offset + 1] := 0;
    }
  }

  // The opening bracket and the second loop of challenges_to_json_impl.
  method PrintElements(out: array<byte>, cs: seq<Challenge>, includeFlag: bool, failing: nat,
                       ghost texts: seq<seq<byte>>)
    returns (ok: bool, offset: nat)
    requires IdsFit(cs) && texts == Texts(cs, includeFlag) != []
    requires out.Length >= |Joined(texts)| + 2
    modifies out
    ensures ok <==> failing >= |cs|
    ensures ok ==> offset == |Joined(texts)| && out[..offset] + [RBRACKET] == [LBRACKET] + Joined(texts)
  {
    offset := Snprintf(out, 0, [LBRACKET]);
    assert out[..offset] == [] + [LBRACKET];
    hide Texts, Joined, ChallengeText, Printed;
    var i := 0;
    while i < |cs|
      invariant 0 <= i <= |cs| && offset < out.Length && i <= failing
      invariant out[..offset] == Printed(texts, i)
    {
      ok, offset := PrintElement(out, offset, cs, includeFlag, i, i != failing, texts);
      if !ok {
        return;
      }
      i := i + 1;
    }
    PrintedFits(texts, |cs|);
    ok := true;
  }

  // One turn of that loop; `memory` says whether the element's own buffer can be allocated.
  method PrintElement(out: array<byte>, start: nat, cs: seq<Challenge>, includeFlag: bool, i: nat, memory: bool,
                      ghost texts: seq<seq<byte>>) returns (ok: bool, offset: nat)
    requires IdsFit(cs) && texts == Texts(cs, includeFlag) && i < |cs|
    requires out.Length >= |Joined(texts)| + 2 && start < out.Length && out[..start] == Printed(texts, i)
    modifies out
    ensures ok <==> memory
    ensures ok ==> offset < out.Length && out[..offset] == Printed(texts, i + 1)
  {
    PrintedFits(texts, i);
    PrintedFits(texts, i + 1);
    ElementAt(cs, includeFlag, i);
    hide Texts, Joined, ChallengeText;
    ok, offset := AppendElement(out, start, cs[i], includeFlag, memory, i < |cs| - 1, texts[i]);
  }

  // The list up to and including element `n - 1` and the comma behind it.
  ghost function Printed(texts: seq<seq<byte>>, n: nat): (s: seq<byte>)
    requires n <= |texts|
    ensures n > 0 ==> |s| == |Printed(texts, n - 1)| + |texts[n - 1]| + (if n < |texts| then 1 else 0)
  {
    if n == 0 then [LBRACKET]
    else Printed(texts, n - 1) + texts[n - 1] + (if n < |texts| then [COMMA] else [])
  }

  lemma {:induction false} PrintedFits(texts: seq<seq<byte>>, n: nat)
    requires n <= |texts|
    ensures Printed(texts, n) + Joined(texts[n..]) == [LBRACKET] + Joined(texts)
    ensures |Printed(texts, n)| + 1 <= |[LBRACKET] + Joined(texts)|
    ensures n == |texts| ==> Joined(texts[n..]) == [RBRACKET]
  {
    if n == 0 {
      assert texts[0..] == texts;
    } else {
      PrintedFits(texts, n - 1);
      JoinedStep(texts, n - 1, Printed(texts, n - 1));
    }
    JoinedNotEmpty(texts[n..]);
  }

  // What %s prints of a buffer: the bytes before the first NUL.
  function CString(s: seq<byte>): seq<byte> {
    UpToNul(s)
  }

  lemma {:induction false} CStringOf(s: seq<byte>, n: nat)
    requires n < |s| && s[n] == 0 && 0 !in s[..n]
    ensures CString(s) == s[..n]
  {
    if n > 0 {
      assert s[0] in s[..n] && s[1..][..n - 1] == s[..n][1..];
      CStringOf(s[1..], n - 1);
    }
  }

  lemma {:induction false} FieldsHaveNoNul(fields: seq<StringField>)
    requires forall i :: 0 <= i < |fields| ==> 0 !in fields[i].key
    ensures 0 !in FieldsText(fields)
  {
    if fields != [] {
      FieldsHaveNoNul(fields[1..]);
      var c := [QUOTE] + FieldsText(fields[1..]);
      var b := [QUOTE, COLON, QUOTE] + (UpToNul(fields[0].slice) + c);
      assert 0 !in c;
      assert 0 !in b;
      assert 0 !in fields[0].key + b;
    }
  }

  lemma TextHasNoNul(c: Challenge, includeFlag: bool)
    ensures 0 !in ChallengeText(c, includeFlag)
  {
    var fields := StringFields(c, includeFlag);
    assert 0 !in KEY_CREATOR_ID && 0 !in KEY_NAME && 0 !in KEY_DESCRIPTION;
    assert 0 !in KEY_FLAG && 0 !in KEY_GENRE && 0 !in KEY_ID;
    FieldsHaveNoNul(fields);
  }

  // One round of the second loop: prints an element, copies it and, unless it is the last, appends a comma.
  method AppendElement(out: array<byte>, offset: nat, c: Challenge, includeFlag: bool, memory: bool, more: bool,
                       ghost text: seq<byte>)
    returns (ok: bool, next: nat)
    requires -INT_MAX <= c.id <= INT_MAX && text == ChallengeText(c, includeFlag)
    requires offset + |text| + 1 < out.Length
    modifies out
    ensures ok <==> memory
    ensures ok ==> next == offset + |text| + (if more then 1 else 0)
    ensures ok ==> out[..next] == old(out[..offset]) + text + (if more then [COMMA] else [])
  {
    var one, oneLen := ChallengeToJson(c, false, includeFlag, memory);
    ok, next := one != null, offset;
    if !ok {
      return;
    }
    TextHasNoNul(c, includeFlag);
    CStringOf(one[..], |text|);
    var written := Snprintf(out, offset, CString(one[..]));
    next := offset + written;
    if more {
      out[next] := COMMA;
      next := next + 1;
    }
  }

  lemma JoinedNotEmpty(texts: seq<seq<byte>>)
    ensures |Joined(texts)| >= 1
  {
  }
}
