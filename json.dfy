/**
  The part of serde's data model and of serde_json's compact writer that the trace output uses
  (RFC 8259 text: objects, arrays, strings, non-negative integers, booleans and null), and a
  reader for that text. The reader is the writer's inverse: `ReadWrite` proves that reading
  back written text yields the value that was written.
*/
module Json {
  import opened Numeric
  import opened Wrappers

  datatype Json =
    | JNull
    | JBool(b: bool)
    | JNumber(n: nat)
    | JString(s: string)
    | JArray(elements: seq<Json>)
    | JObject(members: seq<Member>)

  datatype Member = Member(key: string, value: Json)

  // ---------------------------------------------------------------- strings

  /**
    serde_json's escaping of one character inside a string: the quote, the backslash and the
    control characters below U+0020 are escaped (short forms where RFC 8259 has them, otherwise
    `\u00xx` with lower-case digits); everything else is written as it is.
  */
  function EscapeChar(c: char): (r: string)
    ensures |r| > 0
  {
    if c == '"' then ['\\', '"']
    else if c == '\\' then ['\\', '\\']
    else if c == 8 as char then ['\\', 'b']
    else if c == 12 as char then ['\\', 'f']
    else if c == '\n' then ['\\', 'n']
    else if c == '\r' then ['\\', 'r']
    else if c == '\t' then ['\\', 't']
    else if (c as int) < 0x20 then ['\\', 'u'] + HexPadded(c as int, 4)
    else [c]
  }

  function Escape(s: string): string
  {
    if s == [] then [] else EscapeChar(s[0]) + Escape(s[1..])
  }

  function Quote(s: string): string
  {
    "\"" + Escape(s) + "\""
  }

  /** RFC 8259 short escapes: the character that `\x` stands for. */
  function ShortEscape(x: char): Option<char>
  {
    match x
    case '"' => Some('"')
    case '\\' => Some('\\')
    case '/' => Some('/')
    case 'b' => Some(8 as char)
    case 'f' => Some(12 as char)
    case 'n' => Some('\n')
    case 'r' => Some('\r')
    case 't' => Some('\t')
    case _ => None
  }

  predicate IsScalarValue(v: nat)
  {
    v < 0xD800 || (0xE000 <= v < 0x11_0000)
  }

  /**
    Reads the body of a string whose opening quote has been consumed; yields the decoded
    characters and the text after the closing quote. Raw control characters are refused, as
    RFC 8259 requires; a `\u` escape naming a surrogate is refused (pairs are not decoded).
  */
  function ReadStringBody(s: string): (r: Option<(string, string)>)
    ensures r.Some? ==> |r.value.1| < |s|
  {
    if s == [] then None
    else if s[0] == '"' then Some(([], s[1..]))
    else if s[0] == '\\' then
      if |s| < 2 then None
      else if s[1] == 'u' then
        if |s| < 6 || !AllHex(s[2..6]) || !IsScalarValue(HexValue(s[2..6])) then None
        else match ReadStringBody(s[6..])
          case None => None
          case Some((t, rest)) => Some(([HexValue(s[2..6]) as char] + t, rest))
      else match ShortEscape(s[1])
        case None => None
        case Some(c) =>
          match ReadStringBody(s[2..])
          case None => None
          case Some((t, rest)) => Some(([c] + t, rest))
    else if (s[0] as int) < 0x20 then None
    else match ReadStringBody(s[1..])
      case None => None
      case Some((t, rest)) => Some(([s[0]] + t, rest))
  }

  /** The characters serde_json writes as a backslash and one letter. */
  predicate HasShortEscape(c: char)
  {
    c == '"' || c == '\\' || c == 8 as char || c == 12 as char || c == '\n' || c == '\r' || c == '\t'
  }

  lemma ShortEscapeInverse(c: char)
    requires HasShortEscape(c)
    ensures |EscapeChar(c)| == 2 && EscapeChar(c)[0] == '\\' && EscapeChar(c)[1] != 'u'
    ensures ShortEscape(EscapeChar(c)[1]) == Some(c)
  {
  }

  lemma {:induction false} ReadEscaped(s: string, rest: string)
    ensures ReadStringBody(Escape(s) + "\"" + rest) == Some((s, rest))
  {
    if s == [] {
      assert Escape(s) + "\"" + rest == ['"'] + rest;
    } else {
      var c := s[0];
      var tail := Escape(s[1..]) + "\"" + rest;
      assert Escape(s) + "\"" + rest == EscapeChar(c) + tail;
      ReadEscaped(s[1..], rest);
      var e := EscapeChar(c) + tail;
      assert [c] + s[1..] == s;
      if HasShortEscape(c) {
        ShortEscapeInverse(c);
        assert e[0] == '\\' && e[1] == EscapeChar(c)[1];
        assert e[2..] == tail;
      } else if (c as int) < 0x20 {
        var h := HexPadded(c as int, 4);
        assert e[2..6] == h;
        assert e[6..] == tail;
        HexPaddedRoundTrip(c as int, 4);
        assert HexValue(h) as char == c;
      } else {
        assert e[1..] == tail;
      }
    }
  }

  // ---------------------------------------------------------------- writer

  /** serde_json's compact writer (`to_string`): no whitespace, members in the given order. */
  function Write(j: Json): string
    decreases j
  {
    match j
    case JNull => "null"
    case JBool(b) => if b then "true" else "false"
    case JNumber(n) => Decimal(n)
    case JString(s) => Quote(s)
    case JArray(vs) => if vs == [] then "[]" else "[" + Write(vs[0]) + WriteMoreElements(vs[1..]) + "]"
    case JObject(ms) => if ms == [] then "{}" else "{" + WriteMember(ms[0]) + WriteMoreMembers(ms[1..]) + "}"
  }

  /** The elements after the first, each preceded by a comma. */
  function WriteMoreElements(vs: seq<Json>): string
    decreases vs
  {
    if vs == [] then "" else "," + Write(vs[0]) + WriteMoreElements(vs[1..])
  }

  function WriteMember(m: Member): string
    decreases m
  {
    Quote(m.key) + ":" + Write(m.value)
  }

  function WriteMoreMembers(ms: seq<Member>): string
    decreases ms
  {
    if ms == [] then "" else "," + WriteMember(ms[0]) + WriteMoreMembers(ms[1..])
  }

  // ---------------------------------------------------------------- reader

  function DigitSpan(s: string): (n: nat)
    ensures n <= |s| && AllDec(s[..n])
    ensures n < |s| ==> !IsDecDigit(s[n])
  {
    if s == [] || !IsDecDigit(s[0]) then 0
    else
      var n := 1 + DigitSpan(s[1..]);
      assert s[..n] == [s[0]] + s[1..][..n - 1];
      n
  }

  function ReadLiteral(s: string, lit: string, v: Json): (r: Option<(Json, string)>)
    ensures r.Some? ==> |r.value.1| < |s|
  {
    if |lit| > 0 && |lit| <= |s| && s[..|lit|] == lit then Some((v, s[|lit|..])) else None
  }

  /** Reads one value and yields it with the text after it. */
  function ReadValue(s: string): (r: Option<(Json, string)>)
    ensures r.Some? ==> |r.value.1| < |s|
    decreases |s|, 2
  {
    if s == [] then None
    else if s[0] == 'n' then ReadLiteral(s, "null", JNull)
    else if s[0] == 't' then ReadLiteral(s, "true", JBool(true))
    else if s[0] == 'f' then ReadLiteral(s, "false", JBool(false))
    else if IsDecDigit(s[0]) then
      var n := DigitSpan(s);
      // RFC 8259 allows no leading zero
      if n > 1 && s[0] == '0' then None else Some((JNumber(DecValue(s[..n])), s[n..]))
    else if s[0] == '"' then
      match ReadStringBody(s[1..])
      case None => None
      case Some((t, rest)) => Some((JString(t), rest))
    else if s[0] == '[' then ReadElements(s[1..])
    else if s[0] == '{' then ReadMembers(s[1..])
    else None
  }

  /** After `[`: the elements and the closing bracket. */
  function ReadElements(s: string): (r: Option<(Json, string)>)
    ensures r.Some? ==> |r.value.1| < |s|
    decreases |s|, 3
  {
    if |s| > 0 && s[0] == ']' then Some((JArray([]), s[1..]))
    else match ReadValue(s)
      case None => None
      case Some((v, rest)) => ReadMoreElements(rest, [v])
  }

  /** After an element: either `,` and a further element, or the closing bracket. */
  function ReadMoreElements(s: string, acc: seq<Json>): (r: Option<(Json, string)>)
    ensures r.Some? ==> |r.value.1| < |s|
    decreases |s|, 1
  {
    if s == [] then None
    else if s[0] == ']' then Some((JArray(acc), s[1..]))
    else if s[0] == ',' then
      match ReadValue(s[1..])
      case None => None
      case Some((v, rest)) => ReadMoreElements(rest, acc + [v])
    else None
  }

  /** One `"key":value` member. */
  function ReadMember(s: string): (r: Option<(Member, string)>)
    ensures r.Some? ==> |r.value.1| < |s|
    decreases |s|, 0
  {
    if s == [] || s[0] != '"' then None
    else match ReadStringBody(s[1..])
      case None => None
      case Some((k, rest)) =>
        if rest == [] || rest[0] != ':' then None
        else match ReadValue(rest[1..])
          case None => None
          case Some((v, rest')) => Some((Member(k, v), rest'))
  }

  /** After `{`: the members and the closing brace. */
  function ReadMembers(s: string): (r: Option<(Json, string)>)
    ensures r.Some? ==> |r.value.1| < |s|
    decreases |s|, 3
  {
    if |s| > 0 && s[0] == '}' then Some((JObject([]), s[1..]))
    else match ReadMember(s)
      case None => None
      case Some((m, rest)) => ReadMoreMembers(rest, [m])
  }

  function ReadMoreMembers(s: string, acc: seq<Member>): (r: Option<(Json, string)>)
    ensures r.Some? ==> |r.value.1| < |s|
    decreases |s|, 1
  {
    if s == [] then None
    else if s[0] == '}' then Some((JObject(acc), s[1..]))
    else if s[0] == ',' then
      match ReadMember(s[1..])
      case None => None
      case Some((m, rest)) => ReadMoreMembers(rest, acc + [m])
    else None
  }

  /** A whole document: one value and nothing after it. */
  function Read(s: string): Option<Json>
  {
    match ReadValue(s)
    case Some((v, rest)) => if rest == [] then Some(v) else None
    case None => None
  }

  // ---------------------------------------------------------------- round trip

  /** What may follow a written value without being read as part of it. */
  predicate Delimited(rest: string)
  {
    rest == [] || !IsDecDigit(rest[0])
  }

  lemma DecimalSpan(n: nat, rest: string)
    requires Delimited(rest)
    ensures DigitSpan(Decimal(n) + rest) == |Decimal(n)|
  {
    var d := Decimal(n);
    var s := d + rest;
    assert s[..|d|] == d;
    assert |s| > |d| ==> s[|d|] == rest[0];
  }

  lemma ReadWriteNumber(n: nat, rest: string)
    requires Delimited(rest)
    ensures ReadValue(Write(JNumber(n)) + rest) == Some((JNumber(n), rest))
  {
    var d := Decimal(n);
    var s := d + rest;
    DecimalSpan(n, rest);
    assert s[..|d|] == d && s[|d|..] == rest;
    DecimalRoundTrip(n);
  }

  lemma ReadWriteString(t: string, rest: string)
    ensures ReadValue(Write(JString(t)) + rest) == Some((JString(t), rest))
  {
    var s := Write(JString(t)) + rest;
    assert s == "\"" + (Escape(t) + "\"" + rest);
    assert s[0] == '"' && s[1..] == Escape(t) + "\"" + rest;
    ReadEscaped(t, rest);
  }

  // Single unfoldings of the reader, kept apart so that each proof below sees only the step it uses.

  lemma ReadValueArray(s: string)
    requires |s| > 0 && s[0] == '['
    ensures ReadValue(s) == ReadElements(s[1..])
  {
  }

  lemma ReadValueObject(s: string)
    requires |s| > 0 && s[0] == '{'
    ensures ReadValue(s) == ReadMembers(s[1..])
  {
  }

  lemma ReadElementsFirst(t: string, v: Json, after: string)
    requires |t| > 0 && t[0] != ']' && ReadValue(t) == Some((v, after))
    ensures ReadElements(t) == ReadMoreElements(after, [v])
  {
  }

  lemma ReadMoreElementsNext(t: string, acc: seq<Json>, v: Json, after: string)
    requires ReadValue(t) == Some((v, after))
    ensures ReadMoreElements("," + t, acc) == ReadMoreElements(after, acc + [v])
  {
    assert ("," + t)[1..] == t;
  }

  lemma ReadMembersFirst(t: string, m: Member, after: string)
    requires |t| > 0 && t[0] != '}' && ReadMember(t) == Some((m, after))
    ensures ReadMembers(t) == ReadMoreMembers(after, [m])
  {
  }

  lemma ReadMoreMembersNext(t: string, acc: seq<Member>, m: Member, after: string)
    requires ReadMember(t) == Some((m, after))
    ensures ReadMoreMembers("," + t, acc) == ReadMoreMembers(after, acc + [m])
  {
    assert ("," + t)[1..] == t;
  }

  lemma ReadMemberSteps(t: string, k: string, tail: string, v: Json, after: string)
    requires |t| > 0 && t[0] == '"' && ReadStringBody(t[1..]) == Some((k, tail))
    requires |tail| > 0 && tail[0] == ':' && ReadValue(tail[1..]) == Some((v, after))
    ensures ReadMember(t) == Some((Member(k, v), after))
  {
  }

  /** Regrouping a written composite: its opening character, then everything after it. */
  lemma Regroup(open: string, first: string, more: string, close: string, rest: string)
    requires |open| == 1
    ensures open + first + more + close + rest == open + (first + (more + close + rest))
    ensures (open + first + more + close + rest)[1..] == first + (more + close + rest)
  {
    assert (open + (first + (more + close + rest)))[1..] == first + (more + close + rest);
  }

  /** Regrouping four pieces; with a one-character first piece, what follows it. */
  lemma Split4(a: string, b: string, c: string, d: string)
    ensures a + b + c + d == a + (b + c + d)
    ensures |a| == 1 ==> (a + b + c + d)[0] == a[0] && (a + b + c + d)[1..] == b + c + d
  {
    assert (a + (b + c + d))[|a|..] == b + c + d;
  }

  /** Moving the head of `xs` onto the end of `acc` leaves the concatenation as it was. */
  lemma ShiftHead<T>(acc: seq<T>, xs: seq<T>)
    requires xs != []
    ensures acc + [xs[0]] + xs[1..] == acc + xs
    ensures [xs[0]] + xs[1..] == xs
  {
    assert [xs[0]] + xs[1..] == xs;
  }

  lemma {:induction false} ReadWrite(j: Json, rest: string)
    requires Delimited(rest)
    ensures ReadValue(Write(j) + rest) == Some((j, rest))
    decreases j, 1
  {
    match j
    case JNull =>
      assert (Write(j) + rest)[..4] == "null";
    case JBool(b) =>
      if b { assert (Write(j) + rest)[..4] == "true"; } else { assert (Write(j) + rest)[..5] == "false"; }
    case JNumber(n) =>
      ReadWriteNumber(n, rest);
    case JString(t) =>
      ReadWriteString(t, rest);
    case JArray(vs) =>
      ReadWriteArray(vs, rest);
    case JObject(ms) =>
      ReadWriteObject(ms, rest);
  }

  lemma {:induction false} ReadWriteArray(vs: seq<Json>, rest: string)
    ensures ReadValue(Write(JArray(vs)) + rest) == Some((JArray(vs), rest))
    decreases JArray(vs), 0
  {
    var s := Write(JArray(vs)) + rest;
    ReadValueArray(s);
    if vs == [] {
      assert s[1..] == "]" + rest;
    } else {
      var after := WriteMoreElements(vs[1..]) + "]" + rest;
      Regroup("[", Write(vs[0]), WriteMoreElements(vs[1..]), "]", rest);
      WriteMoreElementsFirstChar(vs[1..]);
      ReadWrite(vs[0], after);
      WriteFirstChar(vs[0]);
      ReadElementsFirst(s[1..], vs[0], after);
      ReadWriteMoreElements(vs[1..], [vs[0]], rest);
      ShiftHead([], vs);
    }
  }

  lemma {:induction false} ReadWriteObject(ms: seq<Member>, rest: string)
    ensures ReadValue(Write(JObject(ms)) + rest) == Some((JObject(ms), rest))
    decreases JObject(ms), 0
  {
    var s := Write(JObject(ms)) + rest;
    ReadValueObject(s);
    if ms == [] {
      assert s[1..] == "}" + rest;
    } else {
      var after := WriteMoreMembers(ms[1..]) + "}" + rest;
      Regroup("{", WriteMember(ms[0]), WriteMoreMembers(ms[1..]), "}", rest);
      WriteMoreMembersFirstChar(ms[1..]);
      ReadWriteMember(ms[0], after);
      ReadMembersFirst(s[1..], ms[0], after);
      ReadWriteMoreMembers(ms[1..], [ms[0]], rest);
      ShiftHead([], ms);
    }
  }

  /** A written value never starts with a closing bracket or brace. */
  lemma WriteFirstChar(j: Json)
    ensures |Write(j)| > 0 && Write(j)[0] != ']' && Write(j)[0] != '}'
  {
    match j
    case JNumber(n) =>
      assert IsDecDigit(Decimal(n)[0]);
    case _ =>
  }

  lemma WriteMoreElementsFirstChar(vs: seq<Json>)
    ensures Delimited(WriteMoreElements(vs) + "]")
  {
  }

  lemma WriteMoreMembersFirstChar(ms: seq<Member>)
    ensures Delimited(WriteMoreMembers(ms) + "}")
  {
  }

  lemma {:induction false} ReadWriteMoreElements(vs: seq<Json>, acc: seq<Json>, rest: string)
    ensures ReadMoreElements(WriteMoreElements(vs) + "]" + rest, acc) == Some((JArray(acc + vs), rest))
    decreases vs
  {
    if vs == [] {
      assert WriteMoreElements(vs) + "]" + rest == "]" + rest;
      assert acc + vs == acc;
    } else {
      var after := WriteMoreElements(vs[1..]) + "]" + rest;
      var t := Write(vs[0]) + after;
      Regroup(",", Write(vs[0]), WriteMoreElements(vs[1..]), "]", rest);
      WriteMoreElementsFirstChar(vs[1..]);
      ReadWrite(vs[0], after);
      ReadMoreElementsNext(t, acc, vs[0], after);
      ReadWriteMoreElements(vs[1..], acc + [vs[0]], rest);
      ShiftHead(acc, vs);
    }
  }

  lemma ReadQuotedKey(k: string, tail: string)
    ensures (Quote(k) + tail)[0] == '"'
    ensures ReadStringBody((Quote(k) + tail)[1..]) == Some((k, tail))
  {
    Split4("\"", Escape(k), "\"", tail);
    ReadEscaped(k, tail);
  }

  lemma {:induction false} ReadWriteMember(m: Member, after: string)
    requires Delimited(after)
    ensures ReadMember(WriteMember(m) + after) == Some((m, after))
    ensures (WriteMember(m) + after)[0] == '"'
    decreases m
  {
    var tail := ":" + Write(m.value) + after;
    Split4(Quote(m.key), ":", Write(m.value), after);
    ReadQuotedKey(m.key, tail);
    assert tail[1..] == Write(m.value) + after;
    ReadWrite(m.value, after);
    ReadMemberSteps(Quote(m.key) + tail, m.key, tail, m.value, after);
  }

  lemma {:induction false} ReadWriteMoreMembers(ms: seq<Member>, acc: seq<Member>, rest: string)
    ensures ReadMoreMembers(WriteMoreMembers(ms) + "}" + rest, acc) == Some((JObject(acc + ms), rest))
    decreases ms
  {
    if ms == [] {
      assert WriteMoreMembers(ms) + "}" + rest == "}" + rest;
      assert acc + ms == acc;
    } else {
      var after := WriteMoreMembers(ms[1..]) + "}" + rest;
      var t := WriteMember(ms[0]) + after;
      Regroup(",", WriteMember(ms[0]), WriteMoreMembers(ms[1..]), "}", rest);
      WriteMoreMembersFirstChar(ms[1..]);
      ReadWriteMember(ms[0], after);
      ReadMoreMembersNext(t, acc, ms[0], after);
      ReadWriteMoreMembers(ms[1..], acc + [ms[0]], rest);
      ShiftHead(acc, ms);
    }
  }

  /** A written document reads back as the value that was written. */
  lemma ReadWriteDocument(j: Json)
    ensures Read(Write(j)) == Some(j)
  {
    ReadWrite(j, []);
    assert Write(j) + [] == Write(j);
  }
}
