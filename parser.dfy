/**
  The monitor-command grammar of panda-gdb (monitor_commands/parser.rs), a parsing-expression
  grammar: each rule reads a prefix of its input and hands the rest on; `/` tries the next
  alternative only when the previous one fails; repetitions are greedy; a `{? }` action that
  returns an error makes its alternative fail; the public rule must consume the whole command.

  Register names are checked by the target's register type, which is not part of this model: it
  is the parameter `parseReg`, its `FromStr` parse.
*/
module MonitorParser {
  import opened Numeric
  import opened Wrappers

  datatype TaintTarget<R> = Address(addr: u64) | Register(reg: R)

  datatype Command<R> =
    | Taint(target: TaintTarget<R>, taintLabel: u32)
    | CheckTaint(target: TaintTarget<R>)
    | GetTaint(target: TaintTarget<R>)
    | Help

  /** The failure of `Command::parse`; peg's position and expected-token set are not modelled. */
  datatype ParseError = ParseError

  /** A rule's value and the input it leaves unread. */
  datatype Parsed<T> = Parsed(value: T, rest: string)

  /** `rest` is what is left of `s` after reading at least one character. */
  predicate Consumes(s: string, rest: string)
  {
    |rest| < |s| && rest == s[|s| - |rest|..]
  }

  /** Reading is transitive: a rest of a suffix is a rest of the whole, after a longer read. */
  lemma ConsumesAfter(s: string, k: nat, mid: string, rest: string)
    requires k <= |s| && mid == s[k..] && Consumes(mid, rest)
    ensures Consumes(s, rest)
  {
    assert s[k..][|mid| - |rest|..] == s[|s| - |rest|..];
  }

  // ---------------------------------------------------------------- character classes

  /** `[' ' | '\n' | '\t']` */
  predicate IsWs(c: char) { c == ' ' || c == '\n' || c == '\t' }

  /** `['a'..='z' | 'A'..='Z']` */
  predicate IsAlpha(c: char) { 'a' <= c <= 'z' || 'A' <= c <= 'Z' }

  /** `['a'..='z' | 'A'..='Z' | '0'..='9']` */
  predicate IsAlnum(c: char) { IsAlpha(c) || IsDecDigit(c) }

  /** The greedy repetition `[class]*`: the length of the longest prefix of `s` in the class. */
  function Span(s: string, p: char -> bool): (n: nat)
    ensures n <= |s|
    ensures forall k :: 0 <= k < n ==> p(s[k])
    ensures n == |s| || !p(s[n])
  {
    if s != [] && p(s[0]) then 1 + Span(s[1..], p) else 0
  }

  /** The repetition stops exactly where the class does. */
  lemma {:induction false} SpanOf(t: string, rest: string, p: char -> bool)
    requires forall k :: 0 <= k < |t| ==> p(t[k])
    requires rest == [] || !p(rest[0])
    ensures Span(t + rest, p) == |t|
  {
    if t != [] {
      assert (t + rest)[1..] == t[1..] + rest;
      assert p(t[0]);
      SpanOf(t[1..], rest, p);
    } else {
      assert t + rest == rest;
    }
  }

  /** An identifier as `register` reads it: a letter, then letters and digits. */
  predicate IsIdentifier(s: string)
  {
    s != [] && IsAlpha(s[0]) && forall k :: 1 <= k < |s| ==> IsAlnum(s[k])
  }

  // ---------------------------------------------------------------- rules

  /** `s` begins with the characters of `kw`, compared one at a time. */
  predicate StartsWith(s: string, kw: string)
  {
    kw == [] || (s != [] && s[0] == kw[0] && StartsWith(s[1..], kw[1..]))
  }

  lemma {:induction false} StartsWithPrefix(s: string, kw: string)
    ensures StartsWith(s, kw) <==> |kw| <= |s| && s[..|kw|] == kw
  {
    if kw != [] && s != [] {
      StartsWithPrefix(s[1..], kw[1..]);
      if |kw| <= |s| && s[..|kw|] == kw {
        assert s[1..][..|kw| - 1] == kw[1..];
      }
      if StartsWith(s, kw) {
        assert s[..|kw|] == [s[0]] + s[1..][..|kw| - 1];
      }
    }
  }

  /** The command keywords. */
  const TAINT := "taint"
  const CHECK_TAINT := "check_taint"
  const GET_TAINT := "get_taint"
  const HELP := "help"

  /** A literal such as a keyword. */
  function Keyword(s: string, kw: string): (r: Option<string>)
    ensures r.Some? ==> |kw| <= |s| && r.value == s[|kw|..]
    ensures r.Some? ==> s[..|kw|] == kw
  {
    StartsWithPrefix(s, kw);
    if StartsWith(s, kw) then Some(s[|kw|..]) else None
  }

  /** `_`: one or more blanks, as many as there are. */
  function Ws(s: string): (r: Option<string>)
    ensures r.Some? ==> Consumes(s, r.value) && (r.value == [] || !IsWs(r.value[0]))
    ensures r.Some? ==> forall k :: 0 <= k < |s| - |r.value| ==> IsWs(s[k])
    ensures r.None? <==> s == [] || !IsWs(s[0])
  {
    var n := Span(s, IsWs);
    if n > 0 then Some(s[n..]) else None
  }

  /** The decimal alternative of `number`: digits, rejected when `parse::<u64>` overflows. */
  function Decimal64(s: string): (r: Option<Parsed<u64>>)
    ensures r.Some? ==> Consumes(s, r.value.rest)
  {
    var n := Span(s, IsDecDigit);
    var digits := s[..n];
    assert AllDec(digits);
    if n > 0 && DecValue(digits) < U64_LIMIT then
      var v: u64 := DecValue(digits);
      Some(Parsed(v, s[n..]))
    else None
  }

  /** The hexadecimal alternative of `number`: `0x` and digits, rejected when `from_str_radix` overflows. */
  function Hex64(s: string): (r: Option<Parsed<u64>>)
    ensures r.Some? ==> Consumes(s, r.value.rest)
  {
    if |s| >= 2 && s[..2] == "0x" then
      var t := s[2..];
      var n := Span(t, IsHexDigit);
      var digits := t[..n];
      assert AllHex(digits);
      if n > 0 && HexValue(digits) < U64_LIMIT then
        var v: u64 := HexValue(digits);
        Some(Parsed(v, t[n..]))
      else None
    else None
  }

  /** `number`: hexadecimal first, decimal when that alternative fails. */
  function Number(s: string): (r: Option<Parsed<u64>>)
    ensures r.Some? ==> Consumes(s, r.value.rest)
    ensures r.Some? <==> Hex64(s).Some? || Decimal64(s).Some?
  {
    match Hex64(s)
    case Some(p) => Some(p)
    case None => Decimal64(s)
  }

  /** `register`: an identifier the register type accepts. */
  function RegisterRule<R>(s: string, parseReg: string -> Option<R>): (r: Option<Parsed<R>>)
    ensures r.Some? ==> Consumes(s, r.value.rest)
    ensures r.Some? ==> IsIdentifier(s[..|s| - |r.value.rest|])
    ensures r.Some? ==> r.value.rest == [] || !IsAlnum(r.value.rest[0])
    ensures r.Some? ==> parseReg(s[..|s| - |r.value.rest|]) == Some(r.value.value)
  {
    if s != [] && IsAlpha(s[0]) then
      var n := 1 + Span(s[1..], IsAlnum);
      assert n < |s| ==> s[n] == s[1..][n - 1];
      match parseReg(s[..n])
      case Some(reg) => Some(Parsed(reg, s[n..]))
      case None => None
    else None
  }

  /** `taint_target`: `*` and an address, else a register. */
  function Target<R>(s: string, parseReg: string -> Option<R>): (r: Option<Parsed<TaintTarget<R>>>)
    ensures r.Some? ==> Consumes(s, r.value.rest)
  {
    var addr := if s != [] && s[0] == '*' then Number(s[1..]) else None;
    match addr
    case Some(p) => Some(Parsed(Address(p.value), p.rest))
    case None =>
      match RegisterRule(s, parseReg)
      case Some(p) => Some(Parsed(Register(p.value), p.rest))
      case None => None
  }

  /** `taint`: `taint _ target _ number`, the label cut to its low 32 bits by `as u32`. */
  function TaintRule<R>(s: string, parseReg: string -> Option<R>): (r: Option<Parsed<Command<R>>>)
    ensures r.Some? ==> Consumes(s, r.value.rest) && r.value.value.Taint?
  {
    match Keyword(s, TAINT)
    case None => None
    case Some(s1) =>
      match Ws(s1)
      case None => None
      case Some(s2) =>
        match TaintArgs(s2, parseReg)
        case None => None
        case Some(p) =>
          ConsumesAfter(s1, |s1| - |s2|, s2, p.rest);
          ConsumesAfter(s, |TAINT|, s1, p.rest);
          Some(p)
  }

  /** What follows `taint _`: the target, blanks and the label. */
  function TaintArgs<R>(s: string, parseReg: string -> Option<R>): (r: Option<Parsed<Command<R>>>)
    ensures r.Some? ==> Consumes(s, r.value.rest) && r.value.value.Taint?
  {
    match Target(s, parseReg)
    case None => None
    case Some(t) =>
      match Ws(t.rest)
      case None => None
      case Some(s1) =>
        match Number(s1)
        case None => None
        case Some(n) =>
          ConsumesAfter(t.rest, |t.rest| - |s1|, s1, n.rest);
          ConsumesAfter(s, |s| - |t.rest|, t.rest, n.rest);
          Some(Parsed(Taint(t.value, TruncateU32(n.value)), n.rest))
  }

  /** `check_taint` and `get_taint`: the keyword, blanks, a target. */
  function QueryRule<R>(s: string, kw: string, parseReg: string -> Option<R>): (r: Option<Parsed<TaintTarget<R>>>)
    ensures r.Some? ==> Consumes(s, r.value.rest)
  {
    match Keyword(s, kw)
    case None => None
    case Some(s1) =>
      match Ws(s1)
      case None => None
      case Some(s2) =>
        match Target(s2, parseReg)
        case None => None
        case Some(p) =>
          ConsumesAfter(s1, |s1| - |s2|, s2, p.rest);
          ConsumesAfter(s, |kw|, s1, p.rest);
          Some(p)
  }

  /** `help`: the keyword and at least one blank. */
  function HelpRule(s: string): (r: Option<string>)
    ensures r.Some? ==> Consumes(s, r.value)
  {
    match Keyword(s, HELP)
    case None => None
    case Some(s1) => Ws(s1)
  }

  /** `command`: the four alternatives in order; the first that succeeds is taken. */
  function CommandRule<R>(s: string, parseReg: string -> Option<R>): (r: Option<Parsed<Command<R>>>)
    ensures r.Some? ==> Consumes(s, r.value.rest)
  {
    match TaintRule(s, parseReg)
    case Some(p) => Some(p)
    case None =>
      match QueryRule(s, CHECK_TAINT, parseReg)
      case Some(p) => Some(Parsed(CheckTaint(p.value), p.rest))
      case None =>
        match QueryRule(s, GET_TAINT, parseReg)
        case Some(p) => Some(Parsed(GetTaint(p.value), p.rest))
        case None =>
          match HelpRule(s)
          case Some(rest) => Some(Parsed(Help, rest))
          case None => None
  }

  /** `Command::parse`: a command that reads the whole input. */
  function Parse<R>(cmd: string, parseReg: string -> Option<R>): Result<Command<R>, ParseError>
  {
    match CommandRule(cmd, parseReg)
    case Some(p) => if p.rest == [] then Ok(p.value) else Err(ParseError)
    case None => Err(ParseError)
  }

  // ---------------------------------------------------------------- numbers

  /** The hexadecimal alternative reads `0x`, then exactly the digits of `h`. */
  lemma HexDigitsOf(s: string, h: string, rest: string)
    requires |s| >= 2 && s[..2] == "0x" && s[2..] == h + rest
    requires h != [] && AllHex(h)
    requires rest == [] || !IsHexDigit(rest[0])
    ensures Span(s[2..], IsHexDigit) == |h|
    ensures s[2..][..|h|] == h && s[2..][|h|..] == rest
  {
    SpanOf(h, rest, IsHexDigit);
    assert (h + rest)[..|h|] == h && (h + rest)[|h|..] == rest;
  }

  /** The hexadecimal alternative on a literal that fits. */
  lemma Hex64Of(s: string, h: string, rest: string)
    requires |s| >= 2 && s[..2] == "0x" && s[2..] == h + rest
    requires h != [] && AllHex(h) && HexValue(h) < U64_LIMIT
    requires rest == [] || !IsHexDigit(rest[0])
    ensures Hex64(s) == Some(Parsed(HexValue(h) as u64, rest))
  {
    HexDigitsOf(s, h, rest);
  }

  /** A hexadecimal literal that fits reads as its value. */
  lemma HexNumber(s: string, h: string, rest: string)
    requires |s| >= 2 && s[..2] == "0x" && s[2..] == h + rest
    requires h != [] && AllHex(h) && HexValue(h) < U64_LIMIT
    requires rest == [] || !IsHexDigit(rest[0])
    ensures Number(s) == Some(Parsed(HexValue(h) as u64, rest))
  {
    Hex64Of(s, h, rest);
    HexFirst(s, HexValue(h) as u64, rest);
  }

  /** `number` takes the hexadecimal alternative whenever it succeeds. */
  lemma HexFirst(s: string, v: u64, rest: string)
    requires Hex64(s) == Some(Parsed(v, rest))
    ensures Number(s) == Some(Parsed(v, rest))
  {
  }

  /** A decimal literal that fits reads as its value. */
  lemma DecNumber(d: string, rest: string)
    requires d != [] && AllDec(d) && DecValue(d) < U64_LIMIT
    requires rest == [] || (!IsDecDigit(rest[0]) && rest[0] != 'x')
    ensures var r := Number(d + rest); r.Some? && r.value.value == DecValue(d) && r.value.rest == rest
  {
    var s := d + rest;
    assert |s| >= 2 ==> s[1] != 'x' by {
      if |s| >= 2 && |d| >= 2 {
        assert s[1] == d[1];
      } else if |s| >= 2 {
        assert s[1] == rest[0];
      }
    }
    assert Hex64(s).None? by {
      if |s| >= 2 {
        assert s[..2][1] == s[1];
      }
    }
    SpanOf(d, rest, IsDecDigit);
    assert s[..|d|] == d && s[|d|..] == rest;
  }

  /**
    A hexadecimal literal too large for a u64 does not fail `number`: the decimal alternative
    reads its leading `0` and leaves `x` and the digits unread.
  */
  lemma HexOverflowReadsZero(s: string, h: string, rest: string)
    requires |s| >= 2 && s[..2] == "0x" && s[2..] == h + rest
    requires h != [] && AllHex(h) && HexValue(h) >= U64_LIMIT
    requires rest == [] || !IsHexDigit(rest[0])
    ensures Number(s) == Some(Parsed(0, s[1..]))
  {
    HexDigitsOf(s, h, rest);
    assert Hex64(s).None?;
    ZeroReadsZero(s);
  }

  /** A `0` followed by a character that is not a digit reads as 0, leaving that character. */
  lemma ZeroReadsZero(s: string)
    requires |s| >= 2 && s[0] == '0' && !IsDecDigit(s[1])
    ensures Decimal64(s) == Some(Parsed(0, s[1..]))
  {
    assert s == "0" + s[1..];
    SpanOf("0", s[1..], IsDecDigit);
    assert s[..1] == "0";
    assert DecValue("0") == 0 by {
      assert "0"[..0] == [];
    }
  }

  lemma OneDigit(d: string)
    requires AllDec(d)
    ensures |d| == 1 ==> DecValue(d) < 10
  {
    if |d| == 1 {
      assert d[..0] == [];
    }
  }

  /** A decimal literal too large for a u64 fails `number` outright. */
  lemma DecOverflowFails(d: string, rest: string)
    requires d != [] && AllDec(d) && DecValue(d) >= U64_LIMIT
    requires rest == [] || (!IsDecDigit(rest[0]) && rest[0] != 'x')
    ensures Number(d + rest) == None
  {
    var s := d + rest;
    OneDigit(d);
    assert |d| >= 2;
    assert s[1] == d[1];
    assert Hex64(s).None? by {
      if |s| >= 2 {
        assert s[..2][1] == s[1];
      }
    }
    SpanOf(d, rest, IsDecDigit);
    assert s[..|d|] == d;
  }

  // ---------------------------------------------------------------- commands

  /** The canonical text of a target: an address as `*0x` and sixteen digits, a register by name. */
  function FormatTarget<R>(t: TaintTarget<R>, regName: R -> string): string
  {
    match t
    case Address(a) => "*0x" + Hex16(a)
    case Register(r) => regName(r)
  }

  /** The canonical text of a command: the keyword, then its arguments after single blanks. */
  function Format<R>(c: Command<R>, regName: R -> string): string
  {
    match c
    case Taint(t, taintLabel) => TAINT + (" " + (FormatTarget(t, regName) + (" " + Numeric.Decimal(taintLabel))))
    case CheckTaint(t) => CHECK_TAINT + (" " + FormatTarget(t, regName))
    case GetTaint(t) => GET_TAINT + (" " + FormatTarget(t, regName))
    case Help => HELP + " "
  }

  /** `regName` prints names that `register` reads back as the same register. */
  ghost predicate Names<R(!new)>(parseReg: string -> Option<R>, regName: R -> string)
  {
    forall r :: IsIdentifier(regName(r)) && parseReg(regName(r)) == Some(r)
  }

  lemma KeywordOf(kw: string, rest: string)
    ensures Keyword(kw + rest, kw) == Some(rest)
  {
    assert (kw + rest)[..|kw|] == kw && (kw + rest)[|kw|..] == rest;
    StartsWithPrefix(kw + rest, kw);
  }

  lemma WsOf(ws: string, rest: string)
    requires ws != [] && forall k :: 0 <= k < |ws| ==> IsWs(ws[k])
    requires rest == [] || !IsWs(rest[0])
    ensures Ws(ws + rest) == Some(rest)
  {
    SpanOf(ws, rest, IsWs);
    assert (ws + rest)[|ws|..] == rest;
  }

  /** The keywords begin with different letters: the first character picks the alternative. */
  lemma Dispatch<R>(s: string, parseReg: string -> Option<R>)
    ensures (s == [] || s[0] != 't') ==> TaintRule(s, parseReg).None?
    ensures (s == [] || s[0] != 'c') ==> QueryRule(s, CHECK_TAINT, parseReg).None?
    ensures (s == [] || s[0] != 'g') ==> QueryRule(s, GET_TAINT, parseReg).None?
    ensures (s == [] || s[0] != 'h') ==> HelpRule(s).None?
  {
    assert TAINT[0] == 't' && CHECK_TAINT[0] == 'c' && GET_TAINT[0] == 'g' && HELP[0] == 'h';
  }

  /** `command` returns what the alternative that reads `s` returns; `parse` wants no rest. */
  lemma Chooses<R>(s: string, c: Command<R>, rest: string, parseReg: string -> Option<R>)
    requires c.Taint? ==> TaintRule(s, parseReg) == Some(Parsed(c, rest))
    requires c.CheckTaint? ==> s != [] && s[0] == 'c' && QueryRule(s, CHECK_TAINT, parseReg) == Some(Parsed(c.target, rest))
    requires c.GetTaint? ==> s != [] && s[0] == 'g' && QueryRule(s, GET_TAINT, parseReg) == Some(Parsed(c.target, rest))
    requires c.Help? ==> s != [] && s[0] == 'h' && HelpRule(s) == Some(rest)
    ensures CommandRule(s, parseReg) == Some(Parsed(c, rest))
    ensures Parse(s, parseReg) == if rest == [] then Ok(c) else Err(ParseError)
  {
    Dispatch(s, parseReg);
  }

  /** A formatted target reads back, followed by the end or anything but a letter or digit. */
  lemma TargetOf<R(!new)>(t: TaintTarget<R>, rest: string, parseReg: string -> Option<R>, regName: R -> string)
    requires Names(parseReg, regName)
    requires rest == [] || !IsAlnum(rest[0])
    ensures Target(FormatTarget(t, regName) + rest, parseReg) == Some(Parsed(t, rest))
  {
    match t
    case Address(a) =>
      AddressOf(a, rest, parseReg);
    case Register(r) =>
      RegisterOf(regName(r), r, rest, parseReg);
  }

  /** `*0x` and sixteen digits read back as the address. */
  lemma AddressOf<R>(a: u64, rest: string, parseReg: string -> Option<R>)
    requires rest == [] || !IsAlnum(rest[0])
    ensures Target("*0x" + Hex16(a) + rest, parseReg) == Some(Parsed(Address(a), rest))
  {
    var s := "*0x" + Hex16(a) + rest;
    var u := s[1..];
    assert u == "0x" + (Hex16(a) + rest);
    assert u[..2] == "0x" && u[2..] == Hex16(a) + rest;
    Hex16RoundTrip(a);
    HexNumber(u, Hex16(a), rest);
  }

  /** A name the register type accepts reads back as that register. */
  lemma RegisterOf<R>(name: string, r: R, rest: string, parseReg: string -> Option<R>)
    requires IsIdentifier(name) && parseReg(name) == Some(r)
    requires rest == [] || !IsAlnum(rest[0])
    ensures Target(name + rest, parseReg) == Some(Parsed(Register(r), rest))
  {
    var s := name + rest;
    assert s[0] == name[0];
    assert s[1..] == name[1..] + rest;
    SpanOf(name[1..], rest, IsAlnum);
    assert s[..|name|] == name && s[|name|..] == rest;
  }

  /**
    `register` never backtracks to a shorter identifier: when the register type rejects the
    whole run of letters and digits, the rule fails, even if a prefix of the run is a register.
  */
  lemma RegisterNoBacktrack<R>(name: string, rest: string, parseReg: string -> Option<R>)
    requires IsIdentifier(name) && parseReg(name).None?
    requires rest == [] || !IsAlnum(rest[0])
    ensures RegisterRule(name + rest, parseReg).None?
  {
    var s := name + rest;
    assert s[0] == name[0];
    assert s[1..] == name[1..] + rest;
    SpanOf(name[1..], rest, IsAlnum);
    assert s[..|name|] == name;
  }

  /** `help` needs a blank after it, and takes any number of them. */
  lemma HelpNeedsBlank<R>(ws: string, parseReg: string -> Option<R>)
    requires forall k :: 0 <= k < |ws| ==> IsWs(ws[k])
    ensures ws == [] ==> Parse(HELP + ws, parseReg).Err?
    ensures ws != [] ==> Parse(HELP + ws, parseReg) == Ok(Help)
  {
    var s := HELP + ws;
    KeywordOf(HELP, ws);
    assert s[0] == 'h';
    Dispatch(s, parseReg);
    if ws != [] {
      WsOf(ws, []);
      assert ws + [] == ws;
      Chooses(s, Help, [], parseReg);
    }
  }

  /** No command starts with a blank. */
  lemma LeadingBlankRejected<R>(s: string, parseReg: string -> Option<R>)
    requires s != [] && IsWs(s[0])
    ensures Parse(s, parseReg).Err?
  {
    Dispatch(s, parseReg);
  }

  /** What follows `taint _` in a formatted `taint` command with any u64 label. */
  lemma TaintArgsOf<R(!new)>(t: TaintTarget<R>, taintLabel: u64, parseReg: string -> Option<R>, regName: R -> string)
    requires Names(parseReg, regName)
    ensures TaintArgs(FormatTarget(t, regName) + (" " + Numeric.Decimal(taintLabel)), parseReg)
      == Some(Parsed(Taint(t, taintLabel % U32_LIMIT), []))
  {
    var digits := Numeric.Decimal(taintLabel);
    TargetOf(t, " " + digits, parseReg, regName);
    DecimalRoundTrip(taintLabel);
    assert digits + [] == digits;
    DecNumber(digits, []);
    TaintArgsReads(FormatTarget(t, regName) + (" " + digits), t, digits, taintLabel, parseReg);
  }

  /** A target, one blank and a label that reads to the end make the arguments of `taint`. */
  lemma TaintArgsReads<R>(s: string, t: TaintTarget<R>, digits: string, taintLabel: u64, parseReg: string -> Option<R>)
    requires Target(s, parseReg) == Some(Parsed(t, " " + digits))
    requires digits != [] && !IsWs(digits[0])
    requires Number(digits) == Some(Parsed(taintLabel, []))
    ensures TaintArgs(s, parseReg) == Some(Parsed(Taint(t, taintLabel % U32_LIMIT), []))
  {
    WsOf(" ", digits);
  }

  /** A `taint` command with any u64 label parses, the label taken modulo 2^32. */
  lemma TaintLabelTruncated<R(!new)>(t: TaintTarget<R>, taintLabel: u64, parseReg: string -> Option<R>, regName: R -> string)
    requires Names(parseReg, regName)
    ensures Parse(TAINT + (" " + (FormatTarget(t, regName) + (" " + Numeric.Decimal(taintLabel)))), parseReg)
      == Ok(Taint(t, taintLabel % U32_LIMIT))
  {
    var args := FormatTarget(t, regName) + (" " + Numeric.Decimal(taintLabel));
    KeywordOf(TAINT, " " + args);
    WsOf(" ", args);
    TaintArgsOf(t, taintLabel, parseReg, regName);
    Chooses(TAINT + (" " + args), Taint(t, taintLabel % U32_LIMIT), [], parseReg);
  }

  /** The keyword of a query, one blank and a target that reads as `t`. */
  lemma QueryReads<R>(kw: string, arg: string, t: TaintTarget<R>, rest: string, parseReg: string -> Option<R>)
    requires arg != [] && !IsWs(arg[0])
    requires Target(arg, parseReg) == Some(Parsed(t, rest))
    ensures QueryRule(kw + (" " + arg), kw, parseReg) == Some(Parsed(t, rest))
  {
    KeywordOf(kw, " " + arg);
    WsOf(" ", arg);
  }

  /** A formatted target is never empty and never starts with a blank. */
  lemma TargetText<R(!new)>(t: TaintTarget<R>, parseReg: string -> Option<R>, regName: R -> string)
    requires Names(parseReg, regName)
    ensures FormatTarget(t, regName) != [] && !IsWs(FormatTarget(t, regName)[0])
  {
    if t.Register? {
      assert IsIdentifier(regName(t.reg));
    }
  }

  /** Every command's canonical text parses back to the command. */
  lemma ParseFormat<R(!new)>(c: Command<R>, parseReg: string -> Option<R>, regName: R -> string)
    requires Names(parseReg, regName)
    ensures Parse(Format(c, regName), parseReg) == Ok(c)
  {
    match c
    case Taint(t, taintLabel) =>
      var wide: u64 := taintLabel;
      assert wide % U32_LIMIT == taintLabel;
      assert Format(c, regName) == TAINT + (" " + (FormatTarget(t, regName) + (" " + Numeric.Decimal(wide))));
      TaintLabelTruncated(t, wide, parseReg, regName);
    case CheckTaint(t) =>
      ParseQuery(c, CHECK_TAINT, parseReg, regName);
    case GetTaint(t) =>
      ParseQuery(c, GET_TAINT, parseReg, regName);
    case Help =>
      HelpNeedsBlank(" ", parseReg);
  }

  /** `check_taint` and `get_taint` with a formatted target. */
  lemma ParseQuery<R(!new)>(c: Command<R>, kw: string, parseReg: string -> Option<R>, regName: R -> string)
    requires Names(parseReg, regName)
    requires (c.CheckTaint? && kw == CHECK_TAINT) || (c.GetTaint? && kw == GET_TAINT)
    ensures Parse(kw + (" " + FormatTarget(c.target, regName)), parseReg) == Ok(c)
  {
    var target := FormatTarget(c.target, regName);
    TargetText(c.target, parseReg, regName);
    TargetOf(c.target, [], parseReg, regName);
    assert target + [] == target;
    QueryReads(kw, target, c.target, [], parseReg);
    assert (kw + (" " + target))[0] == kw[0];
    Chooses(kw + (" " + target), c, [], parseReg);
  }

  /** An address too large for a u64 is rejected, even though `number` itself reads its `0`. */
  lemma HexOverflowRejected<R>(h: string, parseReg: string -> Option<R>)
    requires h != [] && AllHex(h) && HexValue(h) >= U64_LIMIT
    ensures Parse(CHECK_TAINT + (" " + ("*0x" + h)), parseReg).Err?
  {
    var arg := "*0x" + h;
    OverflowTarget(h, parseReg);
    QueryReads(CHECK_TAINT, arg, Address(0), "x" + h, parseReg);
    assert (CHECK_TAINT + (" " + arg))[0] == 'c';
    Chooses(CHECK_TAINT + (" " + arg), CheckTaint(Address(0)), "x" + h, parseReg);
  }

  /** An overflowing hexadecimal address reads as address 0, leaving `x` and the digits. */
  lemma OverflowTarget<R>(h: string, parseReg: string -> Option<R>)
    requires h != [] && AllHex(h) && HexValue(h) >= U64_LIMIT
    ensures Target("*0x" + h, parseReg) == Some(Parsed(Address(0), "x" + h))
  {
    var u := ("*0x" + h)[1..];
    assert u == "0x" + h;
    assert u[..2] == "0x" && u[2..] == h + [] && u[1..] == "x" + h;
    HexOverflowReadsZero(u, h, []);
  }

  /** A decimal address too large for a u64 is rejected. */
  lemma DecOverflowRejected<R>(d: string, parseReg: string -> Option<R>)
    requires d != [] && AllDec(d) && DecValue(d) >= U64_LIMIT
    ensures Parse(CHECK_TAINT + (" " + ("*" + d)), parseReg).Err?
  {
    var arg := "*" + d;
    var s := CHECK_TAINT + (" " + arg);
    DecOverflowFails(d, []);
    assert d + [] == d && arg[1..] == d;
    assert Target(arg, parseReg).None?;
    KeywordOf(CHECK_TAINT, " " + arg);
    WsOf(" ", arg);
    assert s[0] == 'c';
    Dispatch(s, parseReg);
  }

  /** `0X` is not the hexadecimal prefix: `number` reads the `0` alone. */
  lemma UpperXReadsZero(t: string)
    ensures Number("0X" + t) == Some(Parsed(0, "X" + t))
  {
    var s := "0X" + t;
    assert s == "0" + ("X" + t);
    SpanOf("0", "X" + t, IsDecDigit);
    assert s[..1] == "0" && s[1..] == "X" + t;
    assert DecValue("0") == 0 by {
      assert "0"[..0] == [];
    }
  }

  /** So an address written with `0X` leaves `X` unread, and the command is rejected. */
  lemma UpperXRejected<R>(t: string, parseReg: string -> Option<R>)
    ensures Parse(CHECK_TAINT + (" " + ("*0X" + t)), parseReg).Err?
  {
    var arg := "*0X" + t;
    UpperXReadsZero(t);
    assert arg[1..] == "0X" + t;
    assert Target(arg, parseReg) == Some(Parsed(Address(0), "X" + t));
    QueryReads(CHECK_TAINT, arg, Address(0), "X" + t, parseReg);
    assert (CHECK_TAINT + (" " + arg))[0] == 'c';
    Chooses(CHECK_TAINT + (" " + arg), CheckTaint(Address(0)), "X" + t, parseReg);
  }

  /**
    `check_taint` and `get_taint` take nothing after the target: any further input that does
    not continue the target (blanks, punctuation) is rejected.
  */
  lemma TrailingInputRejected<R(!new)>(c: Command<R>, kw: string, rest: string, parseReg: string -> Option<R>, regName: R -> string)
    requires Names(parseReg, regName)
    requires (c.CheckTaint? && kw == CHECK_TAINT) || (c.GetTaint? && kw == GET_TAINT)
    requires rest != [] && !IsAlnum(rest[0])
    ensures Parse(kw + (" " + (FormatTarget(c.target, regName) + rest)), parseReg).Err?
  {
    var target := FormatTarget(c.target, regName);
    TargetText(c.target, parseReg, regName);
    TargetOf(c.target, rest, parseReg, regName);
    assert (target + rest)[0] == target[0];
    QueryReads(kw, target + rest, c.target, rest, parseReg);
    assert (kw + (" " + (target + rest)))[0] == kw[0];
    Chooses(kw + (" " + (target + rest)), c, rest, parseReg);
  }
}
