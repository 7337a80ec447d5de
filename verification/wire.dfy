/**
 * The event-stream messages of `src/types/api.ts` and their wire form:
 * `JSON.stringify` of each of the three shapes, framed as
 * `data: <json>\n\n`, and a decoder for exactly those shapes that stands in
 * for the client's `JSON.parse`.
 */
module Wire {
  import opened Wrappers
  import opened Decimal
  import opened Lines

  /** `SSEMessage`: the `type` field selects the constructor. */
  datatype Message =
    | NumberMessage(value: int, progress: int, total: int)
    | DoneMessage
    | ErrorMessage(error: string)

  function StartsWith(s: string, prefix: string): bool {
    |prefix| <= |s| && s[..|prefix|] == prefix
  }

  // ---------------------------------------------------------------------
  // JSON string literals

  function HexDigit(d: nat): (c: char)
    requires d < 16
    ensures HexValue(c) == Some(d)
  {
    if d < 10 then DigitChar(d) else ('a' as int + d - 10) as char
  }

  /** The value of a hexadecimal digit in either case. */
  function HexValue(c: char): Option<nat> {
    if '0' <= c <= '9' then Some((c - '0') as nat)
    else if 'a' <= c <= 'f' then Some((c - 'a') as nat + 10)
    else if 'A' <= c <= 'F' then Some((c - 'A') as nat + 10)
    else None
  }

  /** How `JSON.stringify` writes one character inside a string literal. */
  function EscapeChar(c: char): (e: string)
    ensures |e| > 0 && NoNewline(e) && e[0] != '"'
  {
    if c == '"' then "\\\""
    else if c == '\\' then "\\\\"
    else if c == '\U{0008}' then "\\b"
    else if c == '\U{000C}' then "\\f"
    else if c == '\n' then "\\n"
    else if c == '\r' then "\\r"
    else if c == '\t' then "\\t"
    else if c < ' ' then "\\u00" + [HexDigit(c as nat / 16), HexDigit(c as nat % 16)]
    else [c]
  }

  /** The body of a JSON string literal for `s`, without the quotes. */
  function Escape(s: string): (e: string)
    ensures |e| >= |s|
  {
    if |s| == 0 then "" else EscapeChar(s[0]) + Escape(s[1..])
  }

  /** The character a `\` escape letter stands for, for the one-letter escapes. */
  function ShortEscape(c: char): Option<char> {
    if c == '"' then Some('"')
    else if c == '\\' then Some('\\')
    else if c == '/' then Some('/')
    else if c == 'b' then Some('\U{0008}')
    else if c == 'f' then Some('\U{000C}')
    else if c == 'n' then Some('\n')
    else if c == 'r' then Some('\r')
    else if c == 't' then Some('\t')
    else None
  }

  /** The value of four hexadecimal digits at the start of `s`. */
  function Hex4(s: string): Option<nat>
    requires |s| >= 4
  {
    match (HexValue(s[0]), HexValue(s[1]), HexValue(s[2]), HexValue(s[3]))
    case (Some(a), Some(b), Some(c), Some(d)) => Some(((a * 16 + b) * 16 + c) * 16 + d)
    case _ => None
  }

  /** Puts `c`, read from `k` characters, in front of a parsed remainder. */
  function Prepend(c: char, k: nat, r: Option<(string, nat)>): Option<(string, nat)> {
    match r
    case Some((t, n)) => Some(([c] + t, n + k))
    case None => None
  }

  /** The code point a `\uXXXX` escape at the start of `s` denotes, if it is a valid one. */
  function UnicodeEscape(s: string): Option<char>
    requires |s| >= 4
  {
    match Hex4(s)
    case Some(v) => if 0xD800 <= v < 0xE000 || v >= 0x11_0000 then None else Some(v as char)
    case None => None
  }

  /**
   * Reads the rest of a JSON string literal whose opening quote has been
   * consumed: the decoded text and the number of characters read, closing
   * quote included. Raw control characters, unknown escapes and `\u`
   * escapes of lone surrogates are rejected.
   */
  function ParseString(s: string): (r: Option<(string, nat)>)
    ensures r.Some? ==> 0 < r.value.1 <= |s|
    decreases |s|
  {
    if |s| == 0 then None
    else if s[0] == '"' then Some(("", 1))
    else if s[0] < ' ' then None
    else if s[0] != '\\' then Prepend(s[0], 1, ParseString(s[1..]))
    else if |s| < 2 then None
    else if s[1] == 'u' then
      if |s| < 6 then None
      else if UnicodeEscape(s[2..6]).None? then None
      else Prepend(UnicodeEscape(s[2..6]).value, 6, ParseString(s[6..]))
    else if ShortEscape(s[1]).None? then None
    else Prepend(ShortEscape(s[1]).value, 2, ParseString(s[2..]))
  }

  /** A control character without a short escape is written and read back as `\u00XX`. */
  lemma ParseUnicodeEscaped(c: char, rest: string)
    requires c < ' ' && c != '\U{0008}' && c != '\U{000C}' && c != '\n' && c != '\r' && c != '\t'
    ensures ParseString(EscapeChar(c) + rest) == Prepend(c, |EscapeChar(c)|, ParseString(rest))
  {
    var s := EscapeChar(c) + rest;
    var hi, lo := c as nat / 16, c as nat % 16;
    assert s[..6] == "\\u00" + [HexDigit(hi), HexDigit(lo)];
    assert s[2..6] == ['0', '0', HexDigit(hi), HexDigit(lo)];
    assert s[6..] == rest;
    assert Hex4(s[2..6]) == Some(c as nat);
  }

  /** A character with a two-character escape is read back from it. */
  lemma ParseShortEscaped(c: char, rest: string)
    requires |EscapeChar(c)| == 2
    ensures ParseString(EscapeChar(c) + rest) == Prepend(c, 2, ParseString(rest))
  {
    var s := EscapeChar(c) + rest;
    assert s[2..] == rest;
  }

  /** Reading one escaped character consumes exactly its escape and yields the character. */
  lemma ParseEscapedChar(c: char, rest: string)
    ensures ParseString(EscapeChar(c) + rest) == Prepend(c, |EscapeChar(c)|, ParseString(rest))
  {
    if c < ' ' && c != '\U{0008}' && c != '\U{000C}' && c != '\n' && c != '\r' && c != '\t' {
      ParseUnicodeEscaped(c, rest);
    } else if |EscapeChar(c)| == 2 {
      ParseShortEscaped(c, rest);
    } else {
      var s := EscapeChar(c) + rest;
      assert s[1..] == rest;
    }
  }

  /** Reading back an escaped string gives the string, and stops after its closing quote. */
  lemma {:induction false} ParseStringEscape(s: string, rest: string)
    ensures ParseString(Escape(s) + "\"" + rest) == Some((s, |Escape(s)| + 1))
    decreases |s|
  {
    if |s| == 0 {
      assert Escape(s) + "\"" + rest == "\"" + rest;
    } else {
      ParseStringEscape(s[1..], rest);
      ParseStringCons(s, rest);
    }
  }

  /** One escaped character in front of a string that reads back. */
  lemma ParseStringCons(s: string, rest: string)
    requires |s| > 0
    requires ParseString(Escape(s[1..]) + "\"" + rest) == Some((s[1..], |Escape(s[1..])| + 1))
    ensures ParseString(Escape(s) + "\"" + rest) == Some((s, |Escape(s)| + 1))
  {
    var c, t := s[0], s[1..];
    var e, tail := EscapeChar(c), Escape(t) + "\"" + rest;
    var whole := Escape(s) + "\"" + rest;
    EscapeFront(s, rest);
    assert whole == e + tail;
    ParseEscapedChar(c, tail);
    assert ParseString(tail) == Some((t, |Escape(t)| + 1));
    assert ParseString(whole) == Some(([c] + t, |e| + (|Escape(t)| + 1)));
    assert [c] + t == s && |e| + (|Escape(t)| + 1) == |Escape(s)| + 1;
  }

  /** The escape of a non-empty string starts with the escape of its first character. */
  lemma EscapeFront(s: string, rest: string)
    requires |s| > 0
    ensures Escape(s) + "\"" + rest == EscapeChar(s[0]) + (Escape(s[1..]) + "\"" + rest)
    ensures |Escape(s)| == |EscapeChar(s[0])| + |Escape(s[1..])|
  {
    var e, r := EscapeChar(s[0]), Escape(s[1..]);
    assert Escape(s) == e + r;
    AppendAssoc(e, r, "\"");
    AppendAssoc(e, r + "\"", rest);
  }

  // ---------------------------------------------------------------------
  // JSON numbers

  /**
   * Reads an integer at the start of `s` as JSON writes it: an optional
   * minus sign and digits without leading zeros. Gives the value and the
   * number of characters read.
   */
  function ParseInt(s: string): (r: Option<(int, nat)>)
    ensures r.Some? ==> 0 < r.value.1 <= |s|
  {
    if |s| > 0 && s[0] == '-' then
      match ParseNat(s[1..])
      case Some(p) => Some((-(p.0 as int), p.1 + 1))
      case None => None
    else
      match ParseNat(s)
      case Some((n, k)) => Some((n, k))
      case None => None
  }

  function ParseNat(s: string): (r: Option<(nat, nat)>)
    ensures r.Some? ==> 0 < r.value.1 <= |s|
  {
    var j := RunEnd(s, 0);
    if j == 0 || (j > 1 && s[0] == '0') then None
    else Some((DigitsValue(s[..j]), j))
  }

  /** Reading back a rendered natural number stops where its digits stop. */
  lemma ParseNatStr(n: nat, rest: string)
    requires |rest| > 0 ==> !IsDigit(rest[0])
    ensures ParseNat(NatStr(n) + rest) == Some((n, |NatStr(n)|))
  {
    var d := NatStr(n);
    var s := d + rest;
    assert forall k :: 0 <= k < |d| ==> s[k] == d[k];
    if |rest| > 0 { assert s[|d|] == rest[0]; }
    // The run of digits at the start of `s` is exactly `d`.
    var j := RunEnd(s, 0);
    assert j == |d|;
    assert s[..j] == d;
    NatStrValue(n);
  }

  /** Reading back a rendered integer gives the integer. */
  lemma ParseIntStr(n: int, rest: string)
    requires |rest| > 0 ==> !IsDigit(rest[0])
    ensures ParseInt(IntStr(n) + rest) == Some((n, |IntStr(n)|))
  {
    var s := IntStr(n) + rest;
    if n < 0 {
      NegativeIntStr(n, rest);
      ParseNatStr(-n, rest);
      assert ParseNat(s[1..]) == Some((-n, |NatStr(-n)|));
    } else {
      assert IntStr(n) == NatStr(n);
      assert s[0] == IntStr(n)[0] && IsDigit(s[0]);
      ParseNatStr(n, rest);
      assert ParseNat(s) == Some((n, |NatStr(n)|));
    }
  }

  /** A negative number is written as a minus sign and then its magnitude. */
  lemma NegativeIntStr(n: int, rest: string)
    requires n < 0
    ensures |IntStr(n) + rest| > 0 && (IntStr(n) + rest)[0] == '-'
    ensures (IntStr(n) + rest)[1..] == NatStr(-n) + rest
    ensures |IntStr(n)| == |NatStr(-n)| + 1
  {
    assert IntStr(n) + rest == "-" + (NatStr(-n) + rest);
  }

  // ---------------------------------------------------------------------
  // Messages

  /** The text every message starts with: an object whose first member is `type`. */
  const TypeKey := "{\"type\":\""
  const NumberPrefix := "{\"type\":\"number\",\"value\":"
  const ProgressKey := ",\"progress\":"
  const TotalKey := ",\"total\":"
  const ErrorPrefix := "{\"type\":\"error\",\"error\":\""
  const DoneJson := "{\"type\":\"done\"}"

  /** The text of a number message after its prefix. */
  function NumberFields(v: int, p: int, t: int): string {
    IntStr(v) + (ProgressKey + (IntStr(p) + (TotalKey + (IntStr(t) + "}"))))
  }

  /** `JSON.stringify(message)`, fields in the order the source writes them. */
  function Encode(m: Message): (e: string)
    ensures StartsWith(e, TypeKey) && |e| > |TypeKey| && e[|e| - 1] == '}'
  {
    MessagePrefixes();
    match m
    case NumberMessage(v, p, t) =>
      var f := IntStr(t) + "}";
      ClosedConcat(TotalKey, f);
      ClosedConcat(IntStr(p), TotalKey + f);
      ClosedConcat(ProgressKey, IntStr(p) + (TotalKey + f));
      ClosedConcat(IntStr(v), ProgressKey + (IntStr(p) + (TotalKey + f)));
      OpenedConcat(NumberPrefix, NumberFields(v, p, t));
      NumberPrefix + NumberFields(v, p, t)
    case DoneMessage => DoneJson
    case ErrorMessage(e) =>
      ClosedConcat(Escape(e), "\"}");
      OpenedConcat(ErrorPrefix, Escape(e) + "\"}");
      ErrorPrefix + (Escape(e) + "\"}")
  }

  /** The fixed openings of the three message kinds start with the `type` member. */
  lemma MessagePrefixes()
    ensures StartsWith(NumberPrefix, TypeKey) && |NumberPrefix| > |TypeKey|
    ensures StartsWith(ErrorPrefix, TypeKey) && |ErrorPrefix| > |TypeKey|
    ensures StartsWith(DoneJson, TypeKey) && |DoneJson| > |TypeKey| && DoneJson[|DoneJson| - 1] == '}'
  {
  }

  /** Text ending in `}` still does after something is put in front. */
  lemma ClosedConcat(a: string, b: string)
    requires |b| > 0 && b[|b| - 1] == '}'
    ensures |a + b| > 0 && (a + b)[|a + b| - 1] == '}'
  {
  }

  /** A prefix that opens a message still does once text is appended. */
  lemma OpenedConcat(a: string, b: string)
    requires StartsWith(a, TypeKey) && |a| > |TypeKey|
    ensures StartsWith(a + b, TypeKey) && |a + b| > |TypeKey|
  {
    assert (a + b)[..|TypeKey|] == a[..|TypeKey|];
  }

  lemma NoNewlineConcat(a: string, b: string)
    requires NoNewline(a) && NoNewline(b)
    ensures NoNewline(a + b)
  {
    assert forall i :: |a| <= i < |a + b| ==> (a + b)[i] == b[i - |a|];
  }

  lemma NoNewlineIntStr(n: int)
    ensures NoNewline(IntStr(n))
  {
  }

  /** An escaped string has no raw newline: `\n` is written as two characters. */
  lemma {:induction false} EscapeNoNewline(s: string)
    ensures NoNewline(Escape(s))
    decreases |s|
  {
    if |s| > 0 {
      EscapeNoNewline(s[1..]);
      NoNewlineConcat(EscapeChar(s[0]), Escape(s[1..]));
    }
  }

  /** An encoded message is a single line: newlines inside strings are escaped. */
  lemma EncodeNoNewline(m: Message)
    ensures NoNewline(Encode(m))
  {
    match m
    case NumberMessage(v, p, t) =>
      NoNewlineIntStr(v);
      NoNewlineIntStr(p);
      NoNewlineIntStr(t);
      NoNewlineConcat(IntStr(t), "}");
      NoNewlineConcat(TotalKey, IntStr(t) + "}");
      NoNewlineConcat(IntStr(p), TotalKey + (IntStr(t) + "}"));
      NoNewlineConcat(ProgressKey, IntStr(p) + (TotalKey + (IntStr(t) + "}")));
      NoNewlineConcat(IntStr(v), ProgressKey + (IntStr(p) + (TotalKey + (IntStr(t) + "}"))));
      NoNewlineConcat(NumberPrefix, NumberFields(v, p, t));
    case DoneMessage =>
    case ErrorMessage(e) =>
      EscapeNoNewline(e);
      NoNewlineConcat(Escape(e), "\"}");
      NoNewlineConcat(ErrorPrefix, Escape(e) + "\"}");
  }

  /** What remains of `s` after the literal `lit`, if `s` starts with it. */
  function AfterLiteral(s: string, lit: string): (r: Option<string>)
    ensures r.Some? ==> s == lit + r.value
  {
    if StartsWith(s, lit) then
      assert s == s[..|lit|] + s[|lit|..];
      Some(s[|lit|..])
    else None
  }

  /** An integer followed by the literal `lit`: the integer and what follows. */
  function IntThen(s: string, lit: string): Option<(int, string)> {
    match ParseInt(s)
    case None => None
    case Some((v, k)) =>
      match AfterLiteral(s[k..], lit)
      case None => None
      case Some(rest) => Some((v, rest))
  }

  function DecodeNumber(s: string): Option<Message> {
    match IntThen(s, ProgressKey)
    case None => None
    case Some((v, s1)) =>
      match IntThen(s1, TotalKey)
      case None => None
      case Some((p, s2)) =>
        match IntThen(s2, "}")
        case Some((t, "")) => Some(NumberMessage(v, p, t))
        case _ => None
  }

  function DecodeError(s: string): Option<Message> {
    match ParseString(s)
    case Some((e, n)) => if s[n..] == "}" then Some(ErrorMessage(e)) else None
    case None => None
  }

  /**
   * The client's `JSON.parse` restricted to the three message shapes, with
   * the fields in the order `JSON.stringify` writes them and no white space;
   * inside the error string every escape `JSON.parse` reads is accepted,
   * except `\u` escapes of surrogates. Any other text is a parse failure.
   */
  function Decode(s: string): (r: Option<Message>)
    ensures r.Some? ==> StartsWith(s, TypeKey)
    ensures r == Some(DoneMessage) <==> s == DoneJson
  {
    if s == DoneJson then Some(DoneMessage)
    else match AfterLiteral(s, ErrorPrefix)
      case Some(rest) => DecodeError(rest)
      case None =>
        match AfterLiteral(s, NumberPrefix)
        case Some(rest) => DecodeNumber(rest)
        case None => None
  }

  lemma AfterLiteralConcat(lit: string, rest: string)
    ensures AfterLiteral(lit + rest, lit) == Some(rest)
  {
    assert (lit + rest)[..|lit|] == lit;
    assert (lit + rest)[|lit|..] == rest;
  }

  lemma IntThenStr(n: int, lit: string, rest: string)
    requires |lit| > 0 && !IsDigit(lit[0])
    ensures IntThen(IntStr(n) + (lit + rest), lit) == Some((n, rest))
  {
    var s := IntStr(n) + (lit + rest);
    ParseIntStr(n, lit + rest);
    assert s[|IntStr(n)|..] == lit + rest;
    AfterLiteralConcat(lit, rest);
  }

  lemma DecodeEncodeError(e: string)
    ensures Decode(Encode(ErrorMessage(e))) == Some(ErrorMessage(e))
  {
    var rest := Escape(e) + "\"}";
    var j := ErrorPrefix + rest;
    assert j[9] == 'e';
    assert j != DoneJson by { assert DoneJson[9] == 'd'; }
    AfterLiteralConcat(ErrorPrefix, rest);
    assert rest == Escape(e) + "\"" + "}";
    ParseStringEscape(e, "}");
    assert rest[|Escape(e)| + 1..] == "}";
  }

  lemma DecodeNumberFields(v: int, p: int, t: int)
    ensures DecodeNumber(NumberFields(v, p, t)) == Some(NumberMessage(v, p, t))
  {
    IntThenStr(v, ProgressKey, IntStr(p) + (TotalKey + (IntStr(t) + "}")));
    IntThenStr(p, TotalKey, IntStr(t) + "}");
    IntThenStr(t, "}", "");
    assert "}" + "" == "}";
  }

  /** Text after the number prefix is decoded as the fields of a number message. */
  lemma DecodeAfterNumberPrefix(rest: string)
    ensures Decode(NumberPrefix + rest) == DecodeNumber(rest)
  {
    var j := NumberPrefix + rest;
    assert j[9] == 'n';
    assert j != DoneJson by { assert DoneJson[9] == 'd'; }
    assert !StartsWith(j, ErrorPrefix) by { assert ErrorPrefix[9] == 'e'; }
    AfterLiteralConcat(NumberPrefix, rest);
  }

  /** Decoding an encoded message gives the message back. */
  lemma DecodeEncode(m: Message)
    ensures Decode(Encode(m)) == Some(m)
  {
    match m
    case DoneMessage =>
    case ErrorMessage(e) => DecodeEncodeError(e);
    case NumberMessage(v, p, t) =>
      DecodeAfterNumberPrefix(NumberFields(v, p, t));
      DecodeNumberFields(v, p, t);
  }

  /** Different messages have different encodings. */
  lemma EncodeInjective(m: Message, m': Message)
    requires Encode(m) == Encode(m')
    ensures m == m'
  {
    DecodeEncode(m);
    DecodeEncode(m');
  }

  // ---------------------------------------------------------------------
  // Frames

  const DataPrefix := "data: "

  /** One event as written to the stream: `data: <json>` and a blank line. */
  function Frame(m: Message): (f: string)
    ensures StartsWith(f, DataPrefix)
  {
    DataLine(m) + "\n\n"
  }

  /** The stream text for a sequence of events, in order. */
  function Frames(ms: seq<Message>): (f: string)
    ensures f == "" <==> |ms| == 0
    ensures |ms| > 0 ==> StartsWith(f, DataPrefix) && f[|f| - 1] == '\n'
  {
    if |ms| == 0 then "" else Frame(ms[0]) + Frames(ms[1..])
  }

  /** The line carrying an event: the `data: ` field with the JSON text. */
  function DataLine(m: Message): string {
    DataPrefix + Encode(m)
  }

  /** The lines of a sequence of frames: each data line followed by a blank line. */
  function FrameLines(ms: seq<Message>): seq<string> {
    if |ms| == 0 then [] else [DataLine(ms[0]), ""] + FrameLines(ms[1..])
  }

  lemma DataLineNoNewline(m: Message)
    ensures NoNewline(DataLine(m))
  {
    EncodeNoNewline(m);
    NoNewlineConcat(DataPrefix, Encode(m));
  }

  /**
   * Splitting the stream text on newlines gives each event's data line and
   * blank line in order, and a final empty piece after the last frame.
   */
  lemma {:induction false} SplitFrames(ms: seq<Message>)
    ensures Split(Frames(ms)) == FrameLines(ms) + [""]
    decreases |ms|
  {
    if |ms| == 0 {
      assert Split("") == [""];
    } else {
      var rest := Frames(ms[1..]);
      SplitFrame(ms[0], rest);
      SplitFrames(ms[1..]);
      assert FrameLines(ms) == [DataLine(ms[0]), ""] + FrameLines(ms[1..]);
    }
  }

  /** One frame in front of some text splits into its data line and a blank line. */
  lemma SplitFrame(m: Message, rest: string)
    ensures Split(Frame(m) + rest) == [DataLine(m), ""] + Split(rest)
  {
    AppendAssoc(DataLine(m), "\n\n", rest);
    DataLineNoNewline(m);
    SplitBlankAfter(DataLine(m), rest);
  }
}
