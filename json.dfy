/** The JSON text that `JSON.stringify` writes and `JSON.parse` reads, for
    the values the pages keep in the browser's key-value store: `null`,
    booleans, integers, strings, arrays and objects. Serialize writes what
    `JSON.stringify` writes for such a value (no white space, the escapes
    it uses); Parse reads JSON text, with the white space the JSON grammar
    allows around values and punctuation, and the two round-trip. */
module Json {
  import opened Text
  import opened Wrappers

  datatype Json =
    | JNull
    | JBool(b: bool)
    | JNum(n: int)
    | JStr(s: string)
    | JArr(items: seq<Json>)
    | JObj(members: seq<Member>)

  datatype Member = Member(key: string, value: Json)

  /** The member `key` of an object as `JSON.parse` builds it: when a key
      occurs twice the later one wins. */
  function Lookup(ms: seq<Member>, key: string): (r: Option<Json>)
    ensures r.Some? <==> exists i :: 0 <= i < |ms| && ms[i].key == key
  {
    if |ms| == 0 then None
    else if ms[|ms| - 1].key == key then Some(ms[|ms| - 1].value)
    else Lookup(ms[..|ms| - 1], key)
  }

  // ---------------------------------------------------------------- writing

  function Hex(d: nat): (c: char)
    requires d < 16
  {
    if d < 10 then Digit(d) else ('a' as int + d - 10) as char
  }

  /** How `JSON.stringify` writes one character inside a string literal. */
  function EscapeChar(c: char): string {
    if c == '"' then "\\\""
    else if c == '\\' then "\\\\"
    else if c == '\U{0008}' then "\\b"
    else if c == '\U{000C}' then "\\f"
    else if c == '\n' then "\\n"
    else if c == '\r' then "\\r"
    else if c == '\t' then "\\t"
    else if c < ' ' then "\\u00" + [Hex(c as int / 16), Hex(c as int % 16)]
    else [c]
  }

  function Escape(s: string): string {
    if |s| == 0 then "" else EscapeChar(s[0]) + Escape(s[1..])
  }

  function Quote(s: string): string {
    "\"" + Escape(s) + "\""
  }

  function Serialize(v: Json): (r: string)
    ensures |r| > 0 && r[0] != ']' && r[0] != '}' && !IsWs(r[0])
  {
    match v
    case JNull => "null"
    case JBool(b) => if b then "true" else "false"
    case JNum(n) => IntToString(n)
    case JStr(s) => Quote(s)
    case JArr(items) => "[" + SerializeItems(items) + "]"
    case JObj(ms) => "{" + SerializeMembers(ms) + "}"
  }

  function SerializeItems(items: seq<Json>): (r: string)
    ensures |items| > 0 ==> |r| > 0 && r[0] == Serialize(items[0])[0]
  {
    if |items| == 0 then ""
    else if |items| == 1 then Serialize(items[0])
    else Serialize(items[0]) + "," + SerializeItems(items[1..])
  }

  function SerializeMember(m: Member): string {
    Quote(m.key) + ":" + Serialize(m.value)
  }

  function SerializeMembers(ms: seq<Member>): (r: string)
    ensures |ms| > 0 ==> |r| > 0 && r[0] == '"'
  {
    if |ms| == 0 then ""
    else if |ms| == 1 then SerializeMember(ms[0])
    else SerializeMember(ms[0]) + "," + SerializeMembers(ms[1..])
  }

  // ---------------------------------------------------------------- reading

  /** The four white-space characters of the JSON grammar. */
  predicate IsWs(c: char) {
    c == ' ' || c == '\t' || c == '\n' || c == '\r'
  }

  /** `s` without the white space at its head. */
  function SkipWs(s: string): (r: string)
    ensures |r| <= |s|
  {
    if |s| > 0 && IsWs(s[0]) then SkipWs(s[1..]) else s
  }

  function HexValue(c: char): Option<nat> {
    if '0' <= c <= '9' then Some(c as int - '0' as int)
    else if 'a' <= c <= 'f' then Some(c as int - 'a' as int + 10)
    else if 'A' <= c <= 'F' then Some(c as int - 'A' as int + 10)
    else None
  }

  /** The escape sequence at the head of `s` (which starts with a
      backslash): the character it stands for and its length. */
  function Unescape(s: string): (r: Option<(char, nat)>)
    requires |s| > 0 && s[0] == '\\'
    ensures r.Some? ==> 2 <= r.value.1 <= |s|
  {
    if |s| < 2 then None
    else if s[1] == '"' || s[1] == '\\' || s[1] == '/' then Some((s[1], 2))
    else if s[1] == 'b' then Some(('\U{0008}', 2))
    else if s[1] == 'f' then Some(('\U{000C}', 2))
    else if s[1] == 'n' then Some(('\n', 2))
    else if s[1] == 'r' then Some(('\r', 2))
    else if s[1] == 't' then Some(('\t', 2))
    else if s[1] == 'u' then
      match Hex4(s[2..])
      case None => None
      case Some(v) =>
        if v < 0xD800 || 0xE000 <= v then Some((v as char, 6))
        else if v < 0xDC00 && |s| >= 12 && s[6] == '\\' && s[7] == 'u' then
          // A high surrogate followed by a low one: the pair's code point.
          match Hex4(s[8..])
          case None => None
          case Some(w) =>
            if 0xDC00 <= w < 0xE000 then Some(((0x1_0000 + (v - 0xD800) * 0x400 + (w - 0xDC00)) as char, 12))
            else None
        else None
    else None
  }

  /** The code unit written by the four hex digits at the head of `s`. */
  function Hex4(s: string): (r: Option<nat>)
    ensures r.Some? ==> |s| >= 4 && r.value < 0x1_0000
  {
    if |s| < 4 then None
    else
      match (HexValue(s[0]), HexValue(s[1]), HexValue(s[2]), HexValue(s[3]))
      case (Some(a), Some(b), Some(c), Some(d)) => Some(((a * 16 + b) * 16 + c) * 16 + d)
      case _ => None
  }

  function Prepend(c: char, r: Option<(string, string)>): Option<(string, string)> {
    match r
    case None => None
    case Some((t, rest)) => Some(([c] + t, rest))
  }

  /** The body of a string literal, `s` starting just after the opening
      quote: the decoded text and what follows the closing quote. */
  function ParseString(s: string): (r: Option<(string, string)>)
    ensures r.Some? ==> |r.value.1| < |s|
  {
    if |s| == 0 then None
    else if s[0] == '"' then Some(("", s[1..]))
    else if s[0] == '\\' then
      match Unescape(s)
      case None => None
      case Some((c, k)) => Prepend(c, ParseString(s[k..]))
    else if s[0] < ' ' then None
    else Prepend(s[0], ParseString(s[1..]))
  }

  /** The number of digits at the head of `s`. */
  function DigitRun(s: string): (k: nat)
    ensures k <= |s| && (forall i :: 0 <= i < k ==> IsDigit(s[i]))
    ensures k == |s| || !IsDigit(s[k])
  {
    if |s| > 0 && IsDigit(s[0]) then 1 + DigitRun(s[1..]) else 0
  }

  /** An integer literal: an optional minus sign, then `0` or digits not
      starting with `0`. A fraction or an exponent is not read. */
  function ParseNumber(s: string): (r: Option<(Json, string)>)
    ensures r.Some? ==> |r.value.1| < |s|
  {
    var neg := |s| > 0 && s[0] == '-';
    var body := if neg then s[1..] else s;
    var k := DigitRun(body);
    if k == 0 || (body[0] == '0' && k > 1) then None
    else
      var v: int := DigitsValue(body[..k]);
      Some((JNum(if neg then -v else v), body[k..]))
  }

  /** A literal such as `null`, standing for `v`. */
  function ParseLiteral(s: string, lit: string, v: Json): (r: Option<(Json, string)>)
    requires |lit| > 0
    ensures r.Some? ==> |r.value.1| < |s|
  {
    if IsPrefix(lit, s) then Some((v, s[|lit|..])) else None
  }

  /** A string literal, `s` starting with its opening quote. */
  function ParseStringValue(s: string): (r: Option<(Json, string)>)
    requires |s| > 0
    ensures r.Some? ==> |r.value.1| < |s|
  {
    match ParseString(s[1..])
    case None => None
    case Some((t, rest)) => Some((JStr(t), rest))
  }

  /** One value at the head of `s`, with the white space before and after
      it, and the text after that. */
  function ParseValue(s: string): (r: Option<(Json, string)>)
    ensures r.Some? ==> |r.value.1| < |s|
    decreases |s|, 3
  {
    match ParseBare(SkipWs(s))
    case None => None
    case Some((v, rest)) => Some((v, SkipWs(rest)))
  }

  /** One value at the very head of `s`, and the text after it. */
  function ParseBare(s: string): (r: Option<(Json, string)>)
    ensures r.Some? ==> |r.value.1| < |s|
    decreases |s|, 2
  {
    if |s| == 0 then None
    else if s[0] == 'n' then ParseLiteral(s, "null", JNull)
    else if s[0] == 't' then ParseLiteral(s, "true", JBool(true))
    else if s[0] == 'f' then ParseLiteral(s, "false", JBool(false))
    else if s[0] == '"' then ParseStringValue(s)
    else if s[0] == '-' || IsDigit(s[0]) then ParseNumber(s)
    else if s[0] == '[' then ParseArray(s)
    else if s[0] == '{' then ParseObject(s)
    else None
  }

  /** An array, `s` starting with its `[`. */
  function ParseArray(s: string): (r: Option<(Json, string)>)
    requires |s| > 0
    ensures r.Some? ==> |r.value.1| < |s|
    decreases |s|, 1
  {
    var inner := SkipWs(s[1..]);
    if |inner| > 0 && inner[0] == ']' then Some((JArr([]), inner[1..]))
    else
      match ParseItems(s[1..])
      case None => None
      case Some((items, rest)) => Some((JArr(items), rest))
  }

  /** An object, `s` starting with its `{`. */
  function ParseObject(s: string): (r: Option<(Json, string)>)
    requires |s| > 0
    ensures r.Some? ==> |r.value.1| < |s|
    decreases |s|, 1
  {
    var inner := SkipWs(s[1..]);
    if |inner| > 0 && inner[0] == '}' then Some((JObj([]), inner[1..]))
    else
      match ParseMembers(s[1..])
      case None => None
      case Some((ms, rest)) => Some((JObj(ms), rest))
  }

  /** The elements of a non-empty array, up to and including its `]`. */
  function ParseItems(s: string): (r: Option<(seq<Json>, string)>)
    ensures r.Some? ==> |r.value.1| < |s|
    decreases |s|, 4
  {
    match ParseValue(s)
    case None => None
    case Some((v, rest)) =>
      if |rest| > 0 && rest[0] == ',' then
        match ParseItems(rest[1..])
        case None => None
        case Some((vs, rest')) => Some(([v] + vs, rest'))
      else if |rest| > 0 && rest[0] == ']' then Some(([v], rest[1..]))
      else None
  }

  /** The members of a non-empty object, up to and including its `}`. */
  function ParseMembers(s: string): (r: Option<(seq<Member>, string)>)
    ensures r.Some? ==> |r.value.1| < |s|
    decreases |s|, 4
  {
    var t := SkipWs(s);
    if |t| == 0 || t[0] != '"' then None
    else
      match ParseString(t[1..])
      case None => None
      case Some((key, afterKey)) =>
        var colon := SkipWs(afterKey);
        if |colon| == 0 || colon[0] != ':' then None
        else
          match ParseValue(colon[1..])
          case None => None
          case Some((v, rest)) =>
            if |rest| > 0 && rest[0] == ',' then
              match ParseMembers(rest[1..])
              case None => None
              case Some((ms, rest')) => Some(([Member(key, v)] + ms, rest'))
            else if |rest| > 0 && rest[0] == '}' then Some(([Member(key, v)], rest[1..]))
            else None
  }

  /** `JSON.parse`: a whole text that is one value, with white space
      around it; anything else is a syntax error (None). */
  function Parse(text: string): Option<Json> {
    match ParseValue(text)
    case Some((v, rest)) => if rest == "" then Some(v) else None
    case None => None
  }

  // ---------------------------------------------------------------- round trip

  /** What may follow a value inside a JSON text. */
  predicate Follows(tail: string) {
    tail == [] || tail[0] == ',' || tail[0] == ']' || tail[0] == '}'
  }

  lemma EscapeCharRead(c: char, tail: string)
    ensures ParseString(EscapeChar(c) + tail) == Prepend(c, ParseString(tail))
  {
    var e := EscapeChar(c);
    var s := e + tail;
    assert s[|e|..] == tail;
    if c < ' ' && c != '\U{0008}' && c != '\U{000C}' && c != '\n' && c != '\r' && c != '\t' {
      var hi, lo := c as int / 16, c as int % 16;
      assert s[0] == '\\' && s[1] == 'u' && s[2] == '0' && s[3] == '0';
      assert s[4] == Hex(hi) && s[5] == Hex(lo);
      assert HexValue(Hex(hi)) == Some(hi);
      assert HexValue(Hex(lo)) == Some(lo);
      assert Unescape(s) == Some((c, 6));
    }
  }

  /** Four lower-case hex digits for a UTF-16 code unit. */
  function HexDigits4(n: nat): (r: string)
    requires n < 0x1_0000
    ensures |r| == 4
  {
    [Hex(n / 16 / 16 / 16), Hex(n / 16 / 16 % 16), Hex(n / 16 % 16), Hex(n % 16)]
  }

  /** A character beyond the basic plane written as the `\u` escapes of
      its UTF-16 surrogate pair, as other JSON writers may leave it. */
  function SurrogateEscape(c: char): (r: string)
    requires c as int >= 0x1_0000
    ensures |r| == 12
  {
    var u := c as int - 0x1_0000;
    "\\u" + HexDigits4(0xD800 + u / 0x400) + "\\u" + HexDigits4(0xDC00 + u % 0x400)
  }

  lemma HexDigitRead(d: nat)
    requires d < 16
    ensures HexValue(Hex(d)) == Some(d)
  {
  }

  lemma HexDigits4Read(n: nat, tail: string)
    requires n < 0x1_0000
    ensures Hex4(HexDigits4(n) + tail) == Some(n)
  {
    var m1 := n / 16;
    var m2 := m1 / 16;
    var s := HexDigits4(n) + tail;
    HexDigitRead(m2 / 16);
    HexDigitRead(m2 % 16);
    HexDigitRead(m1 % 16);
    HexDigitRead(n % 16);
    assert HexValue(s[0]) == Some(m2 / 16) && HexValue(s[1]) == Some(m2 % 16);
    assert HexValue(s[2]) == Some(m1 % 16) && HexValue(s[3]) == Some(n % 16);
    assert ((m2 / 16 * 16 + m2 % 16) * 16 + m1 % 16) * 16 + n % 16 == n;
  }

  /** The high and low halves of a code point beyond the basic plane
      fall in their surrogate ranges and recombine into it. */
  lemma SurrogateHalves(u: int)
    requires 0 <= u < 0x10_0000
    ensures 0xD800 <= 0xD800 + u / 0x400 < 0xDC00 <= 0xDC00 + u % 0x400 < 0xE000
    ensures (u / 0x400) * 0x400 + u % 0x400 == u
  {
  }

  /** Two escapes holding a high and then a low surrogate read as the
      code point they encode. */
  lemma UnescapePair(hi: nat, lo: nat, tail: string)
    requires 0xD800 <= hi < 0xDC00 <= lo < 0xE000
    ensures Unescape("\\u" + HexDigits4(hi) + "\\u" + HexDigits4(lo) + tail)
            == Some(((0x1_0000 + (hi - 0xD800) * 0x400 + (lo - 0xDC00)) as char, 12))
  {
    var s := "\\u" + HexDigits4(hi) + "\\u" + HexDigits4(lo) + tail;
    assert s[2..] == HexDigits4(hi) + s[6..];
    HexDigits4Read(hi, s[6..]);
    assert s[8..] == HexDigits4(lo) + tail;
    HexDigits4Read(lo, tail);
  }

  /** The two escapes of a surrogate pair recombine into the character. */
  lemma SurrogateUnescape(c: char, tail: string)
    requires c as int >= 0x1_0000
    ensures Unescape(SurrogateEscape(c) + tail) == Some((c, 12))
  {
    var u := c as int - 0x1_0000;
    var hi, lo := 0xD800 + u / 0x400, 0xDC00 + u % 0x400;
    SurrogateHalves(u);
    assert SurrogateEscape(c) == "\\u" + HexDigits4(hi) + "\\u" + HexDigits4(lo);
    UnescapePair(hi, lo, tail);
    assert 0x1_0000 + (hi - 0xD800) * 0x400 + (lo - 0xDC00) == c as int;
  }

  /** A surrogate-pair escape reads as the one character it encodes. */
  lemma SurrogateRead(c: char, tail: string)
    requires c as int >= 0x1_0000
    ensures ParseString(SurrogateEscape(c) + tail) == Prepend(c, ParseString(tail))
  {
    var s := SurrogateEscape(c) + tail;
    SurrogateUnescape(c, tail);
    assert s[12..] == tail;
  }

  lemma {:induction false} EscapeRead(t: string, tail: string)
    ensures ParseString(Escape(t) + "\"" + tail) == Some((t, tail))
  {
    if |t| == 0 {
      assert Escape(t) + "\"" + tail == "\"" + tail;
    } else {
      var rest := Escape(t[1..]) + "\"" + tail;
      assert Escape(t) + "\"" + tail == EscapeChar(t[0]) + rest;
      EscapeCharRead(t[0], rest);
      EscapeRead(t[1..], tail);
      assert [t[0]] + t[1..] == t;
    }
  }

  lemma QuoteRead(t: string, tail: string)
    ensures |Quote(t) + tail| > 0 && (Quote(t) + tail)[0] == '"'
    ensures ParseString((Quote(t) + tail)[1..]) == Some((t, tail))
  {
    assert (Quote(t) + tail)[1..] == Escape(t) + "\"" + tail;
    EscapeRead(t, tail);
  }

  lemma {:induction false} DigitRunOfNumeral(ds: string, tail: string)
    requires forall i :: 0 <= i < |ds| ==> IsDigit(ds[i])
    requires tail == [] || !IsDigit(tail[0])
    ensures DigitRun(ds + tail) == |ds|
  {
    if |ds| > 0 {
      assert (ds + tail)[1..] == ds[1..] + tail;
      DigitRunOfNumeral(ds[1..], tail);
    } else {
      assert ds + tail == tail;
    }
  }

  lemma NumeralRead(m: nat, tail: string)
    requires tail == [] || !IsDigit(tail[0])
    ensures var ds := NatToString(m);
            var body := ds + tail;
            DigitRun(body) == |ds| && body[..|ds|] == ds && body[|ds|..] == tail
            && DigitsValue(ds) == m && body[0] == ds[0]
  {
    var ds := NatToString(m);
    DigitRunOfNumeral(ds, tail);
    assert (ds + tail)[..|ds|] == ds && (ds + tail)[|ds|..] == tail;
    NatToStringValue(m);
  }

  /** One step of ParseNumber, with its intermediate values named. */
  lemma ParseNumberOn(s: string, neg: bool, body: string, k: nat)
    requires neg == (|s| > 0 && s[0] == '-') && body == (if neg then s[1..] else s)
    requires k == DigitRun(body) && k > 0 && (body[0] != '0' || k == 1)
    ensures ParseNumber(s) == Some((JNum(if neg then -(DigitsValue(body[..k]) as int) else DigitsValue(body[..k])), body[k..]))
  {
  }

  lemma NegativeRead(m: nat, tail: string)
    requires m > 0 && (tail == [] || !IsDigit(tail[0]))
    ensures ParseNumber("-" + NatToString(m) + tail) == Some((JNum(-(m as int)), tail))
  {
    var ds := NatToString(m);
    var body := ds + tail;
    var s := "-" + NatToString(m) + tail;
    assert s == "-" + body;
    assert s[1..] == body;
    NumeralRead(m, tail);
    ParseNumberOn(s, true, body, |ds|);
  }

  lemma NonNegativeRead(m: nat, tail: string)
    requires tail == [] || !IsDigit(tail[0])
    ensures ParseNumber(NatToString(m) + tail) == Some((JNum(m), tail))
  {
    var ds := NatToString(m);
    NumeralRead(m, tail);
    assert IsDigit((ds + tail)[0]);
    ParseNumberOn(ds + tail, false, ds + tail, |ds|);
  }

  lemma NumberRead(n: int, tail: string)
    requires tail == [] || !IsDigit(tail[0])
    ensures ParseNumber(IntToString(n) + tail) == Some((JNum(n), tail))
  {
    if n < 0 {
      NegativeRead(-n, tail);
      assert IntToString(n) + tail == "-" + NatToString(-n) + tail;
    } else {
      NonNegativeRead(n, tail);
    }
  }

  lemma LiteralRead(v: Json, tail: string)
    requires v.JNull? || v.JBool?
    ensures ParseBare(Serialize(v) + tail) == Some((v, tail))
  {
    var s := Serialize(v) + tail;
    var lit := Serialize(v);
    assert s[..|lit|] == lit && s[|lit|..] == tail;
    assert s[0] == lit[0];
  }

  lemma NumberValueRead(n: int, tail: string)
    requires tail == [] || !IsDigit(tail[0])
    ensures ParseBare(Serialize(JNum(n)) + tail) == Some((JNum(n), tail))
  {
    var s := IntToString(n) + tail;
    NumberRead(n, tail);
    assert s[0] == IntToString(n)[0];
    assert s[0] == '-' || IsDigit(s[0]);
  }

  lemma StringValueRead(t: string, tail: string)
    ensures ParseBare(Serialize(JStr(t)) + tail) == Some((JStr(t), tail))
  {
    QuoteRead(t, tail);
  }

  /** A written value followed by a comma, a closing bracket or the end is
      read back as that value. */
  lemma {:induction false} ValueRead(v: Json, tail: string)
    requires Follows(tail)
    ensures ParseValue(Serialize(v) + tail) == Some((v, tail))
    decreases v, 3
  {
    var s := Serialize(v) + tail;
    assert SkipWs(s) == s by {
      assert s[0] == Serialize(v)[0];
    }
    BareRead(v, tail);
  }

  /** A written value is read back, white space not skipped, whatever
      follows that does not extend a number. */
  lemma {:induction false} BareRead(v: Json, tail: string)
    requires tail == [] || !IsDigit(tail[0])
    ensures ParseBare(Serialize(v) + tail) == Some((v, tail))
    decreases v, 2
  {
    match v
    case JNull => LiteralRead(v, tail);
    case JBool(_) => LiteralRead(v, tail);
    case JNum(n) => NumberValueRead(n, tail);
    case JStr(t) => StringValueRead(t, tail);
    case JArr(items) =>
      ArrayRead(items, tail);
      var s := Serialize(v) + tail;
      assert s[0] == '[';
    case JObj(ms) =>
      ObjectRead(ms, tail);
      var s := Serialize(v) + tail;
      assert s[0] == '{';
  }

  lemma {:induction false} ArrayRead(items: seq<Json>, tail: string)
    ensures ParseArray(Serialize(JArr(items)) + tail) == Some((JArr(items), tail))
    decreases items, 1
  {
    var s := Serialize(JArr(items)) + tail;
    if |items| == 0 {
      assert s[1..] == "]" + tail && s[2..] == tail;
    } else {
      var inner := SerializeItems(items);
      assert s == "[" + (inner + "]" + tail);
      assert s[1..] == inner + "]" + tail;
      assert s[1] == inner[0];
      assert SkipWs(s[1..]) == s[1..];
      ItemsRead(items, tail);
    }
  }

  lemma {:induction false} ObjectRead(ms: seq<Member>, tail: string)
    ensures ParseObject(Serialize(JObj(ms)) + tail) == Some((JObj(ms), tail))
    decreases ms, 3
  {
    var s := Serialize(JObj(ms)) + tail;
    if |ms| == 0 {
      assert s[1..] == "}" + tail && s[2..] == tail;
    } else {
      var inner := SerializeMembers(ms);
      assert s == "{" + (inner + "}" + tail);
      assert s[1..] == inner + "}" + tail;
      assert s[1] == inner[0];
      assert SkipWs(s[1..]) == s[1..];
      MembersRead(ms, tail);
    }
  }

  lemma {:induction false} ItemsRead(items: seq<Json>, tail: string)
    requires |items| > 0
    ensures ParseItems(SerializeItems(items) + "]" + tail) == Some((items, tail))
    decreases items, 0
  {
    var s := SerializeItems(items) + "]" + tail;
    if |items| == 1 {
      assert s == Serialize(items[0]) + ("]" + tail);
      ValueRead(items[0], "]" + tail);
      assert ("]" + tail)[1..] == tail;
      assert [items[0]] == items;
    } else {
      var more := "," + (SerializeItems(items[1..]) + "]" + tail);
      assert s == Serialize(items[0]) + more;
      ValueRead(items[0], more);
      assert more[1..] == SerializeItems(items[1..]) + "]" + tail;
      ItemsRead(items[1..], tail);
      assert [items[0]] + items[1..] == items;
    }
  }

  /** Regrouping four strings. */
  lemma Assoc(a: string, b: string, c: string, d: string)
    ensures a + b + c + d == a + (b + c + d)
  {
  }

  /** How ParseMembers proceeds once its first member has been read. */
  lemma MembersStep(s: string, m: Member, afterKey: string, rest: string)
    requires |s| > 0 && s[0] == '"'
    requires ParseString(s[1..]) == Some((m.key, afterKey))
    requires |afterKey| > 0 && afterKey[0] == ':'
    requires ParseValue(afterKey[1..]) == Some((m.value, rest))
    requires |rest| > 0 && (rest[0] == ',' || rest[0] == '}')
    ensures rest[0] == '}' ==> ParseMembers(s) == Some(([m], rest[1..]))
    ensures rest[0] == ',' ==> ParseMembers(s) ==
                                 match ParseMembers(rest[1..])
                                 case None => None
                                 case Some((ms, rest')) => Some(([m] + ms, rest'))
  {
    assert SkipWs(s) == s && SkipWs(afterKey) == afterKey;
    assert Member(m.key, m.value) == m;
  }

  /** The key of a written member is read up to the colon. */
  lemma KeyRead(m: Member, rest: string)
    ensures var s := SerializeMember(m) + rest;
            |s| > 0 && s[0] == '"' && ParseString(s[1..]) == Some((m.key, [':'] + (Serialize(m.value) + rest)))
  {
    Assoc(Quote(m.key), ":", Serialize(m.value), rest);
    assert ":" + Serialize(m.value) + rest == [':'] + (Serialize(m.value) + rest);
    QuoteRead(m.key, [':'] + (Serialize(m.value) + rest));
  }

  /** A written member followed by a comma or a closing brace is read as
      that member. */
  lemma {:induction false} MemberFirst(m: Member, rest: string)
    requires |rest| > 0 && (rest[0] == ',' || rest[0] == '}')
    decreases m, 1
    ensures rest[0] == '}' ==> ParseMembers(SerializeMember(m) + rest) == Some(([m], rest[1..]))
    ensures rest[0] == ',' ==> ParseMembers(SerializeMember(m) + rest) ==
                                 match ParseMembers(rest[1..])
                                 case None => None
                                 case Some((ms, rest')) => Some(([m] + ms, rest'))
  {
    var body := Serialize(m.value);
    var afterKey := [':'] + (body + rest);
    KeyRead(m, rest);
    assert afterKey[1..] == body + rest;
    assert ParseValue(afterKey[1..]) == Some((m.value, rest)) by {
      ValueRead(m.value, rest);
    }
    MembersStep(SerializeMember(m) + rest, m, afterKey, rest);
  }

  lemma {:induction false} MembersRead(ms: seq<Member>, tail: string)
    requires |ms| > 0
    ensures ParseMembers(SerializeMembers(ms) + "}" + tail) == Some((ms, tail))
    decreases ms, 2
  {
    if |ms| == 1 {
      LastMemberRead(ms[0], tail);
      assert [ms[0]] == ms;
    } else {
      MoreMembersRead(ms, tail);
    }
  }

  lemma {:induction false} LastMemberRead(m: Member, tail: string)
    ensures ParseMembers(SerializeMembers([m]) + "}" + tail) == Some(([m], tail))
    decreases m, 2
  {
    var rest := "}" + tail;
    assert SerializeMembers([m]) + "}" + tail == SerializeMember(m) + rest;
    MemberFirst(m, rest);
    assert rest[1..] == tail;
  }

  /** Reading a first member and a comma leaves the remaining members. */
  lemma {:induction false} MoreMembersStep(ms: seq<Member>, tail: string)
    requires |ms| > 1
    ensures ParseMembers(SerializeMembers(ms) + "}" + tail) ==
              match ParseMembers(SerializeMembers(ms[1..]) + "}" + tail)
              case None => None
              case Some((xs, r)) => Some(([ms[0]] + xs, r))
    decreases ms, 0
  {
    var more := SerializeMembers(ms[1..]) + "}" + tail;
    var rest := "," + more;
    assert SerializeMembers(ms) + "}" + tail == SerializeMember(ms[0]) + rest by {
      assert SerializeMembers(ms) == SerializeMember(ms[0]) + "," + SerializeMembers(ms[1..]);
      Assoc(SerializeMember(ms[0]), ",", SerializeMembers(ms[1..]), "}" + tail);
    }
    assert rest[1..] == more;
    MemberFirst(ms[0], rest);
  }

  lemma {:induction false} MoreMembersRead(ms: seq<Member>, tail: string)
    requires |ms| > 1
    ensures ParseMembers(SerializeMembers(ms) + "}" + tail) == Some((ms, tail))
    decreases ms, 1
  {
    MoreMembersStep(ms, tail);
    MembersRead(ms[1..], tail);
    assert [ms[0]] + ms[1..] == ms;
  }

  /** `JSON.parse(JSON.stringify(v))` gives `v` back. */
  lemma ParseSerialize(v: Json)
    ensures Parse(Serialize(v)) == Some(v)
  {
    ValueRead(v, "");
    assert Serialize(v) + "" == Serialize(v);
  }

  predicate AllWs(s: string) {
    forall i :: 0 <= i < |s| ==> IsWs(s[i])
  }

  lemma {:induction false} SkipLeadingWs(ws: string, s: string)
    requires AllWs(ws)
    ensures SkipWs(ws + s) == SkipWs(s)
  {
    if |ws| > 0 {
      assert (ws + s)[1..] == ws[1..] + s;
      SkipLeadingWs(ws[1..], s);
    } else {
      assert ws + s == s;
    }
  }

  /** The white space `JSON.parse` allows before and after a value does not
      change what the text of a value reads as. */
  lemma ParsePadded(v: Json, before: string, after: string)
    requires AllWs(before) && AllWs(after)
    ensures Parse(before + Serialize(v) + after) == Some(v)
  {
    var s := Serialize(v) + after;
    assert before + Serialize(v) + after == before + s;
    SkipLeadingWs(before, s);
    assert SkipWs(s) == s by {
      assert s[0] == Serialize(v)[0];
    }
    BareRead(v, after);
    SkipLeadingWs(after, "");
    assert after + "" == after;
  }
}
