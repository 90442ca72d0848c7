/**
 * The part of `JSON.parse` and `JSON.stringify` that the scan payload goes
 * through: a parser for the JSON grammar (objects, arrays, strings with their
 * escapes, numbers with fraction and exponent, literals, white space between
 * tokens) and a serializer that writes no white space. Numbers are kept exactly
 * as `mantissa * 10^exponent`, not rounded to a double. A character here is a
 * Unicode scalar value: an escaped surrogate pair is read as the character it
 * encodes, and a lone escaped surrogate, which `JSON.parse` would keep, is
 * rejected.
 */
module Json {
  import opened Wrappers
  import opened Text

  datatype Json =
    | JNull
    | JBool(b: bool)
    | JNumber(mantissa: int, exponent: int)
    | JString(text: string)
    | JArray(items: seq<Json>)
    | JObject(members: seq<Member>)

  datatype Member = Member(key: string, value: Json)

  /** What a parser read, and the input it left over. */
  datatype Parsed<T> = Parsed(value: T, rest: string)

  /** The four white-space characters JSON allows between tokens. */
  predicate IsJsonSpace(c: char) {
    c == ' ' || c == '\t' || c == '\n' || c == '\r'
  }

  function SkipSpace(s: string): (r: string)
    ensures |r| <= |s|
    ensures r == [] || !IsJsonSpace(r[0])
  {
    if s != [] && IsJsonSpace(s[0]) then SkipSpace(s[1..]) else s
  }

  // ---------------------------------------------------------------- strings

  /** The value of exactly four hexadecimal digits. */
  predicate IsHex4(s: string) {
    |s| >= 4 && IsHexDigit(s[0]) && IsHexDigit(s[1]) && IsHexDigit(s[2]) && IsHexDigit(s[3])
  }

  /** The value of the four hexadecimal digits `s` starts with. */
  function Hex4(s: string): (n: nat)
    requires IsHex4(s)
    ensures n < 0x1_0000
  {
    HexDigitValue(s[0]) * 0x1000 + HexDigitValue(s[1]) * 0x100 + HexDigitValue(s[2]) * 0x10 + HexDigitValue(s[3])
  }

  /** A high (leading) surrogate code unit. */
  predicate IsHighSurrogate(code: int) {
    0xD800 <= code < 0xDC00
  }

  /** A low (trailing) surrogate code unit. */
  predicate IsLowSurrogate(code: int) {
    0xDC00 <= code < 0xE000
  }

  /** The code point that a high and a low surrogate encode together in UTF-16. */
  function CodePointOfPair(hi: int, lo: int): (c: char)
    requires IsHighSurrogate(hi) && IsLowSurrogate(lo)
    ensures 0x1_0000 <= c as int < 0x11_0000
    ensures (c as int - 0x1_0000) / 0x400 == hi - 0xD800 && (c as int - 0x1_0000) % 0x400 == lo - 0xDC00
  {
    (0x1_0000 + (hi - 0xD800) * 0x400 + (lo - 0xDC00)) as char
  }

  /** A second escape `\uXXXX` holding a low surrogate. */
  predicate LowSurrogateEscape(s: string) {
    |s| >= 2 && s[0] == '\\' && s[1] == 'u' && IsHex4(s[2..]) && IsLowSurrogate(Hex4(s[2..]))
  }

  /**
   * Reads the character after a backslash: one of `"\/bfnrt`, or `u` and four
   * hexadecimal digits. A high surrogate must be followed by the escape of a
   * low surrogate, and the pair is read as the one character it encodes.
   */
  function ParseEscape(s: string): (r: Option<Parsed<char>>)
    ensures r.Some? ==> |r.value.rest| < |s|
  {
    if s == [] then None
    else if s[0] == '"' then Some(Parsed('"', s[1..]))
    else if s[0] == '\\' then Some(Parsed('\\', s[1..]))
    else if s[0] == '/' then Some(Parsed('/', s[1..]))
    else if s[0] == 'b' then Some(Parsed('\U{0008}', s[1..]))
    else if s[0] == 'f' then Some(Parsed('\U{000C}', s[1..]))
    else if s[0] == 'n' then Some(Parsed('\n', s[1..]))
    else if s[0] == 'r' then Some(Parsed('\r', s[1..]))
    else if s[0] == 't' then Some(Parsed('\t', s[1..]))
    else if s[0] == 'u' && IsHex4(s[1..]) then
      var code := Hex4(s[1..]);
      if IsLowSurrogate(code) then None
      else if IsHighSurrogate(code) then
        if LowSurrogateEscape(s[5..]) then Some(Parsed(CodePointOfPair(code, Hex4(s[7..])), s[11..]))
        else None
      else Some(Parsed(code as char, s[5..]))
    else None
  }

  /** Reads the characters of a string literal after its opening quote, up to and including the closing quote. */
  function ParseStringBody(s: string): (r: Option<Parsed<string>>)
    ensures r.Some? ==> |r.value.rest| < |s|
    decreases |s|
  {
    if s == [] then None
    else if s[0] == '"' then Some(Parsed([], s[1..]))
    else if s[0] == '\\' then
      match ParseEscape(s[1..])
      case None => None
      case Some(e) =>
        match ParseStringBody(e.rest)
        case None => None
        case Some(p) => Some(Parsed([e.value] + p.value, p.rest))
    else if (s[0] as int) < 0x20 then None
    else
      match ParseStringBody(s[1..])
      case None => None
      case Some(p) => Some(Parsed([s[0]] + p.value, p.rest))
  }

  function HexChar(d: nat): (c: char)
    requires d < 16
    ensures IsHexDigit(c) && HexDigitValue(c) == d
  {
    if d < 10 then DigitChar(d) else (d - 10 + 'a' as int) as char
  }

  /** How `JSON.stringify` writes one character inside a string literal. */
  function EscapeChar(c: char): string {
    if c == '"' then "\\\""
    else if c == '\\' then "\\\\"
    else if c == '\U{0008}' then "\\b"
    else if c == '\U{000C}' then "\\f"
    else if c == '\n' then "\\n"
    else if c == '\r' then "\\r"
    else if c == '\t' then "\\t"
    else if (c as int) < 0x20 then "\\u00" + [HexChar((c as int) / 16), HexChar((c as int) % 16)]
    else [c]
  }

  function EscapeText(s: string): string {
    if s == [] then [] else EscapeChar(s[0]) + EscapeText(s[1..])
  }

  // ---------------------------------------------------------------- numbers

  /** The integer part of a number: a lone "0", or a run of digits not starting with '0'. */
  function IntegerDigits(u: string): (r: string)
    ensures |r| <= |u| && r == u[..|r|] && AllDigits(r)
  {
    if u != [] && u[0] == '0' then u[..1] else LeadingDigits(u)
  }

  /** An optional fraction: '.' and at least one digit; the digits are returned. */
  function ParseFraction(v: string): (r: Option<Parsed<string>>)
    ensures r.Some? ==> AllDigits(r.value.value) && |r.value.rest| <= |v|
  {
    if v != [] && v[0] == '.' then
      var d := LeadingDigits(v[1..]);
      if d == [] then None else Some(Parsed(d, v[1 + |d|..]))
    else Some(Parsed([], v))
  }

  /** An optional sign and at least one digit. */
  function ParseSignedInt(x: string): (r: Option<Parsed<int>>)
    ensures r.Some? ==> |r.value.rest| < |x|
  {
    var negative := x != [] && x[0] == '-';
    var y := if x != [] && (x[0] == '-' || x[0] == '+') then x[1..] else x;
    var d := LeadingDigits(y);
    if d == [] then None
    else
      var e: int := DecimalValue(d);
      Some(Parsed(if negative then -e else e, y[|d|..]))
  }

  /** An optional exponent: 'e' or 'E' and a signed integer; absent means 0. */
  function ParseExponent(w: string): (r: Option<Parsed<int>>)
    ensures r.Some? ==> |r.value.rest| <= |w|
  {
    if w != [] && (w[0] == 'e' || w[0] == 'E') then ParseSignedInt(w[1..])
    else Some(Parsed(0, w))
  }

  /** Reads a number token: `-? int frac? exp?`. */
  function ParseNumber(s: string): (r: Option<Parsed<Json>>)
    ensures r.Some? ==> |r.value.rest| < |s|
  {
    var negative := s != [] && s[0] == '-';
    var u := if negative then s[1..] else s;
    var intPart := IntegerDigits(u);
    if intPart == [] then None
    else NumberAfterInteger(negative, intPart, u[|intPart|..])
  }

  /** The rest of a number token once its sign and integer digits are read. */
  function NumberAfterInteger(negative: bool, intPart: string, v: string): (r: Option<Parsed<Json>>)
    requires AllDigits(intPart)
    ensures r.Some? ==> |r.value.rest| <= |v|
  {
    match ParseFraction(v)
    case None => None
    case Some(f) =>
      match ParseExponent(f.rest)
      case None => None
      case Some(x) =>
        AllDigitsConcat(intPart, f.value);
        var magnitude: int := DecimalValue(intPart + f.value);
        Some(Parsed(JNumber(if negative then -magnitude else magnitude, x.value - |f.value|), x.rest))
  }

  lemma AllDigitsConcat(a: string, b: string)
    requires AllDigits(a) && AllDigits(b)
    ensures AllDigits(a + b)
  {
  }

  // ---------------------------------------------------------------- values

  /** Reads one value after optional white space. */
  function ParseValue(s: string): (r: Option<Parsed<Json>>)
    ensures r.Some? ==> |r.value.rest| < |s|
    decreases |s|, 2
  {
    var t := SkipSpace(s);
    if t == [] then None
    else if t[0] == '{' then ParseObject(t[1..])
    else if t[0] == '[' then ParseArray(t[1..])
    else if t[0] == '"' then
      match ParseStringBody(t[1..])
      case None => None
      case Some(p) => Some(Parsed(JString(p.value), p.rest))
    else if t[0] == '-' || IsDigit(t[0]) then ParseNumber(t)
    else if StartsWith(t, "null") then Some(Parsed(JNull, t[4..]))
    else if StartsWith(t, "true") then Some(Parsed(JBool(true), t[4..]))
    else if StartsWith(t, "false") then Some(Parsed(JBool(false), t[5..]))
    else None
  }

  /** Reads the rest of an array after its '['. */
  function ParseArray(s: string): (r: Option<Parsed<Json>>)
    ensures r.Some? ==> |r.value.rest| < |s|
    decreases |s|, 4
  {
    var t := SkipSpace(s);
    if t != [] && t[0] == ']' then Some(Parsed(JArray([]), t[1..]))
    else ParseItems(t, [])
  }

  /** Reads `value (',' value)* ']'`, appending the values to `acc`. */
  function ParseItems(s: string, acc: seq<Json>): (r: Option<Parsed<Json>>)
    ensures r.Some? ==> |r.value.rest| < |s|
    decreases |s|, 3
  {
    match ParseValue(s)
    case None => None
    case Some(v) =>
      var w := SkipSpace(v.rest);
      if w == [] then None
      else if w[0] == ',' then ParseItems(w[1..], acc + [v.value])
      else if w[0] == ']' then Some(Parsed(JArray(acc + [v.value]), w[1..]))
      else None
  }

  /** Reads the rest of an object after its '{'. */
  function ParseObject(s: string): (r: Option<Parsed<Json>>)
    ensures r.Some? ==> |r.value.rest| < |s|
    decreases |s|, 4
  {
    var t := SkipSpace(s);
    if t != [] && t[0] == '}' then Some(Parsed(JObject([]), t[1..]))
    else ParseMembers(t, [])
  }

  /** Reads one member, `string ':' value`, after optional white space. */
  function ParseMember(s: string): (r: Option<Parsed<Member>>)
    ensures r.Some? ==> |r.value.rest| < |s|
    decreases |s|, 2
  {
    var t := SkipSpace(s);
    if t == [] || t[0] != '"' then None
    else
      match ParseStringBody(t[1..])
      case None => None
      case Some(k) =>
        var u := SkipSpace(k.rest);
        if u == [] || u[0] != ':' then None
        else
          match ParseValue(u[1..])
          case None => None
          case Some(v) => Some(Parsed(Member(k.value, v.value), v.rest))
  }

  /** Reads `member (',' member)* '}'`, appending the members to `acc`. */
  function ParseMembers(s: string, acc: seq<Member>): (r: Option<Parsed<Json>>)
    ensures r.Some? ==> |r.value.rest| < |s|
    decreases |s|, 3
  {
    match ParseMember(s)
    case None => None
    case Some(m) =>
      var w := SkipSpace(m.rest);
      if w == [] then None
      else if w[0] == ',' then ParseMembers(w[1..], acc + [m.value])
      else if w[0] == '}' then Some(Parsed(JObject(acc + [m.value]), w[1..]))
      else None
  }

  /** `JSON.parse`: one value, surrounded by optional white space, and nothing else; `None` is a thrown SyntaxError. */
  function Parse(s: string): Option<Json> {
    match ParseValue(s)
    case None => None
    case Some(p) => if SkipSpace(p.rest) == [] then Some(p.value) else None
  }

  // ---------------------------------------------------------------- serializer

  function ExponentText(e: int): string {
    if e == 0 then "" else "e" + IntText(e)
  }

  /** `JSON.stringify` without indentation. */
  function Serialize(v: Json): string
    decreases v
  {
    match v
    case JNull => "null"
    case JBool(b) => if b then "true" else "false"
    case JNumber(m, e) => IntText(m) + ExponentText(e)
    case JString(s) => "\"" + EscapeText(s) + "\""
    case JArray(items) => "[" + SerializeItems(items) + "]"
    case JObject(members) => "{" + SerializeMembers(members) + "}"
  }

  function SerializeItems(items: seq<Json>): string
    decreases items
  {
    if items == [] then ""
    else if |items| == 1 then Serialize(items[0])
    else Serialize(items[0]) + "," + SerializeItems(items[1..])
  }

  function SerializeMember(m: Member): string
    decreases m
  {
    "\"" + EscapeText(m.key) + "\":" + Serialize(m.value)
  }

  function SerializeMembers(members: seq<Member>): string
    decreases members
  {
    if members == [] then ""
    else if |members| == 1 then SerializeMember(members[0])
    else SerializeMember(members[0]) + "," + SerializeMembers(members[1..])
  }

  // ---------------------------------------------------------------- reading properties

  /** The last member named `name`: `JSON.parse` keeps the last of duplicated keys. */
  function LastMember(members: seq<Member>, name: string): (r: Option<Json>)
    ensures r.Some? <==> exists i :: 0 <= i < |members| && members[i].key == name
    ensures r.Some? ==> exists i :: 0 <= i < |members| && members[i].key == name && members[i].value == r.value
                          && forall j :: i < j < |members| ==> members[j].key != name
    decreases |members|
  {
    if members == [] then None
    else
      var last := members[|members| - 1];
      var init := members[..|members| - 1];
      if last.key == name then Some(last.value)
      else
        var r := LastMember(init, name);
        assert forall i :: 0 <= i < |init| ==> init[i] == members[i];
        r
  }

  /** A member whose name no later member repeats is the one `LastMember` finds. */
  lemma LastMemberAt(members: seq<Member>, name: string, i: nat)
    requires i < |members| && members[i].key == name
    requires forall j :: i < j < |members| ==> members[j].key != name
    ensures LastMember(members, name) == Some(members[i].value)
  {
    var r := LastMember(members, name);
    var k :| 0 <= k < |members| && members[k].key == name && members[k].value == r.value
             && forall j :: k < j < |members| ==> members[j].key != name;
    assert k == i;
  }

  /** `value.name` for a value `JSON.parse` returned (not `null`): only an object has properties. */
  function Property(v: Json, name: string): Option<Json> {
    if v.JObject? then LastMember(v.members, name) else None
  }

  function Pow10(n: nat): (p: nat)
    ensures p >= 1
  {
    if n == 0 then 1 else 10 * Pow10(n - 1)
  }

  /** The integer a JSON number denotes, if it denotes one. */
  function IntegralValue(mantissa: int, exponent: int): Option<int> {
    if exponent >= 0 then Some(mantissa * Pow10(exponent))
    else if mantissa % Pow10(-exponent) == 0 then Some(mantissa / Pow10(-exponent))
    else None
  }

  /** A JSON number denotes the integer `k` exactly when `mantissa * 10^exponent == k`. */
  lemma IntegralValueMeans(mantissa: int, exponent: int, k: int)
    ensures IntegralValue(mantissa, exponent) == Some(k) <==>
      if exponent >= 0 then k == mantissa * Pow10(exponent) else mantissa == k * Pow10(-exponent)
  {
    if exponent < 0 {
      var p := Pow10(-exponent);
      if mantissa == k * p {
        DivideExact(k, p);
      }
    }
  }

  lemma DivideExact(k: int, p: nat)
    requires p >= 1
    ensures (k * p) % p == 0 && (k * p) / p == k
  {
    var a := k * p;
    var q, r := a / p, a % p;
    assert (k - q) * p == r by {
      assert a == q * p + r;
      assert (k - q) * p == k * p - q * p;
    }
    NoMultipleBelow(k - q, p, r);
  }

  /** The only multiple of `p` in `[0, p)` is zero. */
  lemma NoMultipleBelow(d: int, p: int, r: int)
    requires p >= 1 && 0 <= r < p && d * p == r
    ensures d == 0 && r == 0
  {
    if d >= 1 {
      MulAtLeast(d, p);
    }
  }

  lemma MulAtLeast(x: int, p: int)
    requires x >= 1 && p >= 1
    ensures x * p >= p
  {
  }
}
