/**
 * `JSON.parse` reads back what `JSON.stringify` writes: the proof that the
 * serializer and the parser of module `Json` are inverse on every value.
 */
module JsonRoundTrip {
  import opened Wrappers
  import opened Text
  import opened Json


  /** What may follow a value inside a serialized document. */
  predicate Delimited(rest: string) {
    rest == [] || rest[0] == ',' || rest[0] == ']' || rest[0] == '}'
  }

  /** The reading of a string body that starts with the character `c` and continues with `tail`. */
  function ReadOn(c: char, tail: string): Option<Parsed<string>> {
    match ParseStringBody(tail)
    case None => None
    case Some(p) => Some(Parsed([c] + p.value, p.rest))
  }

  /** The characters `JSON.stringify` escapes with a backslash and a letter. */
  predicate ShortEscaped(c: char) {
    c == '"' || c == '\\' || c == '\U{0008}' || c == '\U{000C}' || c == '\n' || c == '\r' || c == '\t'
  }

  lemma ShortEscapeRoundTrip(c: char, tail: string)
    requires ShortEscaped(c)
    ensures ParseStringBody(EscapeChar(c) + tail) == ReadOn(c, tail)
  {
    var s := EscapeChar(c) + tail;
    assert |EscapeChar(c)| == 2 && EscapeChar(c)[0] == '\\';
    assert s[0] == '\\';
    assert s[1..] == [EscapeChar(c)[1]] + tail;
    assert ParseEscape(s[1..]) == Some(Parsed(c, tail));
  }

  lemma UnicodeEscapeRoundTrip(c: char, tail: string)
    requires !ShortEscaped(c) && (c as int) < 0x20
    ensures ParseStringBody(EscapeChar(c) + tail) == ReadOn(c, tail)
  {
    var h := [HexChar((c as int) / 16), HexChar((c as int) % 16)];
    var s := EscapeChar(c) + tail;
    assert s == "\\u00" + h + tail;
    var e := s[1..];
    assert e == "u00" + h + tail;
    assert e[1..5] == "00" + h;
    assert Hex4(e[1..]) == c as int;
    assert e[5..] == tail;
    assert ParseEscape(e) == Some(Parsed(c, tail));
  }

  lemma PlainCharRoundTrip(c: char, tail: string)
    requires !ShortEscaped(c) && (c as int) >= 0x20
    ensures ParseStringBody(EscapeChar(c) + tail) == ReadOn(c, tail)
  {
    var s := EscapeChar(c) + tail;
    assert s == [c] + tail;
    assert s[1..] == tail;
  }

  /** Every character a string literal holds is read back after `JSON.stringify` escaped it. */
  lemma EscapeCharRoundTrip(c: char, tail: string)
    ensures ParseStringBody(EscapeChar(c) + tail) == ReadOn(c, tail)
  {
    if ShortEscaped(c) {
      ShortEscapeRoundTrip(c, tail);
    } else if (c as int) < 0x20 {
      UnicodeEscapeRoundTrip(c, tail);
    } else {
      PlainCharRoundTrip(c, tail);
    }
  }

  /** The escape `\uXXXX` of a UTF-16 code unit, with lower-case hexadecimal digits. */
  function UnicodeEscape(code: nat): (s: string)
    requires code < 0x1_0000
    ensures |s| == 6 && s[0] == '\\' && s[1] == 'u' && IsHex4(s[2..]) && Hex4(s[2..]) == code
  {
    var q1 := code / 16;
    var q2 := q1 / 16;
    assert q1 < 0x1000 && q2 < 0x100;
    var s := "\\u" + [HexChar(q2 / 16), HexChar(q2 % 16), HexChar(q1 % 16), HexChar(code % 16)];
    assert s[2..] == [HexChar(q2 / 16), HexChar(q2 % 16), HexChar(q1 % 16), HexChar(code % 16)];
    assert q2 / 16 * 0x1000 + q2 % 16 * 0x100 == q2 * 0x100;
    assert q2 * 0x100 + q1 % 16 * 0x10 == q1 * 0x10;
    s
  }

  /** A character outside the Basic Multilingual Plane written as the escapes of its two UTF-16 code units. */
  function PairEscape(c: char): string
    requires c as int >= 0x1_0000
  {
    var v := c as int - 0x1_0000;
    UnicodeEscape(0xD800 + v / 0x400) + UnicodeEscape(0xDC00 + v % 0x400)
  }

  /** An escaped surrogate pair, as other JSON writers produce it, is read as the one character it encodes. */
  lemma SurrogatePairRoundTrip(c: char, tail: string)
    requires c as int >= 0x1_0000
    ensures ParseStringBody(PairEscape(c) + tail) == ReadOn(c, tail)
  {
    var v := c as int - 0x1_0000;
    var hi, lo := 0xD800 + v / 0x400, 0xDC00 + v % 0x400;
    PairCodes(c);
    var s := UnicodeEscape(hi) + (UnicodeEscape(lo) + tail);
    assert PairEscape(c) + tail == s;
    PairEscapeRead(hi, lo, tail);
    BodyAtEscape(s, Parsed(c, tail));
  }

  /** A backslash and an escape, then the rest of the literal. */
  lemma BodyAtEscape(s: string, e: Parsed<char>)
    requires s != [] && s[0] == '\\' && ParseEscape(s[1..]) == Some(e)
    ensures ParseStringBody(s) == ReadOn(e.value, e.rest)
  {
  }

  /** The dispatch of `ParseEscape` on the escape of a high surrogate followed by that of a low one. */
  lemma EscapeAtPair(e: string)
    requires e != [] && e[0] == 'u' && IsHex4(e[1..]) && IsHighSurrogate(Hex4(e[1..]))
    requires LowSurrogateEscape(e[5..])
    ensures ParseEscape(e) == Some(Parsed(CodePointOfPair(Hex4(e[1..]), Hex4(e[5..][2..])), e[5..][6..]))
  {
    assert e[5..][2..] == e[7..] && e[5..][6..] == e[11..];
  }

  /** The two code units of a supplementary character are a high and a low surrogate that encode it. */
  lemma PairCodes(c: char)
    requires c as int >= 0x1_0000
    ensures var v := c as int - 0x1_0000;
            && IsHighSurrogate(0xD800 + v / 0x400) && IsLowSurrogate(0xDC00 + v % 0x400)
            && CodePointOfPair(0xD800 + v / 0x400, 0xDC00 + v % 0x400) == c
  {
    var v := c as int - 0x1_0000;
    assert CodePointOfPair(0xD800 + v / 0x400, 0xDC00 + v % 0x400) as int == c as int;
  }

  /** The pieces of a `\uXXXX` escape followed by more text. */
  lemma EscapeParts(code: nat, rest: string)
    requires code < 0x1_0000
    ensures var s := UnicodeEscape(code) + rest;
            && s[0] == '\\' && s[1..][0] == 'u' && s[1..][1..] == s[2..] && IsHex4(s[2..]) && Hex4(s[2..]) == code
            && s[1..][5..] == rest && s[6..] == rest
  {
    var s := UnicodeEscape(code) + rest;
    assert s[2..] == UnicodeEscape(code)[2..] + rest;
  }

  lemma PairEscapeRead(hi: int, lo: int, tail: string)
    requires IsHighSurrogate(hi) && IsLowSurrogate(lo)
    ensures var s := UnicodeEscape(hi) + (UnicodeEscape(lo) + tail);
            s[0] == '\\' && ParseEscape(s[1..]) == Some(Parsed(CodePointOfPair(hi, lo), tail))
  {
    var second := UnicodeEscape(lo) + tail;
    EscapeParts(hi, second);
    EscapeParts(lo, tail);
    var e := (UnicodeEscape(hi) + second)[1..];
    EscapeAtPair(e);
  }

  /** A string literal written by `JSON.stringify` is read back exactly. */
  lemma {:induction false} StringRoundTrip(text: string, rest: string)
    ensures ParseStringBody(EscapeText(text) + "\"" + rest) == Some(Parsed(text, rest))
  {
    if text == [] {
      assert EscapeText(text) + "\"" + rest == "\"" + rest;
    } else {
      var tail := EscapeText(text[1..]) + "\"" + rest;
      assert EscapeText(text) + "\"" + rest == EscapeChar(text[0]) + tail;
      StringRoundTrip(text[1..], rest);
      EscapeCharRoundTrip(text[0], tail);
      assert [text[0]] + text[1..] == text;
    }
  }

  /** `ParseSignedInt` in terms of the pieces it reads: an optional '-', then a run of digits. */
  lemma SignedIntParts(x: string, negative: bool, y: string, digits: string, n: int, rest: string)
    requires if negative then x != [] && x[0] == '-' && x[1..] == y else x == y && y != [] && IsDigit(y[0])
    requires LeadingDigits(y) == digits && digits != [] && DecimalValue(digits) == n
    requires y[|digits|..] == rest
    ensures ParseSignedInt(x) == Some(Parsed(if negative then -n else n, rest))
  {
  }

  /** A canonical integer numeral, followed by a non-digit, is read back. */
  lemma SignedIntRoundTrip(n: int, rest: string)
    requires rest == [] || !IsDigit(rest[0])
    ensures ParseSignedInt(IntText(n) + rest) == Some(Parsed(n, rest))
  {
    IntTextShape(n, rest);
    if n < 0 {
      NegativeRoundTrip(-n, rest);
    } else {
      NaturalRoundTrip(n, rest);
    }
  }

  lemma IntTextShape(n: int, rest: string)
    ensures IntText(n) + rest == if n < 0 then "-" + (NatText(-n) + rest) else NatText(n) + rest
  {
  }

  lemma NegativeRoundTrip(m: nat, rest: string)
    requires rest == [] || !IsDigit(rest[0])
    ensures ParseSignedInt("-" + (NatText(m) + rest)) == Some(Parsed(-(m as int), rest))
  {
    var y := NatText(m) + rest;
    DigitsThenRest(m, rest);
    Cons('-', y);
    SignedIntParts("-" + y, true, y, NatText(m), m, rest);
  }

  lemma NaturalRoundTrip(m: nat, rest: string)
    requires rest == [] || !IsDigit(rest[0])
    ensures ParseSignedInt(NatText(m) + rest) == Some(Parsed(m as int, rest))
  {
    var y := NatText(m) + rest;
    DigitsThenRest(m, rest);
    SignedIntParts(y, false, y, NatText(m), m, rest);
  }

  /** How the digits of a canonical numeral are read off the text that follows it. */
  lemma DigitsThenRest(m: nat, rest: string)
    requires rest == [] || !IsDigit(rest[0])
    ensures var y := NatText(m) + rest;
      y != [] && IsDigit(y[0]) && LeadingDigits(y) == NatText(m) && y[|NatText(m)|..] == rest
  {
    var digits := NatText(m);
    LeadingDigitsOf(digits, rest);
    assert (digits + rest)[|digits|..] == rest;
    assert (digits + rest)[0] == digits[0];
  }

  lemma ExponentAt(w: string)
    requires w != [] && w[0] == 'e'
    ensures ParseExponent(w) == ParseSignedInt(w[1..])
  {
  }

  lemma ExponentAbsent(w: string)
    requires Delimited(w)
    ensures ParseExponent(w) == Some(Parsed(0, w))
  {
  }

  /** The exponent written by the serializer is read back. */
  lemma ExponentRoundTrip(e: int, rest: string)
    requires Delimited(rest)
    ensures ParseExponent(ExponentText(e) + rest) == Some(Parsed(e, rest))
  {
    if e == 0 {
      assert ExponentText(e) + rest == rest;
      ExponentAbsent(rest);
    } else {
      var w := "e" + (IntText(e) + rest);
      assert ExponentText(e) + rest == w;
      assert w[1..] == IntText(e) + rest;
      ExponentAt(w);
      SignedIntRoundTrip(e, rest);
    }
  }

  lemma IntegerDigitsOfNatText(n: nat, after: string)
    requires after == [] || !IsDigit(after[0])
    ensures IntegerDigits(NatText(n) + after) == NatText(n)
  {
    var digits := NatText(n);
    var u := digits + after;
    if digits[0] == '0' {
      assert |digits| == 1;
      assert u[..1] == digits;
    } else {
      LeadingDigitsOf(digits, after);
    }
  }

  /** `ParseNumber` in terms of the pieces it reads: sign, integer digits, an absent fraction, an exponent. */
  lemma ParseNumberParts(s: string, negative: bool, u: string, digits: string, n: int, after: string, x: Parsed<int>)
    requires if negative then s != [] && s[0] == '-' && s[1..] == u else s == u && u != [] && u[0] != '-'
    requires IntegerDigits(u) == digits && digits != [] && DecimalValue(digits) == n
    requires u[|digits|..] == after
    requires ParseFraction(after) == Some(Parsed([], after))
    requires ParseExponent(after) == Some(x)
    ensures ParseNumber(s) == Some(Parsed(JNumber(if negative then -n else n, x.value), x.rest))
  {
    assert digits + [] == digits;
    if negative {
      SignedNumberParts(s, u, digits, n, after, x);
    } else {
      UnsignedNumberParts(s, digits, n, after, x);
    }
  }

  lemma SignedNumberParts(s: string, u: string, digits: string, n: int, after: string, x: Parsed<int>)
    requires s != [] && s[0] == '-' && s[1..] == u
    requires IntegerDigits(u) == digits && digits != [] && DecimalValue(digits + []) == n
    requires u[|digits|..] == after
    requires ParseFraction(after) == Some(Parsed([], after))
    requires ParseExponent(after) == Some(x)
    ensures ParseNumber(s) == Some(Parsed(JNumber(-n, x.value), x.rest))
  {
    NoFractionNumber(true, digits, after, x, n);
    assert ParseNumber(s) == NumberAfterInteger(true, digits, after);
  }

  lemma UnsignedNumberParts(s: string, digits: string, n: int, after: string, x: Parsed<int>)
    requires s != [] && s[0] != '-'
    requires IntegerDigits(s) == digits && digits != [] && DecimalValue(digits + []) == n
    requires s[|digits|..] == after
    requires ParseFraction(after) == Some(Parsed([], after))
    requires ParseExponent(after) == Some(x)
    ensures ParseNumber(s) == Some(Parsed(JNumber(n, x.value), x.rest))
  {
    NoFractionNumber(false, digits, after, x, n);
    assert ParseNumber(s) == NumberAfterInteger(false, digits, after);
  }

  /** The number read after integer digits that no fraction follows. */
  lemma NoFractionNumber(negative: bool, digits: string, after: string, x: Parsed<int>, n: int)
    requires AllDigits(digits) && DecimalValue(digits + []) == n
    requires ParseFraction(after) == Some(Parsed([], after))
    requires ParseExponent(after) == Some(x)
    ensures NumberAfterInteger(negative, digits, after) == Some(Parsed(JNumber(if negative then -n else n, x.value), x.rest))
  {
  }

  /** How `ParseNumber` reads a sign, canonical digits, no fraction and then an exponent. */
  lemma ParseNumberOf(negative: bool, n: nat, after: string, x: Parsed<int>)
    requires after == [] || !(IsDigit(after[0]) || after[0] == '.')
    requires ParseExponent(after) == Some(x)
    ensures ParseNumber((if negative then "-" else "") + NatText(n) + after)
         == Some(Parsed(JNumber(if negative then -(n as int) else n, x.value), x.rest))
  {
    IntegerDigitsOfNatText(n, after);
    NumberOfDigits(negative, NatText(n), n, after, x);
  }

  /** A number token made of a sign, integer digits read as `n`, no fraction, and an exponent. */
  lemma NumberOfDigits(negative: bool, digits: string, n: nat, after: string, x: Parsed<int>)
    requires digits != [] && AllDigits(digits) && DecimalValue(digits) == n
    requires IntegerDigits(digits + after) == digits
    requires after == [] || !(IsDigit(after[0]) || after[0] == '.')
    requires ParseExponent(after) == Some(x)
    ensures ParseNumber((if negative then "-" else "") + digits + after)
         == Some(Parsed(JNumber(if negative then -(n as int) else n, x.value), x.rest))
  {
    var u := digits + after;
    assert u[|digits|..] == after;
    assert ParseFraction(after) == Some(Parsed([], after));
    if negative {
      var s := "-" + digits + after;
      assert s[1..] == u;
      ParseNumberParts(s, true, u, digits, n, after, x);
    } else {
      EmptyPrefix(digits, after);
      ParseNumberParts(u, false, u, digits, n, after, x);
    }
  }

  lemma EmptyPrefix(a: string, b: string)
    ensures "" + a + b == a + b
  {
  }

  /** What follows the digits of a serialized number: nothing, an exponent, or a delimiter. */
  lemma ExponentHead(e: int, rest: string)
    requires Delimited(rest)
    ensures var after := ExponentText(e) + rest; after == [] || !(IsDigit(after[0]) || after[0] == '.')
  {
    if e != 0 {
      assert (ExponentText(e) + rest)[0] == 'e';
    }
  }

  /** A number written by the serializer is read back exactly. */
  lemma NumberRoundTrip(m: int, e: int, rest: string)
    requires Delimited(rest)
    ensures ParseNumber(IntText(m) + ExponentText(e) + rest) == Some(Parsed(JNumber(m, e), rest))
  {
    var after := ExponentText(e) + rest;
    ExponentHead(e, rest);
    ExponentRoundTrip(e, rest);
    var n: nat := if m < 0 then -m else m;
    SignedText(m, ExponentText(e), rest);
    ParseNumberOf(m < 0, n, after, Parsed(e, rest));
  }

  /** A serialized integer followed by more text: its sign, then its magnitude's digits. */
  lemma SignedText(m: int, x: string, rest: string)
    ensures IntText(m) + x + rest == (if m < 0 then "-" else "") + NatText(if m < 0 then -m else m) + (x + rest)
  {
  }

  /** The first character of a serialized value: never white space, ']' or '}'. */
  lemma SerializeHead(v: Json)
    ensures |Serialize(v)| > 0
    ensures var c := Serialize(v)[0]; !IsJsonSpace(c) && c != ']' && c != '}'
    ensures v.JNumber? <==> Serialize(v)[0] == '-' || IsDigit(Serialize(v)[0])
  {
    if v.JNumber? {
      var m := v.mantissa;
      assert Serialize(v)[0] == IntText(m)[0];
      if m >= 0 {
        assert IntText(m)[0] == NatText(m)[0];
      }
    }
  }

  // How the parser dispatches on the next character; each is one unfolding of a parsing function.

  lemma ValueAtString(s: string, p: Parsed<string>)
    requires s != [] && s[0] == '"' && ParseStringBody(s[1..]) == Some(p)
    ensures ParseValue(s) == Some(Parsed(JString(p.value), p.rest))
  {
  }

  lemma ValueAtNumber(s: string)
    requires s != [] && (s[0] == '-' || IsDigit(s[0]))
    ensures ParseValue(s) == ParseNumber(s)
  {
    assert !IsJsonSpace(s[0]);
    assert SkipSpace(s) == s;
    assert s[0] != '{' && s[0] != '[' && s[0] != '"';
  }

  lemma ValueAtArray(s: string)
    requires s != [] && s[0] == '['
    ensures ParseValue(s) == ParseArray(s[1..])
  {
  }

  lemma ValueAtObject(s: string)
    requires s != [] && s[0] == '{'
    ensures ParseValue(s) == ParseObject(s[1..])
  {
  }

  lemma ArrayAtClose(s: string)
    requires s != [] && s[0] == ']'
    ensures ParseArray(s) == Some(Parsed(JArray([]), s[1..]))
  {
  }

  lemma ArrayAtItem(s: string)
    requires s != [] && !IsJsonSpace(s[0]) && s[0] != ']'
    ensures ParseArray(s) == ParseItems(s, [])
  {
  }

  lemma ObjectAtClose(s: string)
    requires s != [] && s[0] == '}'
    ensures ParseObject(s) == Some(Parsed(JObject([]), s[1..]))
  {
  }

  lemma ObjectAtMember(s: string)
    requires s != [] && s[0] == '"'
    ensures ParseObject(s) == ParseMembers(s, [])
  {
  }

  lemma ItemsAt(s: string, acc: seq<Json>, v: Parsed<Json>)
    requires ParseValue(s) == Some(v)
    requires v.rest != [] && (v.rest[0] == ',' || v.rest[0] == ']')
    ensures ParseItems(s, acc) ==
      if v.rest[0] == ',' then ParseItems(v.rest[1..], acc + [v.value])
      else Some(Parsed(JArray(acc + [v.value]), v.rest[1..]))
  {
    assert SkipSpace(v.rest) == v.rest;
  }

  lemma MemberAt(s: string, k: Parsed<string>, v: Parsed<Json>)
    requires s != [] && s[0] == '"' && ParseStringBody(s[1..]) == Some(k)
    requires k.rest != [] && k.rest[0] == ':' && ParseValue(k.rest[1..]) == Some(v)
    ensures ParseMember(s) == Some(Parsed(Member(k.value, v.value), v.rest))
  {
  }

  lemma MembersAt(s: string, acc: seq<Member>, m: Parsed<Member>)
    requires ParseMember(s) == Some(m)
    requires m.rest != [] && (m.rest[0] == ',' || m.rest[0] == '}')
    ensures ParseMembers(s, acc) ==
      if m.rest[0] == ',' then ParseMembers(m.rest[1..], acc + [m.value])
      else Some(Parsed(JObject(acc + [m.value]), m.rest[1..]))
  {
    if m.rest[0] == ',' {
      MembersAtComma(s, acc, m);
    } else {
      MembersAtClose(s, acc, m);
    }
  }

  lemma MembersAtComma(s: string, acc: seq<Member>, m: Parsed<Member>)
    requires ParseMember(s) == Some(m)
    requires m.rest != [] && m.rest[0] == ','
    ensures ParseMembers(s, acc) == ParseMembers(m.rest[1..], acc + [m.value])
  {
    assert SkipSpace(m.rest) == m.rest;
  }

  lemma MembersAtClose(s: string, acc: seq<Member>, m: Parsed<Member>)
    requires ParseMember(s) == Some(m)
    requires m.rest != [] && m.rest[0] == '}'
    ensures ParseMembers(s, acc) == Some(Parsed(JObject(acc + [m.value]), m.rest[1..]))
  {
    assert SkipSpace(m.rest) == m.rest;
  }

  // How the serializer lays out compound values.

  /** `[c] + s` starts with `c` and continues with `s`. */
  lemma Cons(c: char, s: string)
    ensures ([c] + s)[0] == c && ([c] + s)[1..] == s
  {
  }

  lemma ArrayShape(items: seq<Json>, rest: string)
    ensures Serialize(JArray(items)) + rest == "[" + (SerializeItems(items) + "]" + rest)
  {
  }

  lemma ObjectShape(members: seq<Member>, rest: string)
    ensures Serialize(JObject(members)) + rest == "{" + (SerializeMembers(members) + "}" + rest)
  {
  }

  lemma StringShape(text: string, rest: string)
    ensures Serialize(JString(text)) + rest == "\"" + (EscapeText(text) + "\"" + rest)
  {
  }

  /** What follows the first element of a serialized array. */
  function ItemsTail(items: seq<Json>, rest: string): (tail: string)
    requires items != []
    ensures tail != [] && (tail[0] == ',' || tail[0] == ']')
    ensures tail[0] == ']' <==> |items| == 1
  {
    if |items| == 1 then "]" + rest else "," + (SerializeItems(items[1..]) + "]" + rest)
  }

  lemma ItemsShape(items: seq<Json>, rest: string)
    requires items != []
    ensures SerializeItems(items) + "]" + rest == Serialize(items[0]) + ItemsTail(items, rest)
  {
  }

  /** The serialized elements start like their first element: never with white space or ']'. */
  lemma ItemsHead(items: seq<Json>, rest: string)
    requires items != []
    ensures var body := SerializeItems(items) + "]" + rest;
      body != [] && !IsJsonSpace(body[0]) && body[0] != ']'
  {
    SerializeHead(items[0]);
    ItemsShape(items, rest);
  }

  /** What follows the first member of a serialized object. */
  function MembersTail(members: seq<Member>, rest: string): (tail: string)
    requires members != []
    ensures tail != [] && (tail[0] == ',' || tail[0] == '}')
    ensures tail[0] == '}' <==> |members| == 1
  {
    if |members| == 1 then "}" + rest else "," + (SerializeMembers(members[1..]) + "}" + rest)
  }

  lemma MembersShape(members: seq<Member>, rest: string)
    requires members != []
    ensures SerializeMembers(members) + "}" + rest == SerializeMember(members[0]) + MembersTail(members, rest)
  {
  }

  lemma MemberShape(m: Member, tail: string)
    ensures SerializeMember(m) + tail == "\"" + (EscapeText(m.key) + "\"" + (":" + (Serialize(m.value) + tail)))
  {
  }

  // The round trip itself, by induction on the value.

  /** A value written by the serializer, followed by a delimiter, is read back exactly. */
  lemma {:induction false} ValueRoundTrip(v: Json, rest: string)
    requires Delimited(rest)
    ensures ParseValue(Serialize(v) + rest) == Some(Parsed(v, rest))
    decreases v
  {
    match v
    case JNull => LiteralRoundTrip(v, rest);
    case JBool(_) => LiteralRoundTrip(v, rest);
    case JNumber(m, e) => NumberValueRoundTrip(m, e, rest);
    case JString(text) => StringValueRoundTrip(text, rest);
    case JArray(items) =>
      if items != [] {
        ItemsRoundTrip(items, [], rest);
      }
      ArrayFromItems(items, rest);
    case JObject(members) =>
      if members != [] {
        MembersRoundTrip(members, [], rest);
      }
      ObjectFromMembers(members, rest);
  }

  lemma LiteralRoundTrip(v: Json, rest: string)
    requires v.JNull? || v.JBool?
    requires Delimited(rest)
    ensures ParseValue(Serialize(v) + rest) == Some(Parsed(v, rest))
  {
    var s := Serialize(v) + rest;
    SerializeHead(v);
    var n := |Serialize(v)|;
    assert s[..n] == Serialize(v) && s[n..] == rest;
  }

  lemma NumberValueRoundTrip(m: int, e: int, rest: string)
    requires Delimited(rest)
    ensures ParseValue(Serialize(JNumber(m, e)) + rest) == Some(Parsed(JNumber(m, e), rest))
  {
    var v := JNumber(m, e);
    var s := IntText(m) + ExponentText(e) + rest;
    assert Serialize(v) + rest == s;
    SerializeHead(v);
    ValueAtNumber(s);
    NumberRoundTrip(m, e, rest);
  }

  lemma StringValueRoundTrip(text: string, rest: string)
    ensures ParseValue(Serialize(JString(text)) + rest) == Some(Parsed(JString(text), rest))
  {
    var body := EscapeText(text) + "\"" + rest;
    StringShape(text, rest);
    Cons('"', body);
    StringRoundTrip(text, rest);
    ValueAtString("\"" + body, Parsed(text, rest));
  }

  /** An array is read back once its elements are. */
  lemma ArrayFromItems(items: seq<Json>, rest: string)
    requires items != [] ==> ParseItems(SerializeItems(items) + "]" + rest, []) == Some(Parsed(JArray([] + items), rest))
    ensures ParseValue(Serialize(JArray(items)) + rest) == Some(Parsed(JArray(items), rest))
  {
    var body := SerializeItems(items) + "]" + rest;
    ArrayShape(items, rest);
    Cons('[', body);
    ValueAtArray("[" + body);
    if items == [] {
      assert body == "]" + rest;
      Cons(']', rest);
      ArrayAtClose(body);
    } else {
      ItemsHead(items, rest);
      ArrayAtItem(body);
      assert [] + items == items;
    }
  }

  /** An object is read back once its members are. */
  lemma ObjectFromMembers(members: seq<Member>, rest: string)
    requires members != [] ==> ParseMembers(SerializeMembers(members) + "}" + rest, []) == Some(Parsed(JObject([] + members), rest))
    ensures ParseValue(Serialize(JObject(members)) + rest) == Some(Parsed(JObject(members), rest))
  {
    var body := SerializeMembers(members) + "}" + rest;
    ObjectShape(members, rest);
    Cons('{', body);
    ValueAtObject("{" + body);
    if members == [] {
      assert body == "}" + rest;
      Cons('}', rest);
      ObjectAtClose(body);
    } else {
      MembersShape(members, rest);
      MemberShape(members[0], MembersTail(members, rest));
      Cons('"', EscapeText(members[0].key) + "\"" + (":" + (Serialize(members[0].value) + MembersTail(members, rest))));
      ObjectAtMember(body);
      assert [] + members == members;
    }
  }

  /** The last element is followed by the closing ']'. */
  lemma ItemsLast(items: seq<Json>, acc: seq<Json>, rest: string)
    requires |items| == 1
    requires ParseValue(Serialize(items[0]) + ItemsTail(items, rest)) == Some(Parsed(items[0], ItemsTail(items, rest)))
    ensures ParseItems(SerializeItems(items) + "]" + rest, acc) == Some(Parsed(JArray(acc + items), rest))
  {
    var tail := ItemsTail(items, rest);
    ItemsShape(items, rest);
    ItemsAt(Serialize(items[0]) + tail, acc, Parsed(items[0], tail));
    Cons(']', rest);
    assert acc + items == acc + [items[0]];
  }

  /** An element that is not the last is followed by ',' and the remaining elements. */
  lemma ItemsNext(items: seq<Json>, acc: seq<Json>, rest: string)
    requires |items| > 1
    requires ParseValue(Serialize(items[0]) + ItemsTail(items, rest)) == Some(Parsed(items[0], ItemsTail(items, rest)))
    ensures ParseItems(SerializeItems(items) + "]" + rest, acc)
         == ParseItems(SerializeItems(items[1..]) + "]" + rest, acc + [items[0]])
  {
    var tail := ItemsTail(items, rest);
    ItemsShape(items, rest);
    ItemsAt(Serialize(items[0]) + tail, acc, Parsed(items[0], tail));
    Cons(',', SerializeItems(items[1..]) + "]" + rest);
  }

  lemma SplitFirst<T>(acc: seq<T>, xs: seq<T>)
    requires xs != []
    ensures acc + [xs[0]] + xs[1..] == acc + xs
  {
  }

  /** The elements of a serialized array are read back in order. */
  lemma {:induction false} ItemsRoundTrip(items: seq<Json>, acc: seq<Json>, rest: string)
    requires items != []
    requires Delimited(rest)
    ensures ParseItems(SerializeItems(items) + "]" + rest, acc) == Some(Parsed(JArray(acc + items), rest))
    decreases items
  {
    ValueRoundTrip(items[0], ItemsTail(items, rest));
    if |items| == 1 {
      ItemsLast(items, acc, rest);
    } else {
      ItemsNext(items, acc, rest);
      ItemsRoundTrip(items[1..], acc + [items[0]], rest);
      SplitFirst(acc, items);
    }
  }

  /** A member is read back once its value is. */
  lemma MemberFirst(members: seq<Member>, rest: string)
    requires members != []
    requires ParseValue(Serialize(members[0].value) + MembersTail(members, rest))
          == Some(Parsed(members[0].value, MembersTail(members, rest)))
    ensures ParseMember(SerializeMembers(members) + "}" + rest) == Some(Parsed(members[0], MembersTail(members, rest)))
  {
    var m := members[0];
    var tail := MembersTail(members, rest);
    var afterValue := Serialize(m.value) + tail;
    var afterKey := ":" + afterValue;
    var body := EscapeText(m.key) + "\"" + afterKey;
    MembersShape(members, rest);
    MemberShape(m, tail);
    Cons('"', body);
    StringRoundTrip(m.key, afterKey);
    Cons(':', afterValue);
    MemberAt("\"" + body, Parsed(m.key, afterKey), Parsed(m.value, tail));
  }

  /** Reading the members: the first one, then either the closing '}' or the remaining members. */
  lemma MembersFirst(members: seq<Member>, acc: seq<Member>, rest: string)
    requires members != []
    requires ParseMember(SerializeMembers(members) + "}" + rest) == Some(Parsed(members[0], MembersTail(members, rest)))
    ensures ParseMembers(SerializeMembers(members) + "}" + rest, acc) ==
      if |members| == 1 then Some(Parsed(JObject(acc + members), rest))
      else ParseMembers(SerializeMembers(members[1..]) + "}" + rest, acc + [members[0]])
  {
    var tail := MembersTail(members, rest);
    MembersAt(SerializeMembers(members) + "}" + rest, acc, Parsed(members[0], tail));
    if |members| == 1 {
      assert tail == "}" + rest;
      Cons('}', rest);
      assert acc + members == acc + [members[0]];
    } else {
      var more := SerializeMembers(members[1..]) + "}" + rest;
      assert tail == "," + more;
      Cons(',', more);
    }
  }

  /** The members of a serialized object are read back in order. */
  lemma {:induction false} MembersRoundTrip(members: seq<Member>, acc: seq<Member>, rest: string)
    requires members != []
    requires Delimited(rest)
    ensures ParseMembers(SerializeMembers(members) + "}" + rest, acc) == Some(Parsed(JObject(acc + members), rest))
    decreases members
  {
    ValueRoundTrip(members[0].value, MembersTail(members, rest));
    MemberFirst(members, rest);
    MembersFirst(members, acc, rest);
    if |members| > 1 {
      MembersRoundTrip(members[1..], acc + [members[0]], rest);
      SplitFirst(acc, members);
    }
  }

  /** `JSON.parse(JSON.stringify(v))` gives `v` back. */
  lemma ParseSerialize(v: Json)
    ensures Parse(Serialize(v)) == Some(v)
  {
    ValueRoundTrip(v, []);
    assert Serialize(v) + [] == Serialize(v);
  }
}
