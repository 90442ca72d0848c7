/**
 * Character and string primitives of the JavaScript runtime that the
 * application relies on: digit runs, `parseInt`, `trim`, `toLowerCase` and
 * `includes`.
 */
module Text {

  predicate IsDigit(c: char) {
    '0' <= c <= '9'
  }

  function DigitValue(c: char): (d: nat)
    requires IsDigit(c)
    ensures d < 10
  {
    (c as int) - ('0' as int)
  }

  function DigitChar(d: nat): (c: char)
    requires d < 10
    ensures IsDigit(c) && DigitValue(c) == d
  {
    (d + '0' as int) as char
  }

  predicate AllDigits(s: string) {
    forall i :: 0 <= i < |s| ==> IsDigit(s[i])
  }

  /** The value of a decimal numeral, read most significant digit first. */
  function DecimalValue(s: string): nat
    requires AllDigits(s)
    decreases |s|
  {
    if s == [] then 0 else DecimalValue(s[..|s| - 1]) * 10 + DigitValue(s[|s| - 1])
  }

  /** The canonical decimal numeral of `n`: no leading zero except for zero itself. */
  function NatText(n: nat): (s: string)
    ensures |s| >= 1 && AllDigits(s)
    ensures |s| > 1 ==> s[0] != '0'
    ensures DecimalValue(s) == n
  {
    if n < 10 then [DigitChar(n)]
    else
      var init := NatText(n / 10);
      var s := init + [DigitChar(n % 10)];
      assert s[..|s| - 1] == init;
      s
  }

  /** The canonical decimal numeral of an integer, with a leading '-' when negative. */
  function IntText(n: int): string {
    if n < 0 then "-" + NatText(-n) else NatText(n)
  }

  /** The longest prefix of `s` whose characters all satisfy `p`. */
  function TakeWhile(s: string, p: char -> bool): (r: string)
    ensures |r| <= |s| && r == s[..|r|]
    ensures forall i :: 0 <= i < |r| ==> p(r[i])
    ensures |r| < |s| ==> !p(s[|r|])
  {
    if s == [] || !p(s[0]) then []
    else [s[0]] + TakeWhile(s[1..], p)
  }

  /** The maximal run of decimal digits at the start of `s`. */
  function LeadingDigits(s: string): (r: string)
    ensures |r| <= |s| && r == s[..|r|] && AllDigits(r)
    ensures |r| < |s| ==> !IsDigit(s[|r|])
  {
    TakeWhile(s, IsDigit)
  }

  /** A run of characters satisfying `p`, followed by one that does not, is taken whole. */
  lemma {:induction false} TakeWhileOf(run: string, rest: string, p: char -> bool)
    requires forall i :: 0 <= i < |run| ==> p(run[i])
    requires rest == [] || !p(rest[0])
    ensures TakeWhile(run + rest, p) == run
  {
    if run == [] {
      assert run + rest == rest;
    } else {
      assert (run + rest)[0] == run[0];
      assert (run + rest)[1..] == run[1..] + rest;
      TakeWhileOf(run[1..], rest, p);
    }
  }

  /** A run of digits followed by something that is not a digit is read back whole. */
  lemma LeadingDigitsOf(digits: string, rest: string)
    requires AllDigits(digits)
    requires rest == [] || !IsDigit(rest[0])
    ensures LeadingDigits(digits + rest) == digits
  {
    TakeWhileOf(digits, rest, IsDigit);
  }

  predicate IsHexDigit(c: char) {
    IsDigit(c) || 'a' <= c <= 'f' || 'A' <= c <= 'F'
  }

  function HexDigitValue(c: char): (d: nat)
    requires IsHexDigit(c)
    ensures d < 16
  {
    if IsDigit(c) then DigitValue(c)
    else if 'a' <= c <= 'f' then (c as int) - ('a' as int) + 10
    else (c as int) - ('A' as int) + 10
  }

  predicate AllHexDigits(s: string) {
    forall i :: 0 <= i < |s| ==> IsHexDigit(s[i])
  }

  /** The value of a hexadecimal numeral, most significant digit first. */
  function HexValue(s: string): nat
    requires AllHexDigits(s)
    decreases |s|
  {
    if s == [] then 0 else HexValue(s[..|s| - 1]) * 16 + HexDigitValue(s[|s| - 1])
  }

  /**
   * The white space and line terminators that `String.prototype.trim` and
   * `parseInt` skip (the WhiteSpace and LineTerminator productions of
   * ECMAScript).
   */
  predicate IsJsSpace(c: char) {
    || c == '\t' || c == '\n' || c == '\U{000B}' || c == '\U{000C}' || c == '\r'
    || c == ' ' || c == '\U{00A0}' || c == '\U{1680}'
    || ('\U{2000}' <= c <= '\U{200A}')
    || c == '\U{2028}' || c == '\U{2029}' || c == '\U{202F}' || c == '\U{205F}'
    || c == '\U{3000}' || c == '\U{FEFF}'
  }

  /** `s` without its leading white space. */
  function TrimStart(s: string): (r: string)
    ensures |r| <= |s| && r == s[|s| - |r|..]
    ensures forall i :: 0 <= i < |s| - |r| ==> IsJsSpace(s[i])
    ensures r == [] || !IsJsSpace(r[0])
  {
    if s != [] && IsJsSpace(s[0]) then
      var r := TrimStart(s[1..]);
      assert forall i :: 1 <= i < |s| - |r| ==> s[i] == s[1..][i - 1];
      assert s[1..][|s| - 1 - |r|..] == s[|s| - |r|..];
      r
    else s
  }

  /** `s` without its trailing white space. */
  function TrimEnd(s: string): (r: string)
    ensures |r| <= |s| && r == s[..|r|]
    ensures forall i :: |r| <= i < |s| ==> IsJsSpace(s[i])
    ensures r == [] || !IsJsSpace(r[|r| - 1])
    decreases |s|
  {
    if s != [] && IsJsSpace(s[|s| - 1]) then TrimEnd(s[..|s| - 1]) else s
  }

  /** `String.prototype.trim`. */
  function Trim(s: string): string {
    TrimEnd(TrimStart(s))
  }

  /** Trimming leaves nothing exactly when the text is all white space. */
  lemma TrimEmptyIffBlank(s: string)
    ensures Trim(s) == [] <==> forall i :: 0 <= i < |s| ==> IsJsSpace(s[i])
  {
    var t := TrimStart(s);
    if Trim(s) == [] {
      forall i | 0 <= i < |s| ensures IsJsSpace(s[i]) {
        if i >= |s| - |t| {
          assert s[i] == t[i - (|s| - |t|)];
        }
      }
    } else {
      var r := Trim(s);
      assert r[0] == t[0] == s[|s| - |t|];
      if |r| == 1 {
        assert !IsJsSpace(r[|r| - 1]);
      }
      assert !IsJsSpace(s[|s| - |t|]);
    }
  }

  /** A JavaScript number as the application produces it: an integer, or NaN from a failed `parseInt`. */
  datatype JsNumber = Int(value: int) | NaN {
    /** JavaScript truthiness of a number: neither 0 nor NaN. */
    predicate Truthy() {
      Int? && value != 0
    }
  }

  /**
   * `parseInt(s)` with no radix argument: leading white space is skipped, a
   * sign is read, a "0x"/"0X" prefix selects base 16, and the longest run of
   * digits of the base that follows is the value; no digit at all gives NaN.
   */
  function ParseInt(s: string): JsNumber {
    var t := TrimStart(s);
    if t != [] && t[0] == '-' then
      match ParseMagnitude(t[1..])
      case Int(v) => Int(-v)
      case NaN => NaN
    else if t != [] && t[0] == '+' then ParseMagnitude(t[1..])
    else ParseMagnitude(t)
  }

  /** The unsigned part of `parseInt`: a hexadecimal run after "0x"/"0X", otherwise a decimal run. */
  function ParseMagnitude(u: string): (r: JsNumber)
    ensures r.Int? ==> r.value >= 0
  {
    if |u| >= 2 && u[0] == '0' && (u[1] == 'x' || u[1] == 'X') then
      var h := TakeWhile(u[2..], IsHexDigit);
      if h == [] then NaN else Int(HexValue(h))
    else
      var d := LeadingDigits(u);
      if d == [] then NaN else Int(DecimalValue(d))
  }

  /** A text that starts with neither white space nor a sign is read by `ParseMagnitude` alone. */
  lemma ParseIntUnsigned(s: string)
    requires s != [] && !IsJsSpace(s[0]) && s[0] != '-' && s[0] != '+'
    ensures ParseInt(s) == ParseMagnitude(s)
  {
    assert TrimStart(s) == s;
  }

  /** A non-empty run of decimal digits, not followed by a digit, is read as its decimal value. */
  lemma ParseMagnitudeOfDigits(digits: string, rest: string)
    requires digits != [] && AllDigits(digits)
    requires |digits| > 1 ==> digits[0] != '0'
    requires rest == [] || (!IsDigit(rest[0]) && rest[0] != 'x' && rest[0] != 'X')
    ensures ParseMagnitude(digits + rest) == Int(DecimalValue(digits))
  {
    var u := digits + rest;
    if |u| >= 2 && u[0] == '0' {
      assert |digits| == 1;
      assert u[1] == rest[0];
    }
    LeadingDigitsOf(digits, rest);
  }

  /** `parseInt` reads a canonical numeral back to the integer it denotes. */
  lemma ParseIntOfIntText(n: int)
    ensures ParseInt(IntText(n)) == Int(n)
  {
    if n < 0 {
      ParseIntOfNegative(-n);
    } else {
      ParseIntOfNatText(n);
    }
  }

  lemma ParseIntOfNatText(n: nat)
    ensures ParseInt(NatText(n)) == Int(n)
  {
    var digits := NatText(n);
    ParseMagnitudeOfDigits(digits, []);
    assert digits + [] == digits;
    ParseIntUnsigned(digits);
  }

  lemma ParseIntOfNegative(m: nat)
    ensures ParseInt("-" + NatText(m)) == Int(-(m as int))
  {
    var digits := NatText(m);
    ParseMagnitudeOfDigits(digits, []);
    assert digits + [] == digits;
    var s := "-" + digits;
    assert !IsJsSpace(s[0]);
    assert TrimStart(s) == s;
    assert s[1..] == digits;
  }

  /** `parseInt` of a non-empty run of decimal digits is its decimal value. */
  lemma ParseIntOfDigits(digits: string)
    requires digits != [] && AllDigits(digits)
    ensures ParseInt(digits) == Int(DecimalValue(digits))
  {
    ParseIntUnsigned(digits);
    LeadingDigitsOf(digits, []);
    assert digits + [] == digits;
  }

  /** A text without a decimal digit is NaN to `parseInt`. */
  lemma ParseIntWithoutDigits(s: string)
    requires forall i :: 0 <= i < |s| ==> !IsDigit(s[i])
    ensures ParseInt(s) == NaN
  {
    var t := TrimStart(s);
    assert forall i :: 0 <= i < |t| ==> !IsDigit(t[i]) by {
      forall i | 0 <= i < |t| ensures !IsDigit(t[i]) {
        assert t[i] == s[|s| - |t| + i];
      }
    }
    var u := if t != [] && (t[0] == '-' || t[0] == '+') then t[1..] else t;
    assert forall i :: 0 <= i < |u| ==> !IsDigit(u[i]);
    assert ParseMagnitude(u) == NaN;
  }

  /** Lexicographic order by code point: the order the model gives to a database `order` on a text column. */
  predicate LexLe(a: string, b: string)
    decreases |a|
  {
    a == [] || (b != [] && (a[0] < b[0] || (a[0] == b[0] && LexLe(a[1..], b[1..]))))
  }

  /** Any two texts are comparable. */
  lemma {:induction false} LexLeTotal(a: string, b: string)
    ensures LexLe(a, b) || LexLe(b, a)
    decreases |a|
  {
    if a != [] && b != [] && a[0] == b[0] {
      LexLeTotal(a[1..], b[1..]);
    }
  }

  /** The order is transitive. */
  lemma {:induction false} LexLeTrans(a: string, b: string, c: string)
    requires LexLe(a, b) && LexLe(b, c)
    ensures LexLe(a, c)
    decreases |a|
  {
    if a != [] && a[0] == b[0] && b[0] == c[0] {
      LexLeTrans(a[1..], b[1..], c[1..]);
    }
  }

  function LowerChar(c: char): char {
    if 'A' <= c <= 'Z' then (c as int + 32) as char else c
  }

  /** `toLowerCase`, restricted to the ASCII letters. */
  function Lower(s: string): (r: string)
    ensures |r| == |s|
  {
    seq(|s|, i requires 0 <= i < |s| => LowerChar(s[i]))
  }

  /** `s` starts with `p`. */
  predicate StartsWith(s: string, p: string) {
    |p| <= |s| && s[..|p|] == p
  }

  /** `sub` occurs in `s` starting at position `i`. */
  predicate OccursAt(s: string, sub: string, i: int) {
    0 <= i && i + |sub| <= |s| && s[i..i + |sub|] == sub
  }

  /** `s.includes(sub)`: `sub` occurs at some position of `s`. */
  function Contains(s: string, sub: string): (b: bool)
    ensures b <==> exists i :: OccursAt(s, sub, i)
    decreases |s|
  {
    if StartsWith(s, sub) then
      assert OccursAt(s, sub, 0);
      true
    else if s == [] then
      assert forall i :: !OccursAt(s, sub, i);
      false
    else
      OccursShift(s, sub);
      Contains(s[1..], sub)
  }

  /** Away from position 0, the occurrences of `sub` in `s` are those in `s[1..]`, shifted by one. */
  lemma OccursShift(s: string, sub: string)
    requires s != [] && !StartsWith(s, sub)
    ensures (exists i :: OccursAt(s, sub, i)) <==> (exists i :: OccursAt(s[1..], sub, i))
  {
    if exists i :: OccursAt(s[1..], sub, i) {
      var i :| OccursAt(s[1..], sub, i);
      assert s[i + 1..i + 1 + |sub|] == s[1..][i..i + |sub|];
      assert OccursAt(s, sub, i + 1);
    }
    if exists i :: OccursAt(s, sub, i) {
      var i :| OccursAt(s, sub, i);
      assert i != 0;
      assert s[1..][i - 1..i - 1 + |sub|] == s[i..i + |sub|];
      assert OccursAt(s[1..], sub, i - 1);
    }
  }
}
