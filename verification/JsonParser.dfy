/** `JSON.parse`: the grammar of section 2 of RFC 8259, over UTF-16 text.

    Every function consumes a prefix and returns what is left. `inexact` gives the
    value of a number literal that is no safe integer in plain digits: it may be
    any function, so what is proved holds for whatever rounding the engine does. */
module JsonParser {
  import opened Wrappers
  import opened Unicode
  import opened CanonicalJson

  type Rounding = Text -> JsNumber
  type Parsed<T> = Option<(T, Text)>

  predicate Digit(c: CodeUnit) { ZERO <= c < ZERO + 10 }
  predicate White(c: CodeUnit) { c == 0x20 || c == 0x09 || c == 0x0a || c == 0x0d }

  function SkipWhite(s: Text): (r: Text)
    ensures |r| <= |s|
  {
    if s != [] && White(s[0]) then SkipWhite(s[1..]) else s
  }

  /** Length of the longest prefix of digits. */
  function DigitRun(s: Text): (n: nat)
    ensures n <= |s| && forall i :: 0 <= i < n ==> Digit(s[i])
    ensures n < |s| ==> !Digit(s[n])
  {
    if s != [] && Digit(s[0]) then 1 + DigitRun(s[1..]) else 0
  }

  function DigitsValue(ds: Text): nat
    requires forall i :: 0 <= i < |ds| ==> Digit(ds[i])
  {
    if ds == [] then 0
    else
      assert Digit(ds[|ds| - 1]);
      10 * DigitsValue(ds[..|ds| - 1]) + (ds[|ds| - 1] - ZERO)
  }

  function HexValue(c: CodeUnit): (r: Option<nat>)
    ensures r.Some? ==> r.value < 16
  {
    if Digit(c) then Some(c - ZERO)
    else if 0x61 <= c <= 0x66 then Some(c - 0x61 + 10)
    else if 0x41 <= c <= 0x46 then Some(c - 0x41 + 10)
    else None
  }

  /** Four hexadecimal digits. */
  function Hex4(s: Text): (r: Option<CodeUnit>)
    ensures r.Some? ==> |s| >= 4
  {
    if |s| < 4 then None
    else
      var a, b, c, d := HexValue(s[0]), HexValue(s[1]), HexValue(s[2]), HexValue(s[3]);
      if a.None? || b.None? || c.None? || d.None? then None
      else Some(((a.value * 16 + b.value) * 16 + c.value) * 16 + d.value)
  }

  /** The code unit written by the escape whose letter is c. */
  function SimpleEscape(c: CodeUnit): Option<CodeUnit> {
    if c == QUOTE || c == BACKSLASH || c == 0x2f then Some(c)
    else if c == 0x62 then Some(0x08)
    else if c == 0x66 then Some(0x0c)
    else if c == 0x6e then Some(0x0a)
    else if c == 0x72 then Some(0x0d)
    else if c == 0x74 then Some(0x09)
    else None
  }

  /** One character of a string body, escaped or not. */
  function ParseUnit(s: Text): (r: Parsed<CodeUnit>)
    ensures r.Some? ==> |r.value.1| < |s|
  {
    if s == [] || s[0] < 0x20 || s[0] == QUOTE then None
    else if s[0] != BACKSLASH then Some((s[0], s[1..]))
    else if |s| < 2 then None
    else if s[1] == 0x75 then
      var unit := Hex4(s[2..]);
      if unit.None? then None else Some((unit.value, s[6..]))
    else
      var unit := SimpleEscape(s[1]);
      if unit.None? then None else Some((unit.value, s[2..]))
  }

  /** The rest of a string, after its opening quotation mark. */
  function ParseChars(s: Text): (r: Parsed<Text>)
    ensures r.Some? ==> |r.value.1| < |s|
  {
    if s != [] && s[0] == QUOTE then Some(([], s[1..]))
    else
      var head := ParseUnit(s);
      if head.None? then None
      else
        var tail := ParseChars(head.value.1);
        if tail.None? then None else Some(([head.value.0] + tail.value.0, tail.value.1))
  }

  /** Length of an optional fraction, or nothing when its digits are missing. */
  function FractionLength(s: Text): (r: Option<nat>)
    ensures r.Some? ==> r.value <= |s|
  {
    if s != [] && s[0] == 0x2e then
      var n := DigitRun(s[1..]);
      if n == 0 then None else Some(1 + n)
    else Some(0)
  }

  function ExponentLength(s: Text): (r: Option<nat>)
    ensures r.Some? ==> r.value <= |s|
  {
    if s != [] && (s[0] == 0x65 || s[0] == 0x45) then
      var sign := if |s| > 1 && (s[1] == 0x2b || s[1] == MINUS) then 1 else 0;
      var n := DigitRun(s[1 + sign..]);
      if n == 0 then None else Some(1 + sign + n)
    else Some(0)
  }

  /** The unsigned literal at the front: its whole-number digits and its full length. */
  datatype Literal = Literal(whole: nat, length: nat)

  function ScanUnsigned(s: Text): (r: Option<Literal>)
    ensures r.Some? ==> 1 <= r.value.whole <= r.value.length <= |s|
    ensures r.Some? ==> forall i :: 0 <= i < r.value.whole ==> Digit(s[i])
  {
    var run := DigitRun(s);
    if run == 0 then None
    else
      var whole := if s[0] == ZERO then 1 else run;
      var fraction := FractionLength(s[whole..]);
      if fraction.None? then None
      else
        var exponent := ExponentLength(s[whole + fraction.value..]);
        if exponent.None? then None
        else Some(Literal(whole, whole + fraction.value + exponent.value))
  }

  function ParseNumber(inexact: Rounding, s: Text): (r: Parsed<JsNumber>)
    ensures r.Some? ==> |r.value.1| < |s|
  {
    var negative := s != [] && s[0] == MINUS;
    var body := if negative then s[1..] else s;
    var scan := ScanUnsigned(body);
    if scan.None? then None
    else
      var Literal(whole, length) := scan.value;
      var n: int := DigitsValue(body[..whole]);
      var text := s[..|s| - |body| + length];
      Some((NumberValue(inexact, negative, whole == length, n, text), body[length..]))
  }

  /** The value of a literal: exact when it is plain digits within the safe range. */
  function NumberValue(inexact: Rounding, negative: bool, plain: bool, n: int, text: Text): JsNumber {
    if !plain || n > MAX_SAFE_INTEGER then inexact(text)
    else if !negative then Integer(n)
    else if n == 0 then NegativeZero
    else Integer(-n)
  }

  function ParseValue(inexact: Rounding, s: Text): (r: Parsed<Json>)
    ensures r.Some? ==> |r.value.1| < |s|
    decreases |s|, 0
  {
    if s == [] then None
    else if s[0] == QUOTE then
      var r := ParseChars(s[1..]);
      if r.None? then None else Some((String(r.value.0), r.value.1))
    else if s[0] == OPEN_BRACKET then
      var inner := SkipWhite(s[1..]);
      if inner != [] && inner[0] == CLOSE_BRACKET then Some((Array([]), inner[1..]))
      else
        var r := ParseItems(inexact, inner);
        if r.None? then None else Some((Array(r.value.0), r.value.1))
    else if s[0] == OPEN_BRACE then
      var inner := SkipWhite(s[1..]);
      if inner != [] && inner[0] == CLOSE_BRACE then Some((Object(map[]), inner[1..]))
      else
        var r := ParseMembers(inexact, inner);
        if r.None? then None else Some((Object(r.value.0), r.value.1))
    else if NULL_TEXT <= s then Some((Null, s[4..]))
    else if TRUE_TEXT <= s then Some((Bool(true), s[4..]))
    else if FALSE_TEXT <= s then Some((Bool(false), s[5..]))
    else
      var r := ParseNumber(inexact, s);
      if r.None? then None else Some((Number(r.value.0), r.value.1))
  }

  /** One or more array elements up to the closing bracket. */
  function ParseItems(inexact: Rounding, s: Text): (r: Parsed<seq<Json>>)
    ensures r.Some? ==> |r.value.1| < |s|
    decreases |s|, 1
  {
    var head := ParseValue(inexact, s);
    if head.None? then None
    else
      var next := SkipWhite(head.value.1);
      if next == [] then None
      else if next[0] == CLOSE_BRACKET then Some(([head.value.0], next[1..]))
      else if next[0] != COMMA then None
      else
        var tail := ParseItems(inexact, SkipWhite(next[1..]));
        if tail.None? then None else Some(([head.value.0] + tail.value.0, tail.value.1))
  }

  /** One or more object members up to the closing brace. A later duplicate key wins. */
  function ParseMembers(inexact: Rounding, s: Text): (r: Parsed<map<Text, Json>>)
    ensures r.Some? ==> |r.value.1| < |s|
    decreases |s|, 1
  {
    if s == [] || s[0] != QUOTE then None
    else
      var key := ParseChars(s[1..]);
      if key.None? then None
      else
        var colon := SkipWhite(key.value.1);
        if colon == [] || colon[0] != COLON then None
        else
          var head := ParseValue(inexact, SkipWhite(colon[1..]));
          if head.None? then None
          else
            var next := SkipWhite(head.value.1);
            if next == [] then None
            else if next[0] == CLOSE_BRACE then Some((map[key.value.0 := head.value.0], next[1..]))
            else if next[0] != COMMA then None
            else
              var tail := ParseMembers(inexact, SkipWhite(next[1..]));
              if tail.None? then None
              else Some((map[key.value.0 := head.value.0] + tail.value.0, tail.value.1))
  }

  /** `JSON.parse(s)`; None is its SyntaxError. */
  function JsonParse(inexact: Rounding, s: Text): Option<Json> {
    var r := ParseValue(inexact, SkipWhite(s));
    if r.Some? && SkipWhite(r.value.1) == [] then Some(r.value.0) else None
  }
}
