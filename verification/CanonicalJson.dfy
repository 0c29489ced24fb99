/** The canonical serializer: sorted keys, no white space, safe integers only.

    The same algorithm serves the authorization records (canonical-json.ts) and
    the source-bundle header (runner-source-bundle.ts). */
module CanonicalJson {
  import opened Wrappers
  import opened Unicode
  import Order

  const MAX_SAFE_INTEGER: int := 9007199254740991

  /** Integer also covers magnitudes past the safe range; Inexact is every other number. */
  datatype JsNumber = Integer(n: int) | NegativeZero | Inexact(id: Text)

  /** JavaScript data. Unsupported is everything the serializer rejects by kind:
      undefined, functions, cycles, sparse arrays, accessors, foreign prototypes. */
  datatype Json =
    | Null
    | Bool(b: bool)
    | Number(x: JsNumber)
    | String(s: Text)
    | Array(items: seq<Json>)
    | Object(members: map<Text, Json>)
    | Unsupported

  const QUOTE: CodeUnit := 0x22
  const BACKSLASH: CodeUnit := 0x5c
  const COMMA: CodeUnit := 0x2c
  const COLON: CodeUnit := 0x3a
  const MINUS: CodeUnit := 0x2d
  const ZERO: CodeUnit := 0x30
  const OPEN_BRACKET: CodeUnit := 0x5b
  const CLOSE_BRACKET: CodeUnit := 0x5d
  const OPEN_BRACE: CodeUnit := 0x7b
  const CLOSE_BRACE: CodeUnit := 0x7d
  const NULL_TEXT: Text := [0x6e, 0x75, 0x6c, 0x6c]
  const TRUE_TEXT: Text := [0x74, 0x72, 0x75, 0x65]
  const FALSE_TEXT: Text := [0x66, 0x61, 0x6c, 0x73, 0x65]

  /** The values `canonicalJson` does not reject. */
  predicate Serializable(v: Json) {
    match v
    case Null => true
    case Bool(_) => true
    case Number(x) => x.Integer? && -MAX_SAFE_INTEGER <= x.n <= MAX_SAFE_INTEGER
    case String(s) => ValidUnicode(s)
    case Array(items) => forall i :: 0 <= i < |items| ==> Serializable(items[i])
    case Object(members) => forall k :: k in members ==> ValidUnicode(k) && Serializable(members[k])
    case Unsupported => false
  }

  /** `String(n)` for a natural number. */
  function Decimal(n: nat): (t: Text)
    ensures |t| > 0 && forall i :: 0 <= i < |t| ==> ZERO <= t[i] < ZERO + 10
    ensures n > 0 ==> t[0] != ZERO
    ensures n == 0 ==> |t| == 1
  {
    if n < 10 then [ZERO + n] else Decimal(n / 10) + [ZERO + n % 10]
  }

  function IntegerText(n: int): Text {
    if n < 0 then [MINUS] + Decimal(-n) else Decimal(n)
  }

  function HexDigit(d: nat): CodeUnit
    requires d < 16
  {
    if d < 10 then ZERO + d else 0x61 + (d - 10)
  }

  /** QuoteJSONString of ECMA-262 for one code unit of well-formed text. */
  function EscapeUnit(c: CodeUnit): Text {
    if c == 0x08 then [BACKSLASH, 0x62]
    else if c == 0x09 then [BACKSLASH, 0x74]
    else if c == 0x0a then [BACKSLASH, 0x6e]
    else if c == 0x0c then [BACKSLASH, 0x66]
    else if c == 0x0d then [BACKSLASH, 0x72]
    else if c == QUOTE || c == BACKSLASH then [BACKSLASH, c]
    else if c < 0x20 then [BACKSLASH, 0x75, ZERO, ZERO, HexDigit(c / 16), HexDigit(c % 16)]
    else [c]
  }

  function Escape(s: Text): Text {
    if s == [] then [] else EscapeUnit(s[0]) + Escape(s[1..])
  }

  function Quote(s: Text): Text { [QUOTE] + Escape(s) + [QUOTE] }

  /** `Object.keys(object).sort()`: UTF-16 code-unit order. */
  function Keys(members: map<Text, Json>): (r: seq<Text>)
    ensures Order.Increasing(r) && (forall k :: k in r <==> k in members)
  {
    var sorted := Order.Sorted(members.Keys);
    assert forall i :: 0 <= i < |sorted| ==> sorted[i] in members;
    sorted
  }

  function Render(v: Json): Text
    decreases v, 0
  {
    match v
    case Null => NULL_TEXT
    case Bool(b) => if b then TRUE_TEXT else FALSE_TEXT
    case Number(x) =>
      if x.Integer? then IntegerText(x.n) else []
    case String(s) => Quote(s)
    case Array(items) => [OPEN_BRACKET] + RenderItems(items) + [CLOSE_BRACKET]
    case Object(members) => [OPEN_BRACE] + RenderMembers(v, Keys(members)) + [CLOSE_BRACE]
    case Unsupported => []
  }

  function RenderItems(items: seq<Json>): Text
    decreases items, 0
  {
    if items == [] then []
    else if |items| == 1 then Render(items[0])
    else Render(items[0]) + [COMMA] + RenderItems(items[1..])
  }

  function RenderMembers(v: Json, keys: seq<Text>): Text
    requires v.Object? && forall k :: k in keys ==> k in v.members
    decreases v, 0, |keys|
  {
    if keys == [] then []
    else
      var member := Quote(keys[0]) + [COLON] + Render(v.members[keys[0]]);
      if |keys| == 1 then member else member + [COMMA] + RenderMembers(v, keys[1..])
  }

  function Serialize(v: Json): Option<Text> {
    if Serializable(v) then Some(Render(v)) else None
  }
}
