/** The canonical serializer and the JSON parser are inverse to each other. */
module CanonicalCodec {
  import opened Wrappers
  import opened Unicode
  import opened CanonicalJson
  import opened JsonParser

  /** What may follow a value without extending it. */
  predicate Delimited(rest: Text) {
    rest == [] || rest[0] == COMMA || rest[0] == CLOSE_BRACKET || rest[0] == CLOSE_BRACE
  }

  lemma SkipNothing(s: Text)
    requires s == [] || !White(s[0])
    ensures SkipWhite(s) == s
  {
  }

  // Numbers

  lemma {:induction false} DigitRunStops(ds: Text, rest: Text)
    requires forall i :: 0 <= i < |ds| ==> Digit(ds[i])
    requires rest == [] || !Digit(rest[0])
    ensures DigitRun(ds + rest) == |ds|
  {
    if ds == [] {
      assert ds + rest == rest;
    } else {
      assert (ds + rest)[1..] == ds[1..] + rest;
      DigitRunStops(ds[1..], rest);
    }
  }

  lemma {:induction false} DecimalValue(n: nat)
    ensures forall i :: 0 <= i < |Decimal(n)| ==> Digit(Decimal(n)[i])
    ensures DigitsValue(Decimal(n)) == n
  {
    var ds := Decimal(n);
    if n < 10 {
      assert ds[..0] == [];
    } else {
      DecimalValue(n / 10);
      assert ds[..|ds| - 1] == Decimal(n / 10);
    }
  }

  lemma DecimalInjective(a: nat, b: nat)
    requires Decimal(a) == Decimal(b)
    ensures a == b
  {
    DecimalValue(a);
    DecimalValue(b);
  }

  lemma ScanPlain(ds: Text, rest: Text)
    requires ds != [] && forall i :: 0 <= i < |ds| ==> Digit(ds[i])
    requires ds[0] == ZERO ==> |ds| == 1
    requires Delimited(rest)
    ensures ScanUnsigned(ds + rest) == Some(Literal(|ds|, |ds|))
  {
    DigitRunStops(ds, rest);
    assert (ds + rest)[0] == ds[0];
    assert (ds + rest)[|ds|..] == rest && (ds + rest)[|ds| + 0..] == rest;
  }

  lemma NumberRoundTrip(inexact: Rounding, n: int, rest: Text)
    requires -MAX_SAFE_INTEGER <= n <= MAX_SAFE_INTEGER && Delimited(rest)
    ensures ParseNumber(inexact, IntegerText(n) + rest) == Some((Integer(n), rest))
  {
    var m: nat := if n < 0 then -n else n;
    DecimalValue(m);
    ScanPlain(Decimal(m), rest);
    PlainNumber(inexact, Decimal(m), m, n < 0, rest);
  }

  lemma PlainNumber(inexact: Rounding, ds: Text, m: nat, negative: bool, rest: Text)
    requires ds != [] && forall i :: 0 <= i < |ds| ==> Digit(ds[i])
    requires DigitsValue(ds) == m <= MAX_SAFE_INTEGER && (negative ==> m > 0)
    requires ScanUnsigned(ds + rest) == Some(Literal(|ds|, |ds|))
    ensures ParseNumber(inexact, (if negative then [MINUS] + ds else ds) + rest)
         == Some((Integer(if negative then 0 - m else m), rest))
  {
    var s, body := (if negative then [MINUS] + ds else ds) + rest, ds + rest;
    assert Digit(ds[0]);
    assert (s[0] == MINUS) <==> negative;
    assert (if negative then s[1..] else s) == body;
    assert body[..|ds|] == ds && body[|ds|..] == rest;
    var text := s[..|s| - |body| + |ds|];
    assert ParseNumber(inexact, s) == Some((NumberValue(inexact, negative, true, m, text), rest));
  }

  // Strings

  lemma UnitRoundTrip(c: CodeUnit, rest: Text)
    ensures EscapeUnit(c) != [] && EscapeUnit(c)[0] != QUOTE
    ensures ParseUnit(EscapeUnit(c) + rest) == Some((c, rest))
  {
    var s := EscapeUnit(c) + rest;
    if |EscapeUnit(c)| == 6 {
      assert s[6..] == rest;
      assert s[2..][0] == ZERO && s[2..][1] == ZERO;
      assert s[2..][2] == HexDigit(c / 16) && s[2..][3] == HexDigit(c % 16);
    } else if |EscapeUnit(c)| == 2 {
      assert s[2..] == rest;
    } else {
      assert s[1..] == rest;
    }
  }

  lemma {:induction false} CharsRoundTrip(t: Text, rest: Text)
    ensures ParseChars(Escape(t) + [QUOTE] + rest) == Some((t, rest))
  {
    var s := Escape(t) + [QUOTE] + rest;
    if t == [] {
      assert s[1..] == rest;
    } else {
      var tail := Escape(t[1..]) + [QUOTE] + rest;
      UnitRoundTrip(t[0], tail);
      assert s == EscapeUnit(t[0]) + tail;
      CharsRoundTrip(t[1..], rest);
      assert t == [t[0]] + t[1..];
    }
  }

  lemma QuoteRoundTrip(t: Text, rest: Text)
    ensures Quote(t) != [] && Quote(t)[0] == QUOTE
    ensures ParseChars((Quote(t) + rest)[1..]) == Some((t, rest))
  {
    CharsRoundTrip(t, rest);
    assert (Quote(t) + rest)[1..] == Escape(t) + [QUOTE] + rest;
  }

  // Values

  lemma RenderHead(v: Json)
    requires Serializable(v)
    ensures Render(v) != [] && !White(Render(v)[0])
    ensures Render(v)[0] != CLOSE_BRACKET && Render(v)[0] != CLOSE_BRACE
  {
  }

  lemma ItemsHead(items: seq<Json>)
    requires items != [] && Serializable(items[0])
    ensures RenderItems(items) != [] && !White(RenderItems(items)[0])
    ensures RenderItems(items)[0] != CLOSE_BRACKET
  {
    RenderHead(items[0]);
  }

  ghost function Part(members: map<Text, Json>, keys: seq<Text>): map<Text, Json>
    requires forall k :: k in keys ==> k in members
  {
    map k | k in keys :: members[k]
  }

  lemma {:induction false} ValueRoundTrip(inexact: Rounding, v: Json, rest: Text)
    requires Serializable(v) && Delimited(rest)
    ensures ParseValue(inexact, Render(v) + rest) == Some((v, rest))
    decreases v, 0
  {
    var s := Render(v) + rest;
    match v
    case Null => assert s[4..] == rest; assert NULL_TEXT <= s;
    case Bool(b) =>
      if b { assert s[4..] == rest; assert TRUE_TEXT <= s; }
      else { assert s[5..] == rest; assert FALSE_TEXT <= s; }
    case Number(x) =>
      NumberRoundTrip(inexact, x.n, rest);
      NumberCase(inexact, s);
    case String(t) => QuoteRoundTrip(t, rest); assert s[0] == QUOTE;
    case Array(items) =>
      var body := RenderItems(items) + ([CLOSE_BRACKET] + rest);
      assert s == [OPEN_BRACKET] + body;
      if items != [] { ItemsRoundTrip(inexact, items, rest); }
      ArrayCase(inexact, items, body, rest);
    case Object(members) =>
      var keys := Keys(members);
      var body := RenderMembers(v, keys) + ([CLOSE_BRACE] + rest);
      assert s == [OPEN_BRACE] + body;
      if keys != [] {
        KeysDistinct(members);
        MembersRoundTrip(inexact, v, keys, rest);
      }
      ObjectCase(inexact, v, body, rest);
  }

  lemma KeysDistinct(members: map<Text, Json>)
    ensures var keys := Keys(members); forall i, j :: 0 <= i < j < |keys| ==> keys[i] != keys[j]
  {
    var keys := Keys(members);
    forall i, j | 0 <= i < j < |keys| ensures keys[i] != keys[j] {
      Order.LessAsymmetric(keys[i], keys[j]);
    }
  }

  lemma NumberCase(inexact: Rounding, s: Text)
    requires s != [] && (s[0] == MINUS || Digit(s[0]))
    ensures ParseValue(inexact, s)
         == var r := ParseNumber(inexact, s);
            if r.None? then None else Some((Number(r.value.0), r.value.1))
  {
    assert s[0] != NULL_TEXT[0] && s[0] != TRUE_TEXT[0] && s[0] != FALSE_TEXT[0];
  }

  lemma ArrayCase(inexact: Rounding, items: seq<Json>, body: Text, rest: Text)
    requires body == RenderItems(items) + ([CLOSE_BRACKET] + rest)
    requires forall i :: 0 <= i < |items| ==> Serializable(items[i])
    requires items != [] ==> ParseItems(inexact, body) == Some((items, rest))
    ensures ParseValue(inexact, [OPEN_BRACKET] + body) == Some((Array(items), rest))
  {
    var s := [OPEN_BRACKET] + body;
    assert s[1..] == body;
    if items == [] {
      assert body == [CLOSE_BRACKET] + rest;
    } else {
      ItemsHead(items);
      assert body[0] == RenderItems(items)[0];
    }
    SkipNothing(body);
  }

  lemma ObjectCase(inexact: Rounding, v: Json, body: Text, rest: Text)
    requires v.Object?
    requires body == RenderMembers(v, Keys(v.members)) + ([CLOSE_BRACE] + rest)
    requires Keys(v.members) != [] ==>
      ParseMembers(inexact, body) == Some((Part(v.members, Keys(v.members)), rest))
    ensures ParseValue(inexact, [OPEN_BRACE] + body) == Some((v, rest))
  {
    PartAll(v.members);
    ObjectBody(v, rest);
    SkipNothing(body);
    ObjectOpens(inexact, body);
  }

  lemma ObjectOpens(inexact: Rounding, body: Text)
    requires body != [] && SkipWhite(body) == body
    ensures ParseValue(inexact, [OPEN_BRACE] + body) ==
      if body[0] == CLOSE_BRACE then Some((Object(map[]), body[1..]))
      else
        var r := ParseMembers(inexact, body);
        if r.None? then None else Some((Object(r.value.0), r.value.1))
  {
    assert ([OPEN_BRACE] + body)[1..] == body;
  }

  lemma ObjectBody(v: Json, rest: Text)
    requires v.Object?
    ensures var body, keys := RenderMembers(v, Keys(v.members)) + ([CLOSE_BRACE] + rest), Keys(v.members);
      if keys == [] then v.members == map[] && body == [CLOSE_BRACE] + rest else body[0] == QUOTE
  {
    if Keys(v.members) == [] {
      assert forall k :: k in v.members ==> k in Keys(v.members);
    }
  }

  lemma {:induction false} ItemsRoundTrip(inexact: Rounding, items: seq<Json>, rest: Text)
    requires items != [] && forall i :: 0 <= i < |items| ==> Serializable(items[i])
    ensures ParseItems(inexact, RenderItems(items) + ([CLOSE_BRACKET] + rest)) == Some((items, rest))
    decreases items, 0
  {
    ItemsText(items, rest);
    ValueRoundTrip(inexact, items[0], ItemsTail(items, rest));
    ItemStep(inexact, items[0], ItemsTail(items, rest));
    if |items| > 1 { ItemsRoundTrip(inexact, items[1..], rest); }
    ItemsCombine(inexact, items, rest);
  }

  lemma ItemsCombine(inexact: Rounding, items: seq<Json>, rest: Text)
    requires items != [] && forall i :: 0 <= i < |items| ==> Serializable(items[i])
    requires |items| > 1 ==>
      ParseItems(inexact, RenderItems(items[1..]) + ([CLOSE_BRACKET] + rest)) == Some((items[1..], rest))
    ensures ItemsAfter(inexact, items[0], ItemsTail(items, rest)) == Some((items, rest))
  {
    var after := ItemsTail(items, rest);
    if |items| == 1 {
      assert after[1..] == rest && items == [items[0]];
    } else {
      var tail := RenderItems(items[1..]) + ([CLOSE_BRACKET] + rest);
      assert after[1..] == tail;
      ItemsHead(items[1..]);
      SkipNothing(tail);
      assert items == [items[0]] + items[1..];
    }
  }

  // What `ParseItems` returns once the first element is read.
  function ItemsAfter(inexact: Rounding, value: Json, after: Text): Parsed<seq<Json>>
    requires after != []
  {
    if after[0] == CLOSE_BRACKET then Some(([value], after[1..]))
    else if after[0] != COMMA then None
    else
      var tail := ParseItems(inexact, SkipWhite(after[1..]));
      if tail.None? then None else Some(([value] + tail.value.0, tail.value.1))
  }

  // What follows the first element in the text of an array.
  function ItemsTail(items: seq<Json>, rest: Text): (r: Text)
    requires items != []
    ensures r != [] && (r[0] == COMMA || r[0] == CLOSE_BRACKET)
  {
    if |items| == 1 then [CLOSE_BRACKET] + rest
    else [COMMA] + (RenderItems(items[1..]) + ([CLOSE_BRACKET] + rest))
  }

  lemma ItemsText(items: seq<Json>, rest: Text)
    requires items != []
    ensures RenderItems(items) + ([CLOSE_BRACKET] + rest) == Render(items[0]) + ItemsTail(items, rest)
  {
  }

  lemma ItemStep(inexact: Rounding, value: Json, after: Text)
    requires after != [] && !White(after[0])
    requires ParseValue(inexact, Render(value) + after) == Some((value, after))
    ensures ParseItems(inexact, Render(value) + after) == ItemsAfter(inexact, value, after)
  {
    SkipNothing(after);
  }

  lemma {:induction false} MembersRoundTrip(inexact: Rounding, v: Json, keys: seq<Text>, rest: Text)
    requires Serializable(v) && v.Object? && keys != []
    requires forall k :: k in keys ==> k in v.members
    requires forall i, j :: 0 <= i < j < |keys| ==> keys[i] != keys[j]
    ensures ParseMembers(inexact, RenderMembers(v, keys) + ([CLOSE_BRACE] + rest))
         == Some((Part(v.members, keys), rest))
    decreases v, 0, |keys|
  {
    var key, value := keys[0], v.members[keys[0]];
    MembersText(v, keys, rest);
    ValueRoundTrip(inexact, value, MembersTail(v, keys, rest));
    MemberStep(inexact, key, value, MembersTail(v, keys, rest));
    if |keys| > 1 { MembersRoundTrip(inexact, v, keys[1..], rest); }
    MembersCombine(inexact, v, keys, rest);
  }

  lemma MembersCombine(inexact: Rounding, v: Json, keys: seq<Text>, rest: Text)
    requires v.Object? && keys != [] && forall k :: k in keys ==> k in v.members
    requires |keys| > 1 ==>
      ParseMembers(inexact, RenderMembers(v, keys[1..]) + ([CLOSE_BRACE] + rest))
        == Some((Part(v.members, keys[1..]), rest))
    ensures MembersAfter(inexact, keys[0], v.members[keys[0]], MembersTail(v, keys, rest))
         == Some((Part(v.members, keys), rest))
  {
    var after := MembersTail(v, keys, rest);
    if |keys| == 1 {
      assert after[1..] == rest;
      assert Part(v.members, keys) == map[keys[0] := v.members[keys[0]]];
    } else {
      var tail := RenderMembers(v, keys[1..]) + ([CLOSE_BRACE] + rest);
      assert after[1..] == tail;
      QuoteRoundTrip(keys[1], []);
      SkipNothing(tail);
      PartTail(v.members, keys);
    }
  }

  // What `ParseMembers` returns once the first member is read.
  function MembersAfter(inexact: Rounding, key: Text, value: Json, after: Text): Parsed<map<Text, Json>>
    requires after != []
  {
    if after[0] == CLOSE_BRACE then Some((map[key := value], after[1..]))
    else if after[0] != COMMA then None
    else
      var tail := ParseMembers(inexact, SkipWhite(after[1..]));
      if tail.None? then None else Some((map[key := value] + tail.value.0, tail.value.1))
  }

  // What follows the first member in the text of an object.
  ghost function MembersTail(v: Json, keys: seq<Text>, rest: Text): (r: Text)
    requires v.Object? && keys != [] && forall k :: k in keys ==> k in v.members
    ensures r != [] && (r[0] == COMMA || r[0] == CLOSE_BRACE)
  {
    if |keys| == 1 then [CLOSE_BRACE] + rest
    else [COMMA] + (RenderMembers(v, keys[1..]) + ([CLOSE_BRACE] + rest))
  }

  lemma MembersText(v: Json, keys: seq<Text>, rest: Text)
    requires v.Object? && keys != [] && forall k :: k in keys ==> k in v.members
    ensures RenderMembers(v, keys) + ([CLOSE_BRACE] + rest)
         == Quote(keys[0]) + ([COLON] + (Render(v.members[keys[0]]) + MembersTail(v, keys, rest)))
  {
  }

  lemma PartAll(members: map<Text, Json>)
    ensures Part(members, Keys(members)) == members
  {
  }

  lemma PartTail(members: map<Text, Json>, keys: seq<Text>)
    requires keys != [] && forall k :: k in keys ==> k in members
    ensures Part(members, keys) == map[keys[0] := members[keys[0]]] + Part(members, keys[1..])
  {
    forall k ensures k in keys <==> k == keys[0] || k in keys[1..] {
      assert keys == [keys[0]] + keys[1..];
    }
  }

  lemma MemberStep(inexact: Rounding, key: Text, value: Json, after: Text)
    requires Serializable(value) && after != [] && !White(after[0])
    requires ParseValue(inexact, Render(value) + after) == Some((value, after))
    ensures ParseMembers(inexact, Quote(key) + ([COLON] + (Render(value) + after)))
         == MembersAfter(inexact, key, value, after)
  {
    var colon := [COLON] + (Render(value) + after);
    var s := Quote(key) + colon;
    QuoteRoundTrip(key, colon);
    assert s[0] == QUOTE;
    SkipNothing(colon);
    assert colon[1..] == Render(value) + after;
    RenderHead(value);
    assert (Render(value) + after)[0] == Render(value)[0];
    SkipNothing(Render(value) + after);
    SkipNothing(after);
  }

  // What is accepted

  /** The value and everything in it. */
  ghost function PartsOf(v: Json): set<Json>
  {
    {v} + match v
          case Array(items) => set i, p | 0 <= i < |items| && p in PartsOf(items[i]) :: p
          case Object(members) => set k, p | k in members && p in PartsOf(members[k]) :: p
          case _ => {}
  }

  /** A part that JSON can spell in one way: no fraction, no unsafe or negative zero integer, no unpaired
      surrogate in a string or a key. */
  predicate Plain(p: Json) {
    && !p.Unsupported?
    && (p.Number? ==> p.x.Integer? && -9007199254740991 <= p.x.n <= 9007199254740991)
    && (p.String? ==> ValidUnicode(p.s))
    && (p.Object? ==> forall k :: k in p.members ==> ValidUnicode(k))
  }

  lemma ItemParts(items: seq<Json>)
    ensures (forall p :: p in PartsOf(Array(items)) ==> Plain(p)) <==>
      forall i, p :: 0 <= i < |items| && p in PartsOf(items[i]) ==> Plain(p)
  {
    var v := Array(items);
    assert Plain(v);
    forall p ensures p in PartsOf(v) <==> p == v || exists i :: 0 <= i < |items| && p in PartsOf(items[i]) {
    }
  }

  lemma MemberParts(members: map<Text, Json>)
    ensures (forall p :: p in PartsOf(Object(members)) ==> Plain(p)) <==>
      Plain(Object(members)) && forall k, p :: k in members && p in PartsOf(members[k]) ==> Plain(p)
  {
    var v := Object(members);
    forall p ensures p in PartsOf(v) <==> p == v || exists k :: k in members && p in PartsOf(members[k]) {
    }
  }

  /** A value is accepted exactly when everything in it is. */
  lemma {:induction false} SerializableExactly(v: Json)
    ensures Serializable(v) <==> forall p :: p in PartsOf(v) ==> Plain(p)
  {
    match v
    case Array(items) =>
      ItemParts(items);
      forall i | 0 <= i < |items| ensures Serializable(items[i]) <==> forall p :: p in PartsOf(items[i]) ==> Plain(p) {
        SerializableExactly(items[i]);
      }
    case Object(members) =>
      MemberParts(members);
      forall k | k in members ensures Serializable(members[k]) <==> forall p :: p in PartsOf(members[k]) ==> Plain(p) {
        SerializableExactly(members[k]);
      }
    case _ => LeafPart(v);
  }

  lemma LeafPart(v: Json)
    requires !v.Array? && !v.Object?
    ensures PartsOf(v) == {v} && (Serializable(v) <==> Plain(v))
  {
  }

  /** A parser for RFC 8259 recovers every accepted value from its canonical text. */
  lemma CanonicalRoundTrip(inexact: Rounding, v: Json)
    requires Serializable(v)
    ensures JsonParse(inexact, Render(v)) == Some(v)
  {
    RenderHead(v);
    SkipNothing(Render(v));
    ValueRoundTrip(inexact, v, []);
    assert Render(v) + [] == Render(v);
  }

  /** Different values never share a canonical text. */
  lemma CanonicalInjective(a: Json, b: Json)
    requires Serializable(a) && Serializable(b)
    requires Render(a) == Render(b)
    ensures a == b
  {
    var any: Rounding := _ => NegativeZero;
    CanonicalRoundTrip(any, a);
    CanonicalRoundTrip(any, b);
  }
}
