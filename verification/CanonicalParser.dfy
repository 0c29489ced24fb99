/** `parseCanonicalJson`: the bounded parser that accepts canonical text and nothing else. */
module CanonicalParser {
  import opened Wrappers
  import opened Unicode
  import opened CanonicalJson
  import opened JsonParser
  import opened CanonicalCodec

  /** The argument of the parser: a string, a Buffer, or anything else. */
  datatype Input = TextInput(text: Text) | BufferInput(bytes: Bytes) | OtherInput

  /** Node decodes leniently and then compares the re-encoding with the input;
      that accepts exactly what strict decoding accepts. */
  function DecodeInput(input: Input, maxBytes: nat): Option<Text> {
    match input
    case TextInput(text) =>
      if text == [] || Utf8Length(text) > maxBytes || !ValidUnicode(text) then None else Some(text)
    case BufferInput(bytes) =>
      if bytes == [] || |bytes| > maxBytes then None else DecodeUtf8(bytes)
    case OtherInput => None
  }

  function ParseCanonicalJson(inexact: Rounding, input: Input, maxBytes: int): Option<Json> {
    if !(0 < maxBytes <= MAX_SAFE_INTEGER) then None
    else
      var text := DecodeInput(input, maxBytes);
      if text.None? then None
      else
        Recheck(text.value, JsonParse(inexact, text.value))
  }

  /** The parsed value, provided it serializes back to the text it came from. */
  function Recheck(text: Text, parsed: Option<Json>): Option<Json> {
    if parsed.None? || Serialize(parsed.value) != Some(text) then None else parsed
  }

  /** The input spells this text, as a string or as its UTF-8 bytes. */
  predicate Spells(input: Input, text: Text) {
    match input
    case TextInput(t) => t == text
    case BufferInput(b) => ValidUnicode(text) && b == EncodeUtf8(text)
    case OtherInput => false
  }

  // Canonical text is always well-formed Unicode.

  lemma {:induction false} EscapeValid(s: Text)
    requires ValidUnicode(s)
    ensures ValidUnicode(Escape(s))
  {
    if s != [] {
      if High(s[0]) {
        EscapeValid(s[2..]);
        SurrogatesPlain(s[0]);
        SurrogatesPlain(s[1]);
        var t := s[1..];
        assert t[0] == s[1] && t[1..] == s[2..];
        assert Escape(t) == [s[1]] + Escape(s[2..]);
        PairValid(s[0], s[1], Escape(s[2..]));
      } else {
        EscapeValid(s[1..]);
        EscapeUnitValid(s[0]);
        ValidUnicodeConcat(EscapeUnit(s[0]), Escape(s[1..]));
      }
    }
  }

  lemma SurrogatesPlain(c: CodeUnit)
    requires High(c) || Low(c)
    ensures EscapeUnit(c) == [c]
  {
  }

  lemma PairValid(h: CodeUnit, l: CodeUnit, rest: Text)
    requires High(h) && Low(l) && ValidUnicode(rest)
    ensures ValidUnicode([h] + ([l] + rest))
  {
    var t := [h] + ([l] + rest);
    assert t[2..] == rest;
  }

  lemma EscapeUnitValid(c: CodeUnit)
    requires !High(c) && !Low(c)
    ensures ValidUnicode(EscapeUnit(c))
  {
    if |EscapeUnit(c)| > 1 { AsciiIsValid(EscapeUnit(c)); }
  }

  lemma QuoteValid(s: Text)
    requires ValidUnicode(s)
    ensures ValidUnicode(Quote(s))
  {
    EscapeValid(s);
    AsciiIsValid([QUOTE]);
    ValidUnicodeConcat(Escape(s), [QUOTE]);
    ValidUnicodeConcat([QUOTE], Escape(s) + [QUOTE]);
    assert Quote(s) == [QUOTE] + (Escape(s) + [QUOTE]);
  }

  lemma BracketValid(open: CodeUnit, body: Text, close: CodeUnit)
    requires open < 0x80 && close < 0x80 && ValidUnicode(body)
    ensures ValidUnicode([open] + body + [close])
  {
    AsciiIsValid([open]);
    AsciiIsValid([close]);
    ValidUnicodeConcat(body, [close]);
    ValidUnicodeConcat([open], body + [close]);
    assert [open] + body + [close] == [open] + (body + [close]);
  }

  lemma {:induction false} RenderValid(v: Json)
    requires Serializable(v)
    ensures ValidUnicode(Render(v))
    decreases v, 0
  {
    match v
    case Null => AsciiIsValid(NULL_TEXT);
    case Bool(b) => AsciiIsValid(TRUE_TEXT); AsciiIsValid(FALSE_TEXT);
    case Number(x) => AsciiIsValid(IntegerText(x.n));
    case String(s) => QuoteValid(s);
    case Array(items) =>
      ItemsValid(items);
      BracketValid(OPEN_BRACKET, RenderItems(items), CLOSE_BRACKET);
    case Object(members) =>
      MembersValid(v, Keys(members));
      BracketValid(OPEN_BRACE, RenderMembers(v, Keys(members)), CLOSE_BRACE);
  }

  lemma {:induction false} ItemsValid(items: seq<Json>)
    requires forall i :: 0 <= i < |items| ==> Serializable(items[i])
    ensures ValidUnicode(RenderItems(items))
    decreases items, 0
  {
    if items != [] {
      RenderValid(items[0]);
      if |items| > 1 {
        ItemsValid(items[1..]);
        Separate(Render(items[0]), COMMA, RenderItems(items[1..]));
      }
    }
  }

  lemma {:induction false} MembersValid(v: Json, keys: seq<Text>)
    requires Serializable(v) && v.Object? && forall k :: k in keys ==> k in v.members
    ensures ValidUnicode(RenderMembers(v, keys))
    decreases v, 0, |keys|
  {
    if keys != [] {
      QuoteValid(keys[0]);
      RenderValid(v.members[keys[0]]);
      Separate(Quote(keys[0]), COLON, Render(v.members[keys[0]]));
      if |keys| > 1 {
        MembersValid(v, keys[1..]);
        Separate(Quote(keys[0]) + [COLON] + Render(v.members[keys[0]]), COMMA, RenderMembers(v, keys[1..]));
      }
    }
  }

  lemma Separate(a: Text, separator: CodeUnit, b: Text)
    requires ValidUnicode(a) && ValidUnicode(b) && separator < 0x80
    ensures ValidUnicode(a + [separator] + b)
  {
    AsciiIsValid([separator]);
    ValidUnicodeConcat([separator], b);
    ValidUnicodeConcat(a, [separator] + b);
    assert a + [separator] + b == a + ([separator] + b);
  }

  /** An input is read as t exactly when it spells the valid, non-empty, short enough text t. */
  lemma ReadsExactly(input: Input, maxBytes: nat, t: Text)
    ensures DecodeInput(input, maxBytes) == Some(t)
       <==> t != [] && ValidUnicode(t) && Spells(input, t) && Utf8Length(t) <= maxBytes
  {
    if input.BufferInput? && DecodeUtf8(input.bytes).Some? {
      EncodeOfDecode(input.bytes);
      EncodeLength(DecodeUtf8(input.bytes).value);
    }
    if ValidUnicode(t) {
      DecodeOfEncode(t);
      EncodeLength(t);
    }
  }

  /** The parser accepts an input as v exactly when it spells the canonical text of v
      within the byte bound. Duplicate or reordered keys, white space, and other
      escapes or numbers spell no canonical text, so all of them are refused. */
  lemma AcceptsExactlyCanonical(inexact: Rounding, input: Input, maxBytes: int, v: Json)
    requires 0 < maxBytes <= MAX_SAFE_INTEGER
    ensures ParseCanonicalJson(inexact, input, maxBytes) == Some(v)
       <==> Serializable(v) && Spells(input, Render(v)) && Utf8Length(Render(v)) <= maxBytes
  {
    var text := DecodeInput(input, maxBytes);
    if text.Some? {
      RecheckExact(text.value, JsonParse(inexact, text.value), v);
      if Serializable(v) { CanonicalRoundTrip(inexact, v); }
    }
    if Serializable(v) {
      RenderValid(v);
      RenderHead(v);
      ReadsExactly(input, maxBytes, Render(v));
    }
  }

  lemma RecheckExact(text: Text, parsed: Option<Json>, v: Json)
    ensures Recheck(text, parsed) == Some(v) <==> parsed == Some(v) && Serializable(v) && Render(v) == text
  {
  }

  /** Two inputs of one kind that parse to the same value are the same input. */
  lemma OneTextPerValue(inexact: Rounding, a: Input, b: Input, maxBytes: int)
    requires 0 < maxBytes <= MAX_SAFE_INTEGER
    requires a.TextInput? == b.TextInput? && a.BufferInput? == b.BufferInput?
    requires ParseCanonicalJson(inexact, a, maxBytes).Some?
    requires ParseCanonicalJson(inexact, a, maxBytes) == ParseCanonicalJson(inexact, b, maxBytes)
    ensures a == b
  {
    var v := ParseCanonicalJson(inexact, a, maxBytes).value;
    AcceptsExactlyCanonical(inexact, a, maxBytes, v);
    AcceptsExactlyCanonical(inexact, b, maxBytes, v);
  }
}
