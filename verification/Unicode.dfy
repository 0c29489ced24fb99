/** JavaScript text as UTF-16 code units, its validity check, and its UTF-8 bytes. */
module Unicode {
  import opened Wrappers

  type Byte = n: int | 0 <= n < 0x100
  type Bytes = seq<Byte>
  type CodeUnit = n: int | 0 <= n < 0x10000
  type Text = seq<CodeUnit>

  /** The bytes of an ASCII text. */
  function Ascii(text: string): Bytes {
    seq(|text|, i requires 0 <= i < |text| => text[i] as int % 0x80)
  }

  predicate High(c: CodeUnit) { 0xd800 <= c <= 0xdbff }
  predicate Low(c: CodeUnit) { 0xdc00 <= c <= 0xdfff }

  /** Every surrogate belongs to a high-low pair. */
  predicate ValidUnicode(t: Text) {
    if t == [] then true
    else if High(t[0]) then |t| >= 2 && Low(t[1]) && ValidUnicode(t[2..])
    else !Low(t[0]) && ValidUnicode(t[1..])
  }

  /** The index loop of the source. Past the end `charCodeAt` is NaN, which is no low surrogate. */
  method AssertValidUnicode(value: Text) returns (ok: bool)
    ensures ok <==> ValidUnicode(value)
  {
    var index := 0;
    while index < |value|
      invariant 0 <= index <= |value|
      invariant ValidUnicode(value) <==> ValidUnicode(value[index..])
    {
      var code := value[index];
      var tail := value[index..];
      assert tail[0] == code && tail[1..] == value[index + 1..];
      if High(code) {
        if !(index + 1 < |value| && Low(value[index + 1])) {
          return false;
        }
        assert tail[1] == value[index + 1] && tail[2..] == value[index + 2..];
        index := index + 1;
      } else if Low(code) {
        return false;
      }
      index := index + 1;
    }
    return true;
  }

  lemma {:induction false} ValidUnicodeConcat(a: Text, b: Text)
    requires ValidUnicode(a)
    ensures ValidUnicode(a + b) <==> ValidUnicode(b)
  {
    if a == [] {
      assert a + b == b;
    } else if High(a[0]) {
      assert (a + b)[2..] == a[2..] + b;
      ValidUnicodeConcat(a[2..], b);
    } else {
      assert (a + b)[1..] == a[1..] + b;
      ValidUnicodeConcat(a[1..], b);
    }
  }

  lemma {:induction false} AsciiIsValid(t: Text)
    requires forall i :: 0 <= i < |t| ==> t[i] < 0x80
    ensures ValidUnicode(t)
  {
    if t != [] { AsciiIsValid(t[1..]); }
  }

  /** `Buffer.byteLength(text, "utf8")`: an unpaired surrogate counts as U+FFFD. */
  function Utf8Length(t: Text): nat {
    if t == [] then 0
    else if High(t[0]) && |t| >= 2 && Low(t[1]) then 4 + Utf8Length(t[2..])
    else (if t[0] < 0x80 then 1 else if t[0] < 0x800 then 2 else 3) + Utf8Length(t[1..])
  }

  function ScalarBytes(c: int): Bytes
    requires 0 <= c < 0x110000
  {
    if c < 0x80 then [c]
    else if c < 0x800 then [0xc0 + c / 0x40, 0x80 + c % 0x40]
    else if c < 0x10000 then [0xe0 + c / 0x1000, 0x80 + c / 0x40 % 0x40, 0x80 + c % 0x40]
    else [0xf0 + c / 0x40000, 0x80 + c / 0x1000 % 0x40, 0x80 + c / 0x40 % 0x40, 0x80 + c % 0x40]
  }

  function Pair(h: CodeUnit, l: CodeUnit): int
    requires High(h) && Low(l)
  {
    0x10000 + (h - 0xd800) * 0x400 + (l - 0xdc00)
  }

  /** The UTF-8 bytes of text that passes the Unicode check. */
  function EncodeUtf8(t: Text): Bytes
    requires ValidUnicode(t)
  {
    if t == [] then []
    else if High(t[0]) then ScalarBytes(Pair(t[0], t[1])) + EncodeUtf8(t[2..])
    else ScalarBytes(t[0]) + EncodeUtf8(t[1..])
  }

  predicate Continuation(b: Byte) { 0x80 <= b < 0xc0 }

  /** Six more bits of a scalar value. */
  function SixMore(c: int, b: Byte): int { 0x40 * c + (b - 0x80) }

  lemma SixMoreSplits(c: int, b: Byte)
    requires Continuation(b)
    ensures SixMore(c, b) / 0x40 == c && 0x80 + SixMore(c, b) % 0x40 == b
  {
  }

  /** The scalar value at the front of b and its byte count: shortest form, no surrogate, at most U+10FFFF. */
  function DecodeScalar(b: Bytes): (r: Option<(int, nat)>)
    ensures r.Some? ==> 1 <= r.value.1 <= |b| && 0 <= r.value.0 < 0x110000
    ensures r.Some? ==> !(0xd800 <= r.value.0 <= 0xdfff)
  {
    if b == [] then None
    else if b[0] < 0x80 then Some((b[0], 1))
    else if b[0] < 0xc0 then None
    else if b[0] < 0xe0 then
      if |b| < 2 || !Continuation(b[1]) then None
      else
        var c := SixMore(b[0] - 0xc0, b[1]);
        if c < 0x80 then None else Some((c, 2))
    else if b[0] < 0xf0 then
      if |b| < 3 || !Continuation(b[1]) || !Continuation(b[2]) then None
      else
        var c := SixMore(SixMore(b[0] - 0xe0, b[1]), b[2]);
        if c < 0x800 || 0xd800 <= c <= 0xdfff then None else Some((c, 3))
    else if b[0] < 0xf8 then
      if |b| < 4 || !Continuation(b[1]) || !Continuation(b[2]) || !Continuation(b[3]) then None
      else
        var c := SixMore(SixMore(SixMore(b[0] - 0xf0, b[1]), b[2]), b[3]);
        if c < 0x10000 || c >= 0x110000 then None else Some((c, 4))
    else None
  }

  function ScalarText(c: int): (t: Text)
    requires 0 <= c < 0x110000
    ensures 1 <= |t| <= 2
  {
    if c < 0x10000 then [c]
    else [0xd800 + (c - 0x10000) / 0x400, 0xdc00 + (c - 0x10000) % 0x400]
  }

  function DecodeUtf8(b: Bytes): Option<Text> {
    if b == [] then Some([])
    else
      var head := DecodeScalar(b);
      if head.None? then None
      else
        var tail := DecodeUtf8(b[head.value.1..]);
        if tail.None? then None else Some(ScalarText(head.value.0) + tail.value)
  }

  lemma DecodeScalarOfBytes(c: int, rest: Bytes)
    requires 0 <= c < 0x110000 && !(0xd800 <= c <= 0xdfff)
    ensures DecodeScalar(ScalarBytes(c) + rest) == Some((c, |ScalarBytes(c)|))
  {
    var b := ScalarBytes(c) + rest;
    assert forall i :: 0 <= i < |ScalarBytes(c)| ==> b[i] == ScalarBytes(c)[i];
    if 0x10000 <= c {
      assert c / 0x1000 == c / 0x40000 * 0x40 + c / 0x1000 % 0x40;
      assert c / 0x40 == c / 0x1000 * 0x40 + c / 0x40 % 0x40;
    }
  }

  lemma BytesOfDecodedScalar(b: Bytes)
    requires DecodeScalar(b).Some?
    ensures var (c, n) := DecodeScalar(b).value; ScalarBytes(c) == b[..n]
  {
    var (c, n) := DecodeScalar(b).value;
    if n == 2 {
      SixMoreSplits(b[0] - 0xc0, b[1]);
    } else if n == 3 {
      SixMoreSplits(b[0] - 0xe0, b[1]);
      SixMoreSplits(SixMore(b[0] - 0xe0, b[1]), b[2]);
      assert c / 0x1000 == c / 0x40 / 0x40;
    } else if n == 4 {
      var d := SixMore(b[0] - 0xf0, b[1]);
      SixMoreSplits(b[0] - 0xf0, b[1]);
      SixMoreSplits(d, b[2]);
      SixMoreSplits(SixMore(d, b[2]), b[3]);
      assert c / 0x1000 == c / 0x40 / 0x40 && c / 0x40000 == c / 0x1000 / 0x40;
    }
  }

  lemma PairOfScalar(c: int)
    requires 0x10000 <= c < 0x110000
    ensures var t := ScalarText(c); High(t[0]) && Low(t[1]) && Pair(t[0], t[1]) == c
  {
  }

  lemma ScalarOfPair(h: CodeUnit, l: CodeUnit)
    requires High(h) && Low(l)
    ensures 0x10000 <= Pair(h, l) < 0x110000 && ScalarText(Pair(h, l)) == [h, l]
  {
    var d := (h - 0xd800) * 0x400 + (l - 0xdc00);
    assert d / 0x400 == h - 0xd800 && d % 0x400 == l - 0xdc00;
  }

  // Decoding inverts encoding on every valid text.
  lemma {:induction false} DecodeOfEncode(t: Text)
    requires ValidUnicode(t)
    ensures DecodeUtf8(EncodeUtf8(t)) == Some(t)
  {
    if t != [] {
      var c, n := if High(t[0]) then Pair(t[0], t[1]) else t[0], if High(t[0]) then 2 else 1;
      if High(t[0]) { ScalarOfPair(t[0], t[1]); }
      DecodeOfEncode(t[n..]);
      DecodeScalarOfBytes(c, EncodeUtf8(t[n..]));
      var b := EncodeUtf8(t);
      assert b == ScalarBytes(c) + EncodeUtf8(t[n..]);
      assert b[|ScalarBytes(c)|..] == EncodeUtf8(t[n..]);
      assert t == ScalarText(c) + t[n..];
    }
  }

  // What decodes is the encoding of valid text, so every other byte string is refused.
  lemma {:induction false} EncodeOfDecode(b: Bytes)
    requires DecodeUtf8(b).Some?
    ensures ValidUnicode(DecodeUtf8(b).value) && EncodeUtf8(DecodeUtf8(b).value) == b
  {
    if b != [] {
      DecodedFront(b);
      BytesOfDecodedScalar(b);
      var c, n := DecodeScalar(b).value.0, DecodeScalar(b).value.1;
      EncodeOfDecode(b[n..]);
      FrontEncodes(b, n, c, DecodeUtf8(b[n..]).value);
    }
  }

  lemma FrontEncodes(b: Bytes, n: nat, c: int, tail: Text)
    requires 0 <= c < 0x110000 && !(0xd800 <= c <= 0xdfff) && n <= |b|
    requires ScalarBytes(c) == b[..n] && ValidUnicode(tail) && EncodeUtf8(tail) == b[n..]
    ensures ValidUnicode(ScalarText(c) + tail) && EncodeUtf8(ScalarText(c) + tail) == b
  {
    ScalarFirst(c, tail);
    assert b[..n] + b[n..] == b;
  }

  lemma DecodedFront(b: Bytes)
    requires b != [] && DecodeUtf8(b).Some?
    ensures DecodeScalar(b).Some? && DecodeUtf8(b[DecodeScalar(b).value.1..]).Some?
    ensures DecodeUtf8(b).value == ScalarText(DecodeScalar(b).value.0) + DecodeUtf8(b[DecodeScalar(b).value.1..]).value
  {
  }

  // A decoded scalar in front of valid text.
  lemma ScalarFirst(c: int, tail: Text)
    requires 0 <= c < 0x110000 && !(0xd800 <= c <= 0xdfff) && ValidUnicode(tail)
    ensures ValidUnicode(ScalarText(c) + tail) && EncodeUtf8(ScalarText(c) + tail) == ScalarBytes(c) + EncodeUtf8(tail)
  {
    var t := ScalarText(c) + tail;
    if c >= 0x10000 { PairOfScalar(c); assert t[2..] == tail; } else { assert t[1..] == tail; }
  }

  lemma EncodeInjective(a: Text, b: Text)
    requires ValidUnicode(a) && ValidUnicode(b) && EncodeUtf8(a) == EncodeUtf8(b)
    ensures a == b
  {
    DecodeOfEncode(a);
    DecodeOfEncode(b);
  }

  lemma {:induction false} EncodeLength(t: Text)
    requires ValidUnicode(t)
    ensures |EncodeUtf8(t)| == Utf8Length(t)
  {
    if t != [] {
      if High(t[0]) { EncodeLength(t[2..]); } else { EncodeLength(t[1..]); }
    }
  }

  // Lossy decoding

  /** U+FFFD in UTF-8. */
  const REPLACEMENT: Bytes := [0xef, 0xbf, 0xbd]

  /** The second byte that may follow a first byte of two or more. */
  predicate SecondByte(first: Byte, second: Byte) {
    && Continuation(second) && (first == 0xe0 ==> second >= 0xa0) && (first == 0xed ==> second < 0xa0)
    && (first == 0xf0 ==> second >= 0x90) && (first == 0xf4 ==> second < 0x90)
  }

  /** How many bytes one replacement stands for: the longest front of a scalar, or one byte. */
  function BadLength(b: Bytes): (n: nat)
    requires b != []
    ensures 1 <= n <= |b|
  {
    if b[0] < 0xc2 || b[0] > 0xf4 || |b| < 2 || !SecondByte(b[0], b[1]) then 1
    else if |b| < 3 || !Continuation(b[2]) then 2
    else 3
  }

  /** The UTF-8 of what `toString("utf8")` makes of any bytes. */
  function Lossy(b: Bytes): Bytes {
    if b == [] then []
    else
      var head := DecodeScalar(b);
      if head.Some? then b[..head.value.1] + Lossy(b[head.value.1..])
      else REPLACEMENT + Lossy(b[BadLength(b)..])
  }

  /** U+FFFD is among the scalars that the bytes start with. */
  predicate HasMark(b: Bytes) {
    b != [] && DecodeScalar(b).Some?
    && (b[..DecodeScalar(b).value.1] == REPLACEMENT || HasMark(b[DecodeScalar(b).value.1..]))
  }

  /** UTF-8 that no other bytes are decoded to. */
  predicate Legible(b: Bytes) { DecodeUtf8(b).Some? && !HasMark(b) }

  /** Only the bytes of the scalar matter. */
  lemma DecodeScalarFront(b: Bytes, rest: Bytes)
    requires DecodeScalar(b).Some?
    ensures DecodeScalar(b[..DecodeScalar(b).value.1] + rest) == DecodeScalar(b)
  {
    var n := DecodeScalar(b).value.1;
    var c := b[..n] + rest;
    assert forall i :: 0 <= i < n ==> c[i] == b[i];
  }

  lemma ReplacementScalar(rest: Bytes)
    ensures DecodeScalar(REPLACEMENT + rest) == Some((0xfffd, 3))
  {
    var c := REPLACEMENT + rest;
    assert c[0] == 0xef && c[1] == 0xbf && c[2] == 0xbd;
  }

  // What follows a scalar.
  lemma ScalarThen(front: Bytes, rest: Bytes)
    requires DecodeScalar(front + rest).Some? && DecodeScalar(front + rest).value.1 == |front|
    ensures DecodeUtf8(front + rest).Some? <==> DecodeUtf8(rest).Some?
    ensures HasMark(front + rest) <==> front == REPLACEMENT || HasMark(rest)
    ensures Lossy(front + rest) == front + Lossy(rest)
  {
    var b := front + rest;
    assert b[..|front|] == front && b[|front|..] == rest;
  }

  lemma {:induction false} LossyOfUtf8(b: Bytes)
    requires DecodeUtf8(b).Some?
    ensures Lossy(b) == b
  {
    if b != [] {
      DecodedFront(b);
      LossyOfUtf8(b[DecodeScalar(b).value.1..]);
    }
  }

  /** What is decoded lossily is UTF-8, and shows it. */
  lemma {:induction false} LossyDecodes(b: Bytes)
    ensures DecodeUtf8(Lossy(b)).Some?
    ensures DecodeUtf8(b).None? ==> HasMark(Lossy(b))
    decreases |b|
  {
    if b != [] {
      var head := DecodeScalar(b);
      if head.Some? {
        var n := head.value.1;
        LossyDecodes(b[n..]);
        DecodeScalarFront(b, Lossy(b[n..]));
        ScalarThen(b[..n], Lossy(b[n..]));
        assert b == b[..n] + b[n..];
        ScalarThen(b[..n], b[n..]);
      } else {
        var rest := Lossy(b[BadLength(b)..]);
        LossyDecodes(b[BadLength(b)..]);
        ReplacementScalar(rest);
        ScalarThen(REPLACEMENT, rest);
      }
    }
  }

  /** Legible text is read from itself alone. */
  lemma LegibleAlone(a: Bytes, b: Bytes)
    requires Legible(b) && Lossy(a) == Lossy(b)
    ensures a == b
  {
    LossyOfUtf8(b);
    LossyDecodes(a);
    if DecodeUtf8(a).Some? { LossyOfUtf8(a); }
  }

  /** Decoding makes no ASCII byte, and loses none. */
  lemma {:induction false} LossyAscii(b: Bytes, x: Byte)
    requires x < 0x80
    ensures x in Lossy(b) <==> x in b
    decreases |b|
  {
    if b != [] {
      var head := DecodeScalar(b);
      var n := if head.Some? then head.value.1 else BadLength(b);
      assert b == b[..n] + b[n..];
      LossyAscii(b[n..], x);
      if head.None? {
        assert forall i :: 0 <= i < n ==> b[i] >= 0x80;
        assert x !in b[..n] && x !in REPLACEMENT;
      }
    }
  }

  /** Bytes that are no UTF-8 and read like this text: the first U+FFFD becomes a stray byte. */
  function Broken(b: Bytes): Bytes
    requires HasMark(b)
  {
    var n := DecodeScalar(b).value.1;
    if b[..n] == REPLACEMENT then [0xff] + b[n..] else b[..n] + Broken(b[n..])
  }

  lemma StrayByte(rest: Bytes)
    ensures DecodeUtf8([0xff] + rest).None? && Lossy([0xff] + rest) == REPLACEMENT + Lossy(rest)
  {
    assert DecodeScalar([0xff] + rest).None? && BadLength([0xff] + rest) == 1;
    assert ([0xff] + rest)[1..] == rest;
  }

  lemma {:induction false} BrokenReads(b: Bytes)
    requires HasMark(b)
    ensures DecodeUtf8(Broken(b)).None? && Lossy(Broken(b)) == Lossy(b)
    ensures forall x :: x in Broken(b) ==> x in b || x == 0xff
    ensures 0xff in Broken(b)
  {
    var n := DecodeScalar(b).value.1;
    assert b == b[..n] + b[n..];
    if b[..n] == REPLACEMENT {
      StrayByte(b[n..]);
    } else {
      BrokenReads(b[n..]);
      DecodeScalarFront(b, Broken(b[n..]));
      ScalarThen(b[..n], Broken(b[n..]));
    }
  }

  // Concatenation and ASCII

  lemma {:induction false} DecodeConcat(a: Bytes, b: Bytes)
    requires DecodeUtf8(a).Some? && DecodeUtf8(b).Some?
    ensures DecodeUtf8(a + b).Some?
    decreases |a|
  {
    if a == [] {
      assert a + b == b;
    } else {
      DecodedFront(a);
      var n := DecodeScalar(a).value.1;
      assert a + b == a[..n] + (a[n..] + b);
      DecodeScalarFront(a, a[n..] + b);
      DecodeConcat(a[n..], b);
      ScalarThen(a[..n], a[n..] + b);
    }
  }

  /** The same but for ASCII bytes that are other ASCII bytes. */
  predicate AsciiChanged(a: Bytes, b: Bytes) {
    |a| == |b| && forall i :: 0 <= i < |a| ==> a[i] == b[i] || (a[i] < 0x80 && b[i] < 0x80)
  }

  lemma {:induction false} DecodeAsciiChanged(a: Bytes, b: Bytes)
    requires AsciiChanged(a, b) && DecodeUtf8(a).Some?
    ensures DecodeUtf8(b).Some?
    decreases |a|
  {
    if a != [] {
      DecodedFront(a);
      var n := DecodeScalar(a).value.1;
      ScalarAsciiChanged(a, b);
      DecodeAsciiChanged(a[n..], b[n..]);
      assert b == b[..n] + b[n..];
    }
  }

  lemma ScalarAsciiChanged(a: Bytes, b: Bytes)
    requires AsciiChanged(a, b) && DecodeScalar(a).Some?
    ensures DecodeScalar(b).Some? && DecodeScalar(b).value.1 == DecodeScalar(a).value.1
  {
    var n := DecodeScalar(a).value.1;
    if n > 1 { assert forall i :: 0 <= i < n ==> b[i] == a[i]; }
  }
}
