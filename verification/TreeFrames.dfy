/** The length-framed record stream that both tree digests hash (filesystem.ts, pipeline.ts). */
module TreeFrames {
  import opened Wrappers
  import opened Unicode
  import opened CanonicalJson
  import CanonicalCodec
  import CanonicalParser

  /** `String(Buffer.byteLength(record)) + ":" + record`; ASCII digits are their own UTF-8. */
  function Frame(record: Bytes): Bytes {
    var length: Bytes := Decimal(|record|);
    length + [COLON] + record
  }

  function Frames(records: seq<Bytes>): Bytes {
    if records == [] then [] else Frame(records[0]) + Frames(records[1..])
  }

  // The colon ends the length, and the length ends the record.
  lemma FrameSplits(a: Bytes, b: Bytes, x: Bytes, y: Bytes)
    requires Frame(a) + x == Frame(b) + y
    ensures a == b && x == y
  {
    var m, n := Decimal(|a|), Decimal(|b|);
    var s, t := Frame(a) + x, Frame(b) + y;
    assert s[..|m|] == m && s[|m|] == COLON && t[..|n|] == n && t[|n|] == COLON;
    assert forall i :: 0 <= i < |m| ==> s[i] != COLON;
    assert forall i :: 0 <= i < |n| ==> t[i] != COLON;
    assert |m| == |n|;
    CanonicalCodec.DecimalInjective(|a|, |b|);
    assert a == s[|m| + 1..][..|a|] && b == t[|n| + 1..][..|b|];
    assert x == s[|m| + 1..][|a|..] && y == t[|n| + 1..][|b|..];
  }

  lemma {:induction false} FramesInjective(a: seq<Bytes>, b: seq<Bytes>)
    requires Frames(a) == Frames(b)
    ensures a == b
  {
    if a != [] && b != [] {
      FrameSplits(a[0], b[0], Frames(a[1..]), Frames(b[1..]));
      FramesInjective(a[1..], b[1..]);
      assert a == [a[0]] + a[1..] && b == [b[0]] + b[1..];
    }
  }

  /** `JSON.stringify(record)`, which is canonical for arrays of well-formed strings and safe integers. */
  function Payload(record: Json): Bytes
    requires Serializable(record)
  {
    CanonicalParser.RenderValid(record);
    EncodeUtf8(Render(record))
  }

  predicate AllSerializable(records: seq<Json>) {
    forall i :: 0 <= i < |records| ==> Serializable(records[i])
  }

  function Payloads(records: seq<Json>): (r: seq<Bytes>)
    requires AllSerializable(records)
  {
    seq(|records|, i requires 0 <= i < |records| => Payload(records[i]))
  }

  function Stream(header: Bytes, records: seq<Json>): Bytes
    requires AllSerializable(records)
  {
    header + Frames(Payloads(records))
  }

  lemma PayloadInjective(a: Json, b: Json)
    requires Serializable(a) && Serializable(b) && Payload(a) == Payload(b)
    ensures a == b
  {
    CanonicalParser.RenderValid(a);
    CanonicalParser.RenderValid(b);
    EncodeInjective(Render(a), Render(b));
    CanonicalCodec.CanonicalInjective(a, b);
  }

  /** Equal streams carry equal records, in the same order. */
  lemma StreamInjective(header: Bytes, a: seq<Json>, b: seq<Json>)
    requires AllSerializable(a) && AllSerializable(b)
    requires Stream(header, a) == Stream(header, b)
    ensures a == b
  {
    assert Frames(Payloads(a)) == Stream(header, a)[|header|..];
    assert Frames(Payloads(b)) == Stream(header, b)[|header|..];
    FramesInjective(Payloads(a), Payloads(b));
    assert |a| == |Payloads(a)| == |b|;
    forall i | 0 <= i < |a| ensures a[i] == b[i] {
      assert Payloads(a)[i] == Payloads(b)[i];
      PayloadInjective(a[i], b[i]);
    }
  }
}
