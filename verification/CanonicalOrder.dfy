/** The keys of an object in the order in which its canonical text spells them. */
module CanonicalOrder {
  import opened Wrappers
  import opened Unicode
  import opened CanonicalJson
  import opened JsonParser
  import opened CanonicalCodec
  import Order

  /** The keys of one or more members, as they come, up to the closing brace. */
  function ReadKeys(inexact: Rounding, s: Text): (r: Parsed<seq<Text>>)
    decreases |s|
  {
    if s == [] || s[0] != QUOTE then None
    else
      var key := ParseChars(s[1..]);
      if key.None? then None
      else
        var colon := SkipWhite(key.value.1);
        if colon == [] || colon[0] != COLON then None
        else
          var head := ParseValue(inexact, SkipWhite(colon[1..]));
          if head.None? then None
          else KeysAfter(inexact, key.value.0, SkipWhite(head.value.1))
  }

  function KeysAfter(inexact: Rounding, key: Text, next: Text): Parsed<seq<Text>>
    decreases |next|
  {
    if next == [] then None
    else if next[0] == CLOSE_BRACE then Some(([key], next[1..]))
    else if next[0] != COMMA then None
    else
      var tail := ReadKeys(inexact, SkipWhite(next[1..]));
      if tail.None? then None else Some(([key] + tail.value.0, tail.value.1))
  }

  lemma KeyStep(inexact: Rounding, key: Text, value: Json, after: Text)
    requires Serializable(value) && after != [] && !White(after[0])
    requires ParseValue(inexact, Render(value) + after) == Some((value, after))
    ensures ReadKeys(inexact, Quote(key) + ([COLON] + (Render(value) + after))) == KeysAfter(inexact, key, after)
  {
    var colon := [COLON] + (Render(value) + after);
    var s := Quote(key) + colon;
    QuoteRoundTrip(key, colon);
    assert s[0] == QUOTE;
    SkipNothing(colon);
    assert colon[1..] == Render(value) + after;
    RenderHead(value);
    assert (Render(value) + after)[0] == Render(value)[0];
    SkipNothing(Render(value) + after);
    SkipNothing(after);
  }

  lemma {:induction false} KeysRead(inexact: Rounding, v: Json, keys: seq<Text>, rest: Text)
    requires Serializable(v) && v.Object? && keys != [] && forall k :: k in keys ==> k in v.members
    ensures ReadKeys(inexact, RenderMembers(v, keys) + ([CLOSE_BRACE] + rest)) == Some((keys, rest))
    decreases |keys|
  {
    var after := MembersTail(v, keys, rest);
    MembersText(v, keys, rest);
    ValueRoundTrip(inexact, v.members[keys[0]], after);
    KeyStep(inexact, keys[0], v.members[keys[0]], after);
    if |keys| > 1 { KeysRead(inexact, v, keys[1..], rest); }
    KeysCombine(inexact, v, keys, rest);
  }

  lemma KeysCombine(inexact: Rounding, v: Json, keys: seq<Text>, rest: Text)
    requires v.Object? && keys != [] && forall k :: k in keys ==> k in v.members
    requires |keys| > 1 ==> ReadKeys(inexact, RenderMembers(v, keys[1..]) + ([CLOSE_BRACE] + rest)) == Some((keys[1..], rest))
    ensures KeysAfter(inexact, keys[0], MembersTail(v, keys, rest)) == Some((keys, rest))
  {
    var after := MembersTail(v, keys, rest);
    if |keys| == 1 {
      assert after[1..] == rest && keys == [keys[0]];
    } else {
      var tail := RenderMembers(v, keys[1..]) + ([CLOSE_BRACE] + rest);
      assert after[1..] == tail;
      QuoteRoundTrip(keys[1], []);
      SkipNothing(tail);
      assert keys == [keys[0]] + keys[1..];
    }
  }

  /** The canonical text of an object spells each key once; of two keys the one that is a proper prefix
      of the other, or has the smaller code unit where they first differ, comes first. */
  lemma KeysInOrder(inexact: Rounding, members: map<Text, Json>)
    requires Serializable(Object(members)) && members != map[]
    ensures
      var read := ReadKeys(inexact, Render(Object(members))[1..]);
      && read.Some? && (forall k :: k in read.value.0 <==> k in members)
      && forall i, j :: 0 <= i < j < |read.value.0| ==>
           read.value.0[i] < read.value.0[j] || exists p: nat :: Order.SmallerAt(read.value.0[i], read.value.0[j], p)
  {
    var v, keys := Object(members), Keys(members);
    var k :| k in members;
    assert k in keys;
    KeysRead(inexact, v, keys, []);
    assert Render(v)[1..] == RenderMembers(v, keys) + ([CLOSE_BRACE] + []);
    forall i, j | 0 <= i < j < |keys|
      ensures keys[i] < keys[j] || exists p: nat :: Order.SmallerAt(keys[i], keys[j], p) {
      Order.LessExactly(keys[i], keys[j]);
    }
  }

  // Tokens

  /** The tokens are those of JSON. */
  lemma TokensSpelled()
    ensures [QUOTE] == Ascii("\"") && [BACKSLASH] == Ascii("\\") && [COMMA] == Ascii(",") && [COLON] == Ascii(":")
    ensures [OPEN_BRACKET] == Ascii("[") && [CLOSE_BRACKET] == Ascii("]")
    ensures [OPEN_BRACE] == Ascii("{") && [CLOSE_BRACE] == Ascii("}") && [MINUS] == Ascii("-") && [ZERO] == Ascii("0")
    ensures Render(Null) == Ascii("null") && Render(Bool(true)) == Ascii("true") && Render(Bool(false)) == Ascii("false")
  {
  }
}
