/** Which of the spellings of a value is the canonical one: no text of it is shorter, its keys are in
    code-unit order, and its escapes have small hexadecimal digits. */
module CanonicalShortest {
  import opened Wrappers
  import opened Unicode
  import opened CanonicalJson
  import opened JsonParser
  import opened CanonicalCodec
  import Order

  // Strings

  /** No spelling of a code unit is shorter than its escape. */
  lemma UnitShortest(t: Text, c: CodeUnit, rest: Text)
    requires ParseUnit(t) == Some((c, rest))
    ensures |EscapeUnit(c)| + |rest| <= |t|
  {
  }

  predicate LowerHex(c: CodeUnit) { 0x30 <= c < 0x3a || 0x61 <= c < 0x67 }

  /** And one as short is the escape itself, if its hexadecimal digits are small letters. */
  lemma UnitUnique(t: Text, c: CodeUnit, rest: Text)
    requires ParseUnit(t) == Some((c, rest)) && |EscapeUnit(c)| + |rest| == |t|
    requires |t| - |rest| == 6 ==> forall i :: 2 <= i < 6 ==> LowerHex(t[i])
    ensures t == EscapeUnit(c) + rest
    ensures |EscapeUnit(c)| == 6 ==> forall i :: 2 <= i < 6 ==> LowerHex(EscapeUnit(c)[i])
  {
    if |EscapeUnit(c)| == 6 {
      HexUnique(t[2..], c);
      assert t[2] == t[2..][0] && t[3] == t[2..][1] && t[4] == t[2..][2] && t[5] == t[2..][3];
      assert t == t[..6] + t[6..] && t[..6] == EscapeUnit(c);
    } else if |EscapeUnit(c)| == 2 {
      assert t == t[..2] + t[2..];
    } else {
      assert t == [t[0]] + t[1..];
    }
  }

  lemma HexUnique(s: Text, c: CodeUnit)
    requires Hex4(s) == Some(c) && c < 0x20 && forall i :: 0 <= i < 4 ==> LowerHex(s[i])
    ensures s[0] == ZERO && s[1] == ZERO && s[2] == HexDigit(c / 16) && s[3] == HexDigit(c % 16)
  {
    var a, b, d, e := HexValue(s[0]).value, HexValue(s[1]).value, HexValue(s[2]).value, HexValue(s[3]).value;
    assert c == 4096 * a + 256 * b + 16 * d + e;
    assert a == 0 && b == 0 && c / 16 == d && c % 16 == e;
  }

  /** No spelling of a string is shorter than its canonical one. */
  lemma {:induction false} CharsShortest(t: Text, s: Text, rest: Text)
    requires ParseChars(t) == Some((s, rest))
    ensures |Escape(s)| + 1 + |rest| <= |t|
    decreases |t|
  {
    if t[0] != QUOTE {
      var (c, next) := ParseUnit(t).value;
      UnitShortest(t, c, next);
      CharsShortest(next, s[1..], rest);
      assert s == [c] + s[1..];
    }
  }

  // Numbers

  lemma {:induction false} DecimalShortest(ds: Text)
    requires ds != [] && forall i :: 0 <= i < |ds| ==> Digit(ds[i])
    ensures |Decimal(DigitsValue(ds))| <= |ds|
  {
    var n := |ds| - 1;
    assert Digit(ds[n]);
    if n > 0 {
      DecimalShortest(ds[..n]);
      var m, d := DigitsValue(ds[..n]), ds[n] - ZERO;
      assert (10 * m + d) / 10 == m;
    } else {
      assert ds[..n] == [];
    }
  }

  /** A rounding that gives no integer: integers are spelled in plain digits. */
  ghost predicate PlainIntegers(inexact: Rounding) { forall t :: !inexact(t).Integer? }

  lemma IntegerParts(inexact: Rounding, t: Text, n: int, rest: Text) returns (negative: bool, ds: Text)
    requires PlainIntegers(inexact) && ParseNumber(inexact, t) == Some((Integer(n), rest))
    ensures ds != [] && forall i :: 0 <= i < |ds| ==> Digit(ds[i])
    ensures |ds| + (if negative then 1 else 0) + |rest| <= |t|
    ensures if negative then n + DigitsValue(ds) == 0 else n == DigitsValue(ds)
  {
    negative := t != [] && t[0] == MINUS;
    var body := if negative then t[1..] else t;
    var Literal(whole, length) := ScanUnsigned(body).value;
    ds := body[..whole];
    assert Digit(body[0]);
    IntegerValue(inexact, negative, whole == length, DigitsValue(ds), t[..|t| - |body| + length], n);
    assert rest == body[length..];
  }

  lemma IntegerValue(inexact: Rounding, negative: bool, plain: bool, m: nat, text: Text, n: int)
    requires PlainIntegers(inexact) && NumberValue(inexact, negative, plain, m, text) == Integer(n)
    ensures if negative then n + m == 0 else n == m
  {
  }

  lemma NumberShortest(inexact: Rounding, t: Text, n: int, rest: Text)
    requires PlainIntegers(inexact) && ParseNumber(inexact, t) == Some((Integer(n), rest))
    ensures |IntegerText(n)| + |rest| <= |t|
  {
    var negative, ds := IntegerParts(inexact, t, n, rest);
    var m := DigitsValue(ds);
    DecimalShortest(ds);
    assert IntegerText(n) == if negative && m > 0 then [MINUS] + Decimal(m) else Decimal(m);
  }

  // Members

  function MemberLength(v: Json, k: Text): nat
    requires v.Object? && k in v.members
  {
    |Quote(k)| + 1 + |Render(v.members[k])|
  }

  function Lengths(v: Json, keys: seq<Text>): nat
    requires v.Object? && forall k :: k in keys ==> k in v.members
  {
    if keys == [] then 0 else MemberLength(v, keys[0]) + Lengths(v, keys[1..])
  }

  lemma {:induction false} MembersLength(v: Json, keys: seq<Text>)
    requires v.Object? && keys != [] && forall k :: k in keys ==> k in v.members
    ensures |RenderMembers(v, keys)| == Lengths(v, keys) + |keys| - 1
    decreases |keys|
  {
    if |keys| > 1 { MembersLength(v, keys[1..]); }
  }

  lemma {:induction false} LengthsConcat(v: Json, a: seq<Text>, b: seq<Text>)
    requires v.Object? && (forall k :: k in a ==> k in v.members) && forall k :: k in b ==> k in v.members
    ensures Lengths(v, a + b) == Lengths(v, a) + Lengths(v, b)
    decreases |a|
  {
    if a == [] {
      assert a + b == b;
    } else {
      assert (a + b)[1..] == a[1..] + b;
      LengthsConcat(v, a[1..], b);
    }
  }

  lemma {:induction false} LengthsFrame(u: Json, v: Json, keys: seq<Text>)
    requires u.Object? && v.Object?
    requires forall k :: k in keys ==> k in u.members && k in v.members && u.members[k] == v.members[k]
    ensures Lengths(u, keys) == Lengths(v, keys)
    decreases |keys|
  {
    if keys != [] { LengthsFrame(u, v, keys[1..]); }
  }

  /** One more member makes an object's text longer by the member and a comma. */
  lemma OneMore(members: map<Text, Json>, k: Text, x: Json)
    requires k !in members && members != map[]
    ensures |RenderMembers(Object(members[k := x]), Keys(members[k := x]))| ==
      |RenderMembers(Object(members), Keys(members))| + 1 + |Quote(k)| + 1 + |Render(x)|
  {
    var more := members[k := x];
    var u, v := Object(members), Object(more);
    var keys := Keys(members);
    var i := Order.Inserted(keys, k);
    Order.IncreasingUnique(Keys(more), keys[..i] + [k] + keys[i..]);
    assert keys == keys[..i] + keys[i..];
    KeysExist(members);
    MembersLength(u, keys);
    MembersLength(v, Keys(more));
    LengthsAround(u, v, keys[..i], k, keys[i..]);
  }

  lemma KeysExist(members: map<Text, Json>)
    requires members != map[]
    ensures Keys(members) != []
  {
    var k :| k in members;
    assert k in Keys(members);
  }

  lemma LengthsAround(u: Json, v: Json, lo: seq<Text>, k: Text, hi: seq<Text>)
    requires u.Object? && v.Object? && k in v.members
    requires forall n :: n in lo || n in hi ==> n in u.members && n in v.members && u.members[n] == v.members[n]
    ensures Lengths(v, lo + [k] + hi) == Lengths(u, lo + hi) + MemberLength(v, k)
  {
    LengthsConcat(v, lo + [k], hi);
    LengthsConcat(v, lo, [k]);
    LengthsConcat(u, lo, hi);
    LengthsFrame(u, v, lo);
    LengthsFrame(u, v, hi);
    assert [k][1..] == [];
  }

  lemma OneMember(k: Text, x: Json)
    ensures |RenderMembers(Object(map[k := x]), Keys(map[k := x]))| == |Quote(k)| + 1 + |Render(x)|
  {
    Order.IncreasingUnique(Keys(map[k := x]), [k]);
  }

  // Values

  /** No text of a value is shorter than its canonical one: no white space stands outside strings, and
      nothing is escaped that need not be. */
  lemma {:induction false} ValueShortest(inexact: Rounding, t: Text, v: Json, rest: Text)
    requires PlainIntegers(inexact) && Serializable(v) && ParseValue(inexact, t) == Some((v, rest))
    ensures |Render(v)| + |rest| <= |t|
    decreases |t|, 0
  {
    if t[0] == QUOTE {
      CharsShortest(t[1..], v.s, rest);
    } else if t[0] == OPEN_BRACKET {
      var inner := SkipWhite(t[1..]);
      if inner[0] != CLOSE_BRACKET { ItemsShortest(inexact, inner, v.items, rest); }
    } else if t[0] == OPEN_BRACE {
      var inner := SkipWhite(t[1..]);
      if inner[0] == CLOSE_BRACE {
        NoMembers();
      } else {
        MembersShortest(inexact, inner, v.members, rest);
      }
    } else if !(NULL_TEXT <= t) && !(TRUE_TEXT <= t) && !(FALSE_TEXT <= t) {
      NumberShortest(inexact, t, v.x.n, rest);
    }
  }

  lemma NoMembers()
    ensures Render(Object(map[])) == [OPEN_BRACE, CLOSE_BRACE]
  {
    if Keys(map[]) != [] { assert Keys(map[])[0] in Keys(map[]); }
  }

  lemma {:induction false} ItemsShortest(inexact: Rounding, t: Text, items: seq<Json>, rest: Text)
    requires PlainIntegers(inexact) && ParseItems(inexact, t) == Some((items, rest))
    requires forall i :: 0 <= i < |items| ==> Serializable(items[i])
    ensures items != [] && |RenderItems(items)| + 1 + |rest| <= |t|
    decreases |t|, 1
  {
    var (head, after) := ParseValue(inexact, t).value;
    var next := SkipWhite(after);
    assert items[0] == head;
    ValueShortest(inexact, t, head, after);
    if next[0] == COMMA {
      assert items[1..] == ParseItems(inexact, SkipWhite(next[1..])).value.0;
      ItemsShortest(inexact, SkipWhite(next[1..]), items[1..], rest);
    }
  }

  function ObjectLength(members: map<Text, Json>): nat { |RenderMembers(Object(members), Keys(members))| }

  /** What a later duplicate overrides is not counted. */
  lemma OverriddenLength(key: Text, head: Json, tail: map<Text, Json>)
    requires tail != map[]
    ensures key in tail ==> map[key := head] + tail == tail
    ensures key !in tail ==>
      ObjectLength(map[key := head] + tail) == ObjectLength(tail) + 1 + |Quote(key)| + 1 + |Render(head)|
  {
    if key !in tail {
      assert map[key := head] + tail == tail[key := head];
      OneMore(tail, key, head);
    }
  }

  /** The first member of a text, and what comes after it. */
  lemma FirstMember(inexact: Rounding, t: Text, members: map<Text, Json>, rest: Text)
    returns (key: Text, value: Text, head: Json, next: Text)
    requires ParseMembers(inexact, t) == Some((members, rest))
    ensures ParseValue(inexact, value).Some? && ParseValue(inexact, value).value.0 == head
    ensures |Quote(key)| + 1 + |value| <= |t| && next != [] && |next| <= |ParseValue(inexact, value).value.1|
    ensures next[0] == CLOSE_BRACE || next[0] == COMMA
    ensures next[0] == CLOSE_BRACE ==> members == map[key := head] && rest == next[1..]
    ensures next[0] == COMMA ==>
      var tail := ParseMembers(inexact, SkipWhite(next[1..]));
      tail.Some? && members == map[key := head] + tail.value.0 && tail.value.1 == rest
  {
    var chars := ParseChars(t[1..]).value;
    key := chars.0;
    value := SkipWhite(SkipWhite(chars.1)[1..]);
    head, next := ParseValue(inexact, value).value.0, SkipWhite(ParseValue(inexact, value).value.1);
    CharsShortest(t[1..], key, chars.1);
  }

  lemma {:induction false} MembersShortest(inexact: Rounding, t: Text, members: map<Text, Json>, rest: Text)
    requires PlainIntegers(inexact) && ParseMembers(inexact, t) == Some((members, rest)) && Serializable(Object(members))
    ensures members != map[] && ObjectLength(members) + 1 + |rest| <= |t|
    decreases |t|, 1
  {
    var key, value, head, next := FirstMember(inexact, t, members, rest);
    var after := ParseValue(inexact, value).value.1;
    if next[0] == CLOSE_BRACE {
      assert Serializable(members[key]);
      ValueShortest(inexact, value, head, after);
      OneMember(key, head);
    } else {
      var tail := ParseMembers(inexact, SkipWhite(next[1..])).value.0;
      TailSerializable(key, head, tail);
      MembersShortest(inexact, SkipWhite(next[1..]), tail, rest);
      OverriddenLength(key, head, tail);
      if key !in tail { ValueShortest(inexact, value, head, after); }
    }
  }

  lemma TailSerializable(key: Text, head: Json, tail: map<Text, Json>)
    requires Serializable(Object(map[key := head] + tail))
    ensures Serializable(Object(tail)) && (key !in tail ==> Serializable(head))
  {
    var members := map[key := head] + tail;
    assert key in members;
    assert forall k :: k in tail ==> k in members && members[k] == tail[k];
  }

  /** Whatever the engine's rounding gives beside integers in plain digits, every text that is parsed
      to a value is at least as long as the value's canonical text. */
  lemma CanonicalIsShortest(inexact: Rounding, t: Text, v: Json)
    requires PlainIntegers(inexact) && Serializable(v) && JsonParse(inexact, t) == Some(v)
    ensures |Render(v)| <= |t|
  {
    var (w, rest) := ParseValue(inexact, SkipWhite(t)).value;
    ValueShortest(inexact, SkipWhite(t), v, rest);
  }
}
