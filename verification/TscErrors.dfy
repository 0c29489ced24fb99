/** Compiler output and the differencing of its errors (verifier.ts). */
module TscErrors {
  import opened Wrappers

  /** A diagnostic at a file position, with the lines of its raw text. */
  datatype TypeError = TypeError(file: string, line: int, col: int, code: string, message: seq<string>, raw: seq<string>)

  /** The regular expressions: what a line with a location says, the code of a global diagnostic,
      and whether a line is an indented continuation or blank. */
  datatype Grammar = Grammar(
    located: string -> Option<TypeError>,
    globalCode: string -> Option<string>,
    indented: string -> bool,
    blank: string -> bool)

  /** A located, global or indented line has a character that is no white space; a located line is
      the whole raw text of its error. */
  ghost predicate Lawful(g: Grammar) {
    && (forall l :: g.located(l).Some? ==> !g.blank(l) && g.located(l).value.raw == [l])
    && (forall l :: g.globalCode(l).Some? || g.indented(l) ==> !g.blank(l))
  }

  // parseTscErrors

  /** The errors so far, and whether the last one still takes continuation lines. */
  datatype Parsing = Parsing(errors: seq<TypeError>, current: bool)

  function Continued(e: TypeError, l: string): TypeError {
    e.(message := e.message + [l], raw := e.raw + [l])
  }

  function ParseLine(g: Grammar, s: Parsing, l: string): Parsing {
    if g.located(l).Some? then Parsing(s.errors + [g.located(l).value], true)
    else if s.current && s.errors != [] && g.indented(l) then
      var n := |s.errors| - 1;
      s.(errors := s.errors[..n] + [Continued(s.errors[n], l)])
    else if g.blank(l) then s
    else s.(current := false)
  }

  function Parse(g: Grammar, lines: seq<string>): Parsing
    decreases |lines|
  {
    if lines == [] then Parsing([], false)
    else ParseLine(g, Parse(g, lines[..|lines| - 1]), lines[|lines| - 1])
  }

  method ParseTscErrors(g: Grammar, lines: seq<string>) returns (out: seq<TypeError>)
    ensures out == Parse(g, lines).errors
  {
    out := [];
    var current := false;
    assert lines[..0] == [];
    var i := 0;
    while i < |lines|
      invariant 0 <= i <= |lines| && Parsing(out, current) == Parse(g, lines[..i])
    {
      assert lines[..i + 1][..i] == lines[..i];
      var found := g.located(lines[i]);
      if found.Some? {
        out, current := out + [found.value], true;
      } else if current && out != [] && g.indented(lines[i]) {
        out := out[..|out| - 1] + [Continued(out[|out| - 1], lines[i])];
      } else if !g.blank(lines[i]) {
        current := false;
      }
      i := i + 1;
    }
    assert lines[..|lines|] == lines;
  }

  // hasUnclassifiedTscOutput

  /** Some line before position n opens a diagnostic, and only blank and continuation lines and
      other diagnostics follow it. */
  function Inside(g: Grammar, lines: seq<string>): bool
    decreases |lines|
  {
    if lines == [] then false
    else
      var l := lines[|lines| - 1];
      g.located(l).Some? || g.globalCode(l).Some? || Inside(g, lines[..|lines| - 1])
  }

  predicate ClassifiedLine(g: Grammar, inside: bool, l: string) {
    g.blank(l) || g.located(l).Some? || g.globalCode(l).Some? || (inside && g.indented(l))
  }

  /** Every line is blank, a diagnostic, or an indented line after one. */
  predicate Classified(g: Grammar, lines: seq<string>)
    decreases |lines|
  {
    lines == [] ||
    (Classified(g, lines[..|lines| - 1]) && ClassifiedLine(g, Inside(g, lines[..|lines| - 1]), lines[|lines| - 1]))
  }

  method HasUnclassifiedTscOutput(g: Grammar, lines: seq<string>) returns (unclassified: bool)
    requires Lawful(g)
    ensures unclassified <==> !Classified(g, lines)
  {
    var insideDiagnostic := false;
    assert lines[..0] == [];
    var i := 0;
    while i < |lines|
      invariant 0 <= i <= |lines| && Classified(g, lines[..i]) && insideDiagnostic == Inside(g, lines[..i])
    {
      assert lines[..i + 1][..i] == lines[..i];
      if g.blank(lines[i]) {
      } else if g.located(lines[i]).Some? || g.globalCode(lines[i]).Some? {
        insideDiagnostic := true;
      } else if !(insideDiagnostic && g.indented(lines[i])) {
        UnclassifiedStays(g, lines, i + 1);
        return true;
      }
      i := i + 1;
    }
    assert lines[..|lines|] == lines;
    return false;
  }

  predicate Opens(g: Grammar, l: string) { g.located(l).Some? || g.globalCode(l).Some? }

  /** The line is blank, opens a diagnostic, or is indented somewhere below a line that opened one. */
  predicate Accounted(g: Grammar, lines: seq<string>, i: nat)
    requires i < |lines|
  {
    g.blank(lines[i]) || Opens(g, lines[i]) || (g.indented(lines[i]) && exists j :: 0 <= j < i && Opens(g, lines[j]))
  }

  lemma {:induction false} InsideExactly(g: Grammar, lines: seq<string>)
    ensures Inside(g, lines) <==> exists j :: 0 <= j < |lines| && Opens(g, lines[j])
    decreases |lines|
  {
    if lines != [] {
      var rest := lines[..|lines| - 1];
      InsideExactly(g, rest);
      assert Inside(g, lines) <==> Opens(g, lines[|lines| - 1]) || Inside(g, rest);
      if Inside(g, rest) {
        var j :| 0 <= j < |rest| && Opens(g, rest[j]);
        assert lines[j] == rest[j];
      }
      forall j | 0 <= j < |lines| && Opens(g, lines[j]) ensures Inside(g, lines) {
        assert j < |rest| ==> rest[j] == lines[j];
      }
    }
  }

  /** Output is classified exactly when every line is accounted for. */
  lemma {:induction false} ClassifiedExactly(g: Grammar, lines: seq<string>)
    ensures Classified(g, lines) <==> forall i :: 0 <= i < |lines| ==> Accounted(g, lines, i)
    decreases |lines|
  {
    if lines != [] {
      var rest := lines[..|lines| - 1];
      ClassifiedExactly(g, rest);
      InsideExactly(g, rest);
      assert forall j :: 0 <= j < |rest| ==> rest[j] == lines[j];
      var n := |rest|;
      assert forall i :: 0 <= i < n ==> (Accounted(g, rest, i) <==> Accounted(g, lines, i));
      assert Accounted(g, lines, n) <==> ClassifiedLine(g, Inside(g, rest), lines[n]) by {
        assert Inside(g, rest) <==> exists j :: 0 <= j < n && Opens(g, lines[j]);
      }
      assert Classified(g, lines) <==> Classified(g, rest) && Accounted(g, lines, n);
    }
  }

  lemma {:induction false} UnclassifiedStays(g: Grammar, lines: seq<string>, i: nat)
    requires i <= |lines| && !Classified(g, lines[..i])
    ensures !Classified(g, lines)
    decreases |lines|
  {
    if i == |lines| {
      assert lines[..i] == lines;
    } else {
      assert lines[..|lines| - 1][..i] == lines[..i];
      UnclassifiedStays(g, lines[..|lines| - 1], i);
    }
  }

  // What parsing keeps

  function RawLines(errors: seq<TypeError>): seq<string>
    decreases |errors|
  {
    if errors == [] then [] else RawLines(errors[..|errors| - 1]) + errors[|errors| - 1].raw
  }

  function NonBlank(g: Grammar, lines: seq<string>): seq<string>
    decreases |lines|
  {
    if lines == [] then []
    else NonBlank(g, lines[..|lines| - 1]) + if g.blank(lines[|lines| - 1]) then [] else [lines[|lines| - 1]]
  }

  lemma RawLinesPush(errors: seq<TypeError>, e: TypeError)
    ensures RawLines(errors + [e]) == RawLines(errors) + e.raw
  {
    assert (errors + [e])[..|errors|] == errors;
  }

  // One line adds its text, or nothing.
  lemma ParseLineRaw(g: Grammar, s: Parsing, l: string)
    requires Lawful(g)
    ensures RawLines(ParseLine(g, s, l).errors) ==
      RawLines(s.errors) + if g.located(l).Some? || (s.current && s.errors != [] && g.indented(l)) then [l] else []
  {
    if g.located(l).Some? {
      RawLinesPush(s.errors, g.located(l).value);
    } else if s.current && s.errors != [] && g.indented(l) {
      var n := |s.errors| - 1;
      RawLinesPush(s.errors[..n], s.errors[n]);
      RawLinesPush(s.errors[..n], Continued(s.errors[n], l));
      assert s.errors == s.errors[..n] + [s.errors[n]];
      assert RawLines(s.errors[..n]) + (s.errors[n].raw + [l]) == (RawLines(s.errors[..n]) + s.errors[n].raw) + [l];
    }
  }

  /** r lists elements of `all` at increasing positions. */
  ghost predicate ListedAt<T>(at: seq<nat>, r: seq<T>, all: seq<T>) {
    && |at| == |r|
    && (forall i :: 0 <= i < |at| ==> at[i] < |all| && all[at[i]] == r[i])
    && forall i, j :: 0 <= i < j < |at| ==> at[i] < at[j]
  }

  lemma ListedFurther<T>(at: seq<nat>, r: seq<T>, all: seq<T>, x: T)
    requires ListedAt(at, r, all)
    ensures ListedAt(at, r, all + [x]) && ListedAt(at + [|all|], r + [x], all + [x])
  {
  }

  /** Parsing never invents, repeats or reorders text: what it keeps are the non-blank lines at
      some increasing positions. */
  lemma {:induction false} ParseLoses(g: Grammar, lines: seq<string>) returns (at: seq<nat>)
    requires Lawful(g)
    ensures ListedAt(at, RawLines(Parse(g, lines).errors), NonBlank(g, lines))
    ensures Parse(g, lines).current ==> Parse(g, lines).errors != []
    decreases |lines|
  {
    at := [];
    if lines != [] {
      var n := |lines| - 1;
      at := ParseLoses(g, lines[..n]);
      var s, kept := Parse(g, lines[..n]), NonBlank(g, lines[..n]);
      ParseLineRaw(g, s, lines[n]);
      if !g.blank(lines[n]) { ListedFurther(at, RawLines(s.errors), kept, lines[n]); }
      if g.located(lines[n]).Some? || (s.current && s.errors != [] && g.indented(lines[n])) { at := at + [|kept|]; }
    }
  }

  lemma {:induction false} ListedShorter<T>(at: seq<nat>, r: seq<T>, all: seq<T>)
    requires ListedAt(at, r, all)
    ensures |r| <= |all|
    decreases |r|
  {
    if r != [] {
      var n := |r| - 1;
      assert ListedAt(at[..n], r[..n], all[..at[n]]);
      ListedShorter(at[..n], r[..n], all[..at[n]]);
    }
  }

  lemma ParseShortens(g: Grammar, lines: seq<string>)
    requires Lawful(g)
    ensures |RawLines(Parse(g, lines).errors)| <= |NonBlank(g, lines)|
    ensures Parse(g, lines).current ==> Parse(g, lines).errors != []
  {
    var at := ParseLoses(g, lines);
    ListedShorter(at, RawLines(Parse(g, lines).errors), NonBlank(g, lines));
  }

  /** Without a global diagnostic, every non-blank line belongs to exactly one parsed error, in
      order, if and only if the output is classified. */
  lemma {:induction false} ParseComplete(g: Grammar, lines: seq<string>)
    requires Lawful(g) && forall i :: 0 <= i < |lines| ==> g.globalCode(lines[i]).None?
    ensures RawLines(Parse(g, lines).errors) == NonBlank(g, lines) <==> Classified(g, lines)
    ensures |RawLines(Parse(g, lines).errors)| == |NonBlank(g, lines)| <==> Classified(g, lines)
    ensures Classified(g, lines) ==> Parse(g, lines).current == Inside(g, lines)
    decreases |lines|
  {
    if lines != [] {
      var n := |lines| - 1;
      ParseComplete(g, lines[..n]);
      ParseShortens(g, lines[..n]);
      ParseLineRaw(g, Parse(g, lines[..n]), lines[n]);
    }
  }

  /** What an error says is what its first line says, and its other lines end its message. */
  ghost predicate OfItsLines(g: Grammar, e: TypeError) {
    && e.raw != [] && g.located(e.raw[0]).Some?
    && var first := g.located(e.raw[0]).value;
    && e.file == first.file && e.line == first.line && e.col == first.col && e.code == first.code
    && e.message == first.message + e.raw[1..]
    && forall i :: 0 < i < |e.raw| ==> g.indented(e.raw[i]) && g.located(e.raw[i]).None?
  }

  /** Every parsed error is that of its lines: a continued diagnostic keeps its whole message. */
  lemma {:induction false} ParsedFromLines(g: Grammar, lines: seq<string>)
    requires Lawful(g)
    ensures forall e :: e in Parse(g, lines).errors ==> OfItsLines(g, e)
    decreases |lines|
  {
    if lines != [] {
      var s, l := Parse(g, lines[..|lines| - 1]), lines[|lines| - 1];
      ParsedFromLines(g, lines[..|lines| - 1]);
      if g.located(l).Some? {
        assert [l][1..] == [] && g.located(l).value.message + [] == g.located(l).value.message;
      } else if s.current && s.errors != [] && g.indented(l) {
        var e := s.errors[|s.errors| - 1];
        assert e in s.errors && OfItsLines(g, e);
        assert (e.raw + [l])[1..] == e.raw[1..] + [l];
        assert OfItsLines(g, Continued(e, l));
        assert forall x :: x in s.errors[..|s.errors| - 1] ==> x in s.errors;
      }
    }
  }

  // introducedErrors

  /** `signature`: any text computed from an error. */
  type Signature = TypeError -> string

  function Count(sign: Signature, errors: seq<TypeError>, key: string): nat
    decreases |errors|
  {
    if errors == [] then 0
    else Count(sign, errors[..|errors| - 1], key) + if sign(errors[|errors| - 1]) == key then 1 else 0
  }

  lemma CountPush(sign: Signature, errors: seq<TypeError>, e: TypeError, key: string)
    ensures Count(sign, errors + [e], key) == Count(sign, errors, key) + if sign(e) == key then 1 else 0
  {
    assert (errors + [e])[..|errors|] == errors;
  }

  lemma CountStep(sign: Signature, errors: seq<TypeError>, i: nat, key: string)
    requires i < |errors|
    ensures Count(sign, errors[..i + 1], key) == Count(sign, errors[..i], key) + if sign(errors[i]) == key then 1 else 0
  {
    assert errors[..i + 1] == errors[..i] + [errors[i]];
    CountPush(sign, errors[..i], errors[i], key);
  }

  /** An error is introduced when its signature has already occurred as often as in the baseline. */
  function Introduced(sign: Signature, after: seq<TypeError>, baseline: seq<TypeError>): seq<TypeError>
    decreases |after|
  {
    if after == [] then []
    else
      var n := |after| - 1;
      var key := sign(after[n]);
      var before := Introduced(sign, after[..n], baseline);
      if Count(sign, after[..n], key) >= Count(sign, baseline, key) then before + [after[n]] else before
  }

  lemma IntroducedStep(sign: Signature, after: seq<TypeError>, baseline: seq<TypeError>, i: nat)
    requires i < |after|
    ensures Introduced(sign, after[..i + 1], baseline) ==
      if Count(sign, after[..i], sign(after[i])) >= Count(sign, baseline, sign(after[i]))
      then Introduced(sign, after[..i], baseline) + [after[i]] else Introduced(sign, after[..i], baseline)
  {
    assert after[..i + 1][..i] == after[..i];
  }

  function Excess(a: nat, b: nat): nat { if a > b then a - b else 0 }

  /** The remaining map holds exactly the baseline occurrences not used up yet. */
  ghost predicate Tally(sign: Signature, remaining: map<string, nat>, baseline: seq<TypeError>, used: seq<TypeError>) {
    forall key :: (key in remaining <==> Count(sign, baseline, key) > Count(sign, used, key))
      && (key in remaining ==> remaining[key] == Count(sign, baseline, key) - Count(sign, used, key))
  }

  /** The first loop: how often each signature occurs in the baseline. */
  method CountBaseline(sign: Signature, baseline: seq<TypeError>) returns (remaining: map<string, nat>)
    ensures Tally(sign, remaining, baseline, [])
  {
    remaining := map[];
    var i := 0;
    assert baseline[..0] == [];
    while i < |baseline|
      invariant 0 <= i <= |baseline| && Tally(sign, remaining, baseline[..i], [])
    {
      var key := sign(baseline[i]);
      forall k ensures Count(sign, baseline[..i + 1], k) == Count(sign, baseline[..i], k) + if key == k then 1 else 0 {
        CountStep(sign, baseline, i, k);
      }
      remaining := remaining[key := (if key in remaining then remaining[key] else 0) + 1];
      i := i + 1;
    }
    assert baseline[..|baseline|] == baseline;
  }

  /** One occurrence is used up, if any remains. */
  function Spend(remaining: map<string, nat>, key: string): map<string, nat> {
    if key !in remaining then remaining
    else if remaining[key] == 1 then remaining - {key}
    else if remaining[key] == 0 then remaining
    else remaining[key := remaining[key] - 1]
  }

  lemma SpendTallies(sign: Signature, remaining: map<string, nat>, baseline: seq<TypeError>, after: seq<TypeError>, i: nat)
    requires i < |after| && Tally(sign, remaining, baseline, after[..i])
    ensures Tally(sign, Spend(remaining, sign(after[i])), baseline, after[..i + 1])
    ensures sign(after[i]) in remaining <==> Count(sign, after[..i], sign(after[i])) < Count(sign, baseline, sign(after[i]))
  {
    forall k
      ensures Count(sign, after[..i + 1], k) == Count(sign, after[..i], k) + if sign(after[i]) == k then 1 else 0 {
      CountStep(sign, after, i, k);
    }
  }

  method IntroducedErrors(sign: Signature, after: seq<TypeError>, baseline: seq<TypeError>) returns (r: seq<TypeError>)
    ensures r == Introduced(sign, after, baseline)
  {
    var remaining := CountBaseline(sign, baseline);
    r := [];
    assert after[..0] == [];
    var i := 0;
    while i < |after|
      invariant 0 <= i <= |after|
      invariant Tally(sign, remaining, baseline, after[..i]) && r == Introduced(sign, after[..i], baseline)
    {
      var key := sign(after[i]);
      SpendTallies(sign, remaining, baseline, after, i);
      IntroducedStep(sign, after, baseline, i);
      if key !in remaining { r := r + [after[i]]; }
      remaining := Spend(remaining, key);
      i := i + 1;
    }
    assert after[..|after|] == after;
  }

  /** Multiset subtraction: each signature is introduced as often as it exceeds the baseline. */
  lemma {:induction false} IntroducedCount(sign: Signature, after: seq<TypeError>, baseline: seq<TypeError>, key: string)
    ensures Count(sign, Introduced(sign, after, baseline), key) == Excess(Count(sign, after, key), Count(sign, baseline, key))
    decreases |after|
  {
    if after != [] {
      var n := |after| - 1;
      IntroducedCount(sign, after[..n], baseline, key);
      CountPush(sign, Introduced(sign, after[..n], baseline), after[n], key);
    }
  }

  /** The introduced errors are those at some positions of `after`, in order. */
  lemma {:induction false} IntroducedPositions(sign: Signature, after: seq<TypeError>, baseline: seq<TypeError>)
    returns (at: seq<nat>)
    ensures ListedAt(at, Introduced(sign, after, baseline), after)
    decreases |after|
  {
    at := [];
    if after != [] {
      var n := |after| - 1;
      at := IntroducedPositions(sign, after[..n], baseline);
      ListedFurther(at, Introduced(sign, after[..n], baseline), after[..n], after[n]);
      assert after == after[..n] + [after[n]];
      if Count(sign, after[..n], sign(after[n])) >= Count(sign, baseline, sign(after[n])) { at := at + [n]; }
    }
  }

  lemma {:induction false} CountPositive(sign: Signature, errors: seq<TypeError>, i: nat)
    requires i < |errors|
    ensures Count(sign, errors, sign(errors[i])) > 0
    decreases |errors|
  {
    if i < |errors| - 1 { CountPositive(sign, errors[..|errors| - 1], i); }
  }

  /** The type check passes exactly when no signature occurs more often than in the baseline. */
  lemma PassesIff(sign: Signature, after: seq<TypeError>, baseline: seq<TypeError>)
    ensures Introduced(sign, after, baseline) == [] <==> forall key :: Count(sign, after, key) <= Count(sign, baseline, key)
  {
    var r := Introduced(sign, after, baseline);
    if r == [] {
      forall key ensures Count(sign, after, key) <= Count(sign, baseline, key) {
        IntroducedCount(sign, after, baseline, key);
      }
    } else {
      CountPositive(sign, r, 0);
      IntroducedCount(sign, after, baseline, sign(r[0]));
      assert Count(sign, after, sign(r[0])) > Count(sign, baseline, sign(r[0]));
    }
  }
}
