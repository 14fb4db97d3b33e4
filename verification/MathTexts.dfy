/**
 What the repairs do to texts of several lines and to whole messages, cut by cut:
 the code, the display formulas, the lines and the inline formulas of a message.
 */
module MathTexts {
  import opened Wrappers
  import opened MathRepair
  import opened MathMarkdown
  import opened MathLines

  // ---- Formulas, where they stand ----

  // Between its dollars the formula has at least one character, and it ends at the first chance.
  ghost predicate FormulaSpan(s: string, a: nat, e: nat, width: nat) {
    && DollarsAt(s, a, width) && (width == 1 && a + 1 < |s| ==> s[a + 1] != '$')
    && a + 2 * width < e <= |s| && DollarsAt(s, e - width, width)
    && forall x | a + width < x < e - width :: !DollarsAt(s, x, width)
  }

  ghost predicate FormulaAt(s: string, a: nat, width: nat) {
    exists e: nat :: FormulaSpan(s, a, e, width)
  }

  // The first formula stands from `a` to `e`.
  ghost predicate FirstFormula(s: string, a: nat, e: nat, width: nat) {
    FormulaSpan(s, a, e, width) && forall i: nat | i < a :: !FormulaAt(s, i, width)
  }

  ghost predicate NoFormula(s: string, width: nat) {
    forall i: nat :: !FormulaAt(s, i, width)
  }

  lemma {:induction false} ClosingIs(s: string, from: nat, width: nat)
    requires width >= 1
    ensures Closing(s, from, width).Some? ==>
      var x := Closing(s, from, width).value - width; from <= x && DollarsAt(s, x, width) && forall y | from <= y < x :: !DollarsAt(s, y, width)
    ensures Closing(s, from, width).None? ==> forall y: nat | from <= y :: !DollarsAt(s, y, width)
    decreases |s| - from
  {
    if from < |s| && !DollarsAt(s, from, width) {
      ClosingIs(s, from + 1, width);
    }
  }

  // The end of the formula that opens at `i`, if one does.
  function EndAt(s: string, i: nat, width: nat): (end: Option<nat>)
    requires width >= 1 && i < |s|
    ensures end.Some? ==> i < end.value <= |s|
  {
    var opens := DollarsAt(s, i, width) && (width == 1 ==> i + 1 == |s| || s[i + 1] != '$');
    if opens then Closing(s, i + width + 1, width) else None
  }

  // The scan finds the formula that stands at `i`, if one does.
  lemma FormulaHere(s: string, i: nat, width: nat)
    requires width >= 1 && i < |s|
    ensures forall e: nat :: FormulaSpan(s, i, e, width) <==> EndAt(s, i, width) == Some(e)
    ensures FormulaAt(s, i, width) <==> EndAt(s, i, width).Some?
  {
    ClosingIs(s, i + width + 1, width);
    if EndAt(s, i, width).Some? {
      assert FormulaSpan(s, i, EndAt(s, i, width).value, width);
    }
    forall e: nat | FormulaSpan(s, i, e, width)
      ensures EndAt(s, i, width) == Some(e)
    {
      assert DollarsAt(s, e - width, width);
    }
  }

  // Where no formula stands, the scan moves on.
  lemma {:induction false} FormulasSkip(s: string, from: nat, to: nat, width: nat)
    requires width >= 1 && from <= to <= |s| && forall i: nat | from <= i < to :: !FormulaAt(s, i, width)
    ensures Formulas(s, from, width) == Formulas(s, to, width)
    decreases |s| - from
  {
    if from < to {
      FormulaHere(s, from, width);
      FormulasSkip(s, from + 1, to, width);
    }
  }

  lemma FormulasFirst(s: string, a: nat, e: nat, width: nat)
    requires width >= 1 && FirstFormula(s, a, e, width)
    ensures a < e <= |s| && Formulas(s, 0, width) == [Span(a, e)] + Formulas(s, e, width)
  {
    FormulasSkip(s, 0, a, width);
    FormulaHere(s, a, width);
  }

  lemma FormulasNone(s: string, width: nat)
    requires width >= 1
    ensures Formulas(s, 0, width) == [] <==> NoFormula(s, width)
  {
    if NoFormula(s, width) {
      FormulasSkip(s, 0, |s|, width);
    } else {
      var a, e := SomeFirst(s, width);
      FormulasFirst(s, a, e, width);
    }
  }

  // A text with a formula has a first one.
  lemma SomeFirst(s: string, width: nat) returns (a: nat, e: nat)
    requires !NoFormula(s, width)
    ensures FirstFormula(s, a, e, width)
  {
    var i: nat :| FormulaAt(s, i, width);
    a := Least(s, i, width);
    e :| FormulaSpan(s, a, e, width);
  }

  lemma {:induction false} Least(s: string, i: nat, width: nat) returns (a: nat)
    requires FormulaAt(s, i, width)
    ensures FormulaAt(s, a, width) && forall k: nat | k < a :: !FormulaAt(s, k, width)
  {
    if k: nat :| k < i && FormulaAt(s, k, width) {
      a := Least(s, k, width);
    } else {
      a := i;
    }
  }

  // ---- The part after a formula stands alone ----

  function Moved(spans: seq<Span>, k: nat): seq<Span> {
    if spans == [] then [] else [Span(spans[0].start + k, spans[0].end + k)] + Moved(spans[1..], k)
  }

  // `s` is `b` after `k` characters, the last of which is no backslash.
  ghost predicate Behind(s: string, k: nat, b: string) {
    0 < k <= |s| && s[k..] == b && s[k - 1] != '\\'
  }

  ghost predicate AllDollars(t: string) {
    forall k | 0 <= k < |t| :: t[k] == '$'
  }

  lemma DollarRun(s: string, i: nat, width: nat)
    requires i + width <= |s|
    ensures DollarsAt(s, i, width) <==> (i == 0 || s[i - 1] != '\\') && AllDollars(s[i..i + width])
  {
    if AllDollars(s[i..i + width]) {
      assert forall k | i <= k < i + width :: s[k] == s[i..i + width][k - i];
    }
  }

  lemma SliceBehind(s: string, k: nat, b: string, i: nat, j: nat)
    requires k <= |s| && s[k..] == b && i <= j <= |b|
    ensures s[k + i..k + j] == b[i..j]
  {
    assert forall x | 0 <= x < |b| :: b[x] == s[k + x];
  }

  lemma DollarsBehind(s: string, k: nat, b: string, i: nat, width: nat)
    requires Behind(s, k, b)
    ensures DollarsAt(s, k + i, width) <==> DollarsAt(b, i, width)
  {
    if i + width <= |b| {
      assert i > 0 ==> b[i - 1] == s[k + i - 1];
      SliceBehind(s, k, b, i, i + width);
      DollarRun(s, k + i, width);
      DollarRun(b, i, width);
    }
  }

  lemma {:induction false} ClosingBehind(s: string, k: nat, b: string, i: nat, width: nat)
    requires Behind(s, k, b) && width >= 1
    ensures Closing(s, k + i, width) == if Closing(b, i, width).Some? then Some(Closing(b, i, width).value + k) else None
    decreases |b| - i
  {
    if i < |b| {
      DollarsBehind(s, k, b, i, width);
      ClosingBehind(s, k, b, i + 1, width);
    }
  }

  lemma EndBehind(s: string, k: nat, b: string, i: nat, width: nat)
    requires Behind(s, k, b) && width >= 1 && i < |b|
    ensures EndAt(s, k + i, width) == if EndAt(b, i, width).Some? then Some(EndAt(b, i, width).value + k) else None
  {
    DollarsBehind(s, k, b, i, width);
    ClosingBehind(s, k, b, i + width + 1, width);
    assert i + 1 < |b| ==> s[k + i + 1] == b[i + 1];
  }

  lemma FormulasAt(s: string, i: nat, width: nat)
    requires width >= 1 && i < |s|
    ensures Formulas(s, i, width) ==
      if EndAt(s, i, width).Some? then [Span(i, EndAt(s, i, width).value)] + Formulas(s, EndAt(s, i, width).value, width) else Formulas(s, i + 1, width)
  {
  }

  // The formulas from `i` on, given those behind the next place the scan looks at.
  lemma FormulasStep(s: string, k: nat, b: string, i: nat, width: nat)
    requires Behind(s, k, b) && width >= 1 && i < |b|
    requires var next := if EndAt(b, i, width).Some? then EndAt(b, i, width).value else i + 1;
      next <= |b| && Formulas(s, k + next, width) == Moved(Formulas(b, next, width), k)
    ensures Formulas(s, k + i, width) == Moved(Formulas(b, i, width), k)
  {
    EndBehind(s, k, b, i, width);
    FormulasAt(s, k + i, width);
    FormulasAt(b, i, width);
    var end := EndAt(b, i, width);
    if end.Some? {
      MovedCons(Span(i, end.value), Formulas(b, end.value, width), k);
    }
  }

  lemma {:induction false} FormulasBehind(s: string, k: nat, b: string, i: nat, width: nat)
    requires Behind(s, k, b) && width >= 1 && i <= |b|
    ensures Formulas(s, k + i, width) == Moved(Formulas(b, i, width), k)
    decreases |b| - i
  {
    if i < |b| {
      FormulasBehind(s, k, b, if EndAt(b, i, width).Some? then EndAt(b, i, width).value else i + 1, width);
      FormulasStep(s, k, b, i, width);
    }
  }

  lemma MovedCons(span: Span, spans: seq<Span>, k: nat)
    ensures Moved([span] + spans, k) == [Span(span.start + k, span.end + k)] + Moved(spans, k)
  {
    assert ([span] + spans)[1..] == spans;
  }

  lemma AroundCons(repair: string -> string, text: string, span: Span, rest: seq<Span>, cursor: nat)
    requires Ordered([span] + rest, cursor, |text|)
    ensures cursor <= span.start <= span.end <= |text| && Ordered(rest, span.end, |text|)
    ensures Around(repair, text, [span] + rest, cursor) ==
      repair(text[cursor..span.start]) + text[span.start..span.end] + Around(repair, text, rest, span.end)
  {
    assert ([span] + rest)[1..] == rest;
  }

  lemma OrderedCons(span: Span, rest: seq<Span>, cursor: nat, n: nat)
    ensures Ordered([span] + rest, cursor, n) <==> cursor <= span.start < span.end <= n && Ordered(rest, span.end, n)
  {
    assert ([span] + rest)[1..] == rest;
  }

  lemma {:induction false} AroundMoved(repair: string -> string, s: string, k: nat, b: string, spans: seq<Span>, cursor: nat)
    requires k <= |s| && s[k..] == b && Ordered(spans, cursor, |b|)
    ensures Ordered(Moved(spans, k), k + cursor, |s|)
    ensures Around(repair, s, Moved(spans, k), k + cursor) == Around(repair, b, spans, cursor)
    decreases |spans|
  {
    if spans == [] {
      assert s[k + cursor..] == b[cursor..];
    } else {
      var span, rest := spans[0], spans[1..];
      assert spans == [span] + rest;
      MovedCons(span, rest, k);
      AroundMoved(repair, s, k, b, rest, span.end);
      AroundCons(repair, b, span, rest, cursor);
      OrderedCons(Span(span.start + k, span.end + k), Moved(rest, k), k + cursor, |s|);
      AroundCons(repair, s, Span(span.start + k, span.end + k), Moved(rest, k), k + cursor);
      SliceBehind(s, k, b, cursor, span.start);
      SliceBehind(s, k, b, span.start, span.end);
    }
  }

  // `repair` applied to what stands outside the formulas.
  function Outside(repair: string -> string, s: string, width: nat): string
    requires width >= 1
  {
    Around(repair, s, Formulas(s, 0, width), 0)
  }

  /** A text without formulas is repaired as a whole; otherwise the part before its first formula is, the formula stays, and the rest is treated alike. */
  lemma OutsideExactly(repair: string -> string, a: string, f: string, b: string, width: nat)
    requires width >= 1
    ensures NoFormula(a, width) ==> Outside(repair, a, width) == repair(a)
    ensures FirstFormula(a + f + b, |a|, |a| + |f|, width) ==> Outside(repair, a + f + b, width) == repair(a) + f + Outside(repair, b, width)
  {
    FormulasNone(a, width);
    assert a[0..] == a;
    if FirstFormula(a + f + b, |a|, |a| + |f|, width) {
      OutsideFirst(repair, a, f, b, width);
    }
  }

  lemma ThreeParts(a: string, f: string, b: string)
    ensures var s, e := a + f + b, |a| + |f|; s[e..] == b && s[0..|a|] == a && s[|a|..e] == f
  {
  }

  lemma OutsideFirst(repair: string -> string, a: string, f: string, b: string, width: nat)
    requires width >= 1 && FirstFormula(a + f + b, |a|, |a| + |f|, width)
    ensures Outside(repair, a + f + b, width) == repair(a) + f + Outside(repair, b, width)
  {
    var s, e := a + f + b, |a| + |f|;
    ThreeParts(a, f, b);
    FormulasFirst(s, |a|, e, width);
    assert s[e - 1] == '$' by {
      assert DollarsAt(s, e - width, width);
    }
    RestBehind(repair, s, e, b, width);
    FirstAround(repair, s, |a|, e, width);
  }

  lemma RestBehind(repair: string -> string, s: string, e: nat, b: string, width: nat)
    requires width >= 1 && Behind(s, e, b)
    ensures Around(repair, s, Formulas(s, e, width), e) == Outside(repair, b, width)
  {
    FormulasBehind(s, e, b, 0, width);
    AroundMoved(repair, s, e, b, Formulas(b, 0, width), 0);
  }

  lemma FirstAround(repair: string -> string, s: string, a: nat, e: nat, width: nat)
    requires width >= 1 && a < e <= |s| && Formulas(s, 0, width) == [Span(a, e)] + Formulas(s, e, width)
    ensures Outside(repair, s, width) == repair(s[0..a]) + s[a..e] + Around(repair, s, Formulas(s, e, width), e)
  {
    assert Formulas(s, 0, width)[1..] == Formulas(s, e, width);
  }

  // ---- Lines ----

  predicate OneLine(b: string) {
    forall c | c in b :: !LineBreak(c)
  }

  const ENDS: set<string> := {"\n", "\r\n"}

  lemma {:induction false} LineLengthIs(b: string, t: string, rest: string)
    requires OneLine(b) && t in ENDS
    ensures LineLength(b + t + rest) == |b| + |t|
  {
    var s := b + t + rest;
    if b == [] {
      assert s == t + rest && s[0] == t[0] && (|t| == 2 ==> s[1] == '\n');
    } else {
      assert b[0] in b && s[0] == b[0];
      assert s[1..] == b[1..] + t + rest;
      LineLengthIs(b[1..], t, rest);
    }
  }

  lemma {:induction false} LastLineLength(b: string)
    requires OneLine(b)
    ensures LineLength(b) == |b|
  {
    if b != [] {
      assert b[0] in b;
      LastLineLength(b[1..]);
    }
  }

  lemma BodyIs(b: string, t: string)
    requires OneLine(b) && (t in ENDS || t == "")
    ensures BodyLength(b + t) == |b|
  {
    NoEnd(b);
    if t == "\n" {
      assert (b + t)[..|b|] == b;
    } else if t == "\r\n" {
      assert (b + t)[..|b| + 1] == b + "\r" && (b + "\r")[..|b|] == b;
    } else {
      assert b + t == b;
    }
  }

  lemma NoEnd(b: string)
    requires OneLine(b)
    ensures BodyLength(b) == |b|
  {
    assert b != [] ==> b[|b| - 1] in b;
  }

  lemma EachLineIs(repair: string -> string, b: string, t: string, rest: string)
    requires OneLine(b) && t in ENDS
    ensures EachLine(repair, Lines(b + t + rest)) == repair(b) + t + EachLine(repair, Lines(rest))
  {
    var s := b + t + rest;
    LineLengthIs(b, t, rest);
    assert s[..|b| + |t|] == b + t && s[|b| + |t|..] == rest;
    assert Lines(s) == [b + t] + Lines(rest);
    BodyIs(b, t);
    assert (b + t)[..|b|] == b && (b + t)[|b|..] == t;
  }

  lemma LastLineIs(repair: string -> string, b: string)
    requires OneLine(b) && (b == "" ==> repair(b) == "")
    ensures EachLine(repair, Lines(b)) == repair(b)
  {
    if b != [] {
      LastLineLength(b);
      assert b[..|b|] == b && b[|b|..] == [];
      assert Lines(b) == [b] + Lines([]);
      NoEnd(b);
      assert [b][1..] == [] && EachLine(repair, [b]) == OnBody(repair, b) + EachLine(repair, []);
      assert OnBody(repair, b) == repair(b) + [];
    }
  }

  lemma {:induction false} InsertedChars(s: string, t: string)
    requires Inserts(s, t)
    ensures forall c | c in t :: c in s || c == '$'
    decreases |t|
  {
    if t != [] {
      assert t == [t[0]] + t[1..];
      if s != [] && s[0] == t[0] && Inserts(s[1..], t[1..]) {
        InsertedChars(s[1..], t[1..]);
        assert s == [s[0]] + s[1..];
      } else {
        InsertedChars(s, t[1..]);
      }
    }
  }

  lemma RepairedLineIsOne(m: Markup, b: string)
    requires OneLine(b)
    ensures OneLine(RepairLine(m, b))
    ensures b == "" ==> RepairLine(m, b) == "" && RepairAdjacentLine(m, b) == ""
  {
    RepairLineInserts(m, b);
    InsertedChars(b, RepairLine(m, b));
  }

  // Both repairs of one line, one after the other.
  function MendLine(m: Markup, b: string): string {
    RepairAdjacentLine(m, RepairLine(m, b))
  }

  /** A text is repaired line by line, and the line ends stay. */
  lemma TextExactly(m: Markup, b: string, t: string, rest: string)
    requires OneLine(b) && t in ENDS
    ensures RepairText(m, b) == MendLine(m, b)
    ensures RepairText(m, b + t + rest) == MendLine(m, b) + t + RepairText(m, rest)
  {
    var line := RepairLine(m, b);
    RepairedLineIsOne(m, b);
    LastLineIs(LineRepair(m), b);
    LastLineIs(AdjacentRepair(m), line);
    EachLineIs(LineRepair(m), b, t, rest);
    EachLineIs(AdjacentRepair(m), line, t, EachLine(LineRepair(m), Lines(rest)));
  }

  // ---- Inline formulas of a line ----

  // A part of a line beside its inline formulas.
  function Beside(m: Markup, s: string): string {
    Outside(FragmentRepair(m), s, 1)
  }

  /**
   A line without inline formulas stays as it is. In any other one the fragments
   before, between and behind the formulas are repaired, and the formulas stay.
   */
  lemma AdjacentExactly(m: Markup, a: string, f: string, b: string)
    ensures NoFormula(a, 1) ==> RepairAdjacentLine(m, a) == a && Beside(m, a) == RepairFragment(m, a)
    ensures FirstFormula(a + f + b, |a|, |a| + |f|, 1) ==>
      RepairAdjacentLine(m, a + f + b) == Beside(m, a + f + b) == RepairFragment(m, a) + f + Beside(m, b)
  {
    FormulasNone(a, 1);
    OutsideExactly(FragmentRepair(m), a, f, b, 1);
    if FirstFormula(a + f + b, |a|, |a| + |f|, 1) {
      FormulasFirst(a + f + b, |a|, |a| + |f|, 1);
    }
  }

  /** What stands outside the display formulas is repaired as text; the formulas stay. */
  lemma DisplayExactly(m: Markup, a: string, f: string, b: string)
    ensures NoFormula(a, 2) ==> RepairOutside(m, a) == RepairText(m, a)
    ensures FirstFormula(a + f + b, |a|, |a| + |f|, 2) ==> RepairOutside(m, a + f + b) == RepairText(m, a) + f + RepairOutside(m, b)
  {
    OutsideExactly(TextRepair(m), a, f, b, 2);
  }

  // ---- Code ----

  // The backticks at `i` delimit code by `n` of them: three, or all of a shorter run.
  ghost predicate Delimiter(s: string, i: nat, n: nat) {
    && 1 <= n <= 3 && Ticks(s, i, n)
    && (n < 3 ==> i + n == |s| || s[i + n] != '`')
  }

  // No code that opens at `i` is ever closed.
  ghost predicate Unclosed(s: string, i: nat) {
    forall n: nat, k: nat | Delimiter(s, i, n) && i + n <= k :: !Ticks(s, k, n)
  }

  // In the plain text from `a` to `b` no run of backticks opens code.
  ghost predicate PlainText(s: string, a: nat, b: nat) {
    forall i: nat | i < b && RunBegins(s, a, i) :: Unclosed(s, i)
  }

  // A run of backticks begins at `i`, where `a` is the first place looked at.
  ghost predicate RunBegins(s: string, a: nat, i: nat) {
    a <= i < |s| && s[i] == '`' && (i == a || s[i - 1] != '`')
  }

  // From `at` on the segments are `s`, and plain ones hold no closed code.
  ghost predicate Cover(s: string, segments: seq<Segment>, at: nat) {
    if segments == [] then at == |s|
    else
      var next := at + |segments[0].text|;
      && next <= |s| && segments[0].text == s[at..next]
      && (!segments[0].code ==> PlainText(s, at, next))
      && Cover(s, segments[1..], next)
  }

  lemma DelimiterIs(s: string, i: nat, n: nat)
    requires i < |s| && s[i] == '`'
    ensures Delimiter(s, i, n) <==> n == Fence(s, i)
  {
    var w := Fence(s, i);
    assert Ticks(s, i, w) && (w < 3 ==> i + w == |s| || s[i + w] != '`');
    assert n < w ==> s[i + n] == '`';
    assert w < n && Ticks(s, i, n) ==> s[i + w] == '`';
  }

  lemma UnclosedIs(s: string, i: nat)
    requires i < |s| && s[i] == '`'
    ensures Unclosed(s, i) <==> CodeEnd(s, i).None?
  {
    var n := Fence(s, i);
    DelimiterIs(s, i, n);
    forall w: nat | Delimiter(s, i, w)
      ensures w == n
    {
      DelimiterIs(s, i, w);
    }
    var found := FindTicks(s, n, i + n);
    if found.Some? {
      assert Ticks(s, found.value, n);
    }
  }

  // The scan stands at `i`, and no run of backticks before it opens code.
  ghost predicate Scanned(s: string, plain: nat, i: nat) {
    plain <= i <= |s| && PlainText(s, plain, i)
  }

  // One step over plain text: every run that begins there begins where the scan stands.
  lemma StrideScans(s: string, plain: nat, i: nat)
    requires Scanned(s, plain, i) && i < |s| && CodeEnd(s, i).None?
    ensures Scanned(s, plain, i + Stride(s, i))
  {
    var n := Stride(s, i);
    assert Ticks(s, i, Fence(s, i));
    assert forall k | i <= k < i + n - 1 :: s[k] == '`';
    forall k: nat | k < i + n && RunBegins(s, plain, k)
      ensures Unclosed(s, k)
    {
      if k == i {
        UnclosedIs(s, i);
      }
    }
  }

  lemma CoverPlain(s: string, plain: nat, i: nat, rest: seq<Segment>)
    requires Scanned(s, plain, i) && Cover(s, rest, i)
    ensures Cover(s, PlainPart(s, plain, i) + rest, plain)
  {
    if plain < i {
      assert (PlainPart(s, plain, i) + rest)[1..] == rest;
    } else {
      assert PlainPart(s, plain, i) + rest == rest;
    }
  }

  lemma CoverCode(s: string, i: nat, end: nat, rest: seq<Segment>)
    requires i < end <= |s| && Cover(s, rest, end)
    ensures Cover(s, [Segment(s[i..end], true)] + rest, i)
  {
    assert ([Segment(s[i..end], true)] + rest)[1..] == rest;
  }

  lemma CoverBoth(s: string, plain: nat, i: nat, end: nat, rest: seq<Segment>)
    requires Scanned(s, plain, i) && i < end <= |s| && Cover(s, rest, end)
    ensures Cover(s, PlainPart(s, plain, i) + [Segment(s[i..end], true)] + rest, plain)
  {
    var code := [Segment(s[i..end], true)];
    CoverCode(s, i, end, rest);
    CoverPlain(s, plain, i, code + rest);
    assert PlainPart(s, plain, i) + code + rest == PlainPart(s, plain, i) + (code + rest);
  }

  lemma {:induction false} SplitCovers(s: string, plain: nat, i: nat)
    requires Scanned(s, plain, i)
    ensures Cover(s, SplitFrom(s, plain, i), plain)
    decreases |s| - i
  {
    if i == |s| {
      CoverPlain(s, plain, i, []);
      assert PlainPart(s, plain, i) + [] == PlainPart(s, plain, i);
    } else {
      var end := CodeEnd(s, i);
      if end.Some? {
        SplitCovers(s, end.value, end.value);
        CoverBoth(s, plain, i, end.value, SplitFrom(s, end.value, end.value));
      } else {
        StrideScans(s, plain, i);
        SplitCovers(s, plain, i + Stride(s, i));
      }
    }
  }

  /** The segments of a message are its text, and all closed code is in code segments: no run of backticks in plain text is closed anywhere behind it. */
  lemma PlainHoldsNoCode(s: string)
    ensures Cover(s, SplitSpec(s), 0)
  {
    SplitCovers(s, 0, 0);
  }

  // ---- Whole messages ----

  lemma {:induction false} NoTicksPlain(s: string, i: nat)
    requires i <= |s| && '`' !in s
    ensures SplitFrom(s, 0, i) == PlainPart(s, 0, |s|)
    decreases |s| - i
  {
    if i < |s| {
      assert s[i] in s && Fence(s, i) == 0;
      NoTicksPlain(s, i + 1);
    }
  }

  lemma MessageWithoutCode(m: Markup, s: string)
    requires '`' !in s && s != ""
    ensures NormalizeSpec(m, SplitSpec(s)) == RepairOutside(m, m.alias(s))
  {
    NoTicksPlain(s, 0);
    assert s[0..|s|] == s;
    var only := Segment(s, false);
    assert [only][1..] == [] && NormalizeSpec(m, [only]) == Rewritten(m, only) + NormalizeSpec(m, []);
  }

  lemma NoDollarNoFormula(s: string, width: nat)
    requires width >= 1 && NoDollar(s)
    ensures NoFormula(s, width)
  {
    forall i: nat
      ensures !FormulaAt(s, i, width)
    {
      assert DollarsAt(s, i, width) ==> DollarsAt(s, i, 1);
    }
  }

  lemma NoStrong(m: Markup, s: string)
    requires '\\' !in s
    ensures RepairFragment(m, s) == s
  {
    if LeadingSpace(m, s) < |s| {
      var i, j := CoreOf(m, s);
      forall k: nat
        ensures !StrongAt(m, s[i..j], k)
      {
        assert k < |s[i..j]| ==> s[i..j][k] in s;
      }
      RepairFragmentExactly(m, s, i, j);
    } else {
      LeadingBlank(m, s);
      BlankFragment(m, s);
    }
  }

  // `s` is `line` with a dollar after `k` characters and another at the end.
  ghost predicate Opened(s: string, k: nat, line: string) {
    && k <= |line| && |s| == |line| + 2 && s[k] == '$' && s[|s| - 1] == '$'
    && (forall x | 0 <= x < k :: s[x] == line[x]) && (forall x | k <= x < |line| :: s[x + 1] == line[x])
  }

  lemma NoneInside(s: string, k: nat, line: string, x: nat)
    requires Opened(s, k, line) && NoDollar(line) && k + 1 < x < |s| - 1
    ensures !DollarsAt(s, x, 1)
  {
    assert s[x] == line[x - 1] && s[x - 1] == line[x - 2];
    assert !DollarsAt(line, x - 1, 1);
  }

  lemma NoneBefore(s: string, k: nat, line: string, x: nat)
    requires Opened(s, k, line) && NoDollar(line) && x < k
    ensures !DollarsAt(s, x, 1)
  {
    assert !DollarsAt(line, x, 1);
  }

  // The delimited equation is the one formula of the repaired line.
  lemma DelimitedFormula(s: string, k: nat, line: string)
    requires Opened(s, k, line) && NoDollar(line) && k < |line| && line[k] == '\\' && line[|line| - 1] != '\\' && (k > 0 ==> line[k - 1] != '\\')
    ensures FirstFormula(s, k, |s|, 1)
  {
    forall x: nat | k + 1 < x < |s| - 1
      ensures !DollarsAt(s, x, 1)
    {
      NoneInside(s, k, line, x);
    }
    forall i: nat | i < k
      ensures !FormulaAt(s, i, 1)
    {
      NoneBefore(s, k, line, i);
    }
    assert s[|s| - 2] == line[|line| - 1] && s[k + 1] == line[k];
    assert FormulaSpan(s, k, |s|, 1);
  }

  // A message of one line without code or dollars is mended as a line.
  lemma OneLineMessage(m: Markup, line: string)
    requires line != "" && '`' !in line && OneLine(line) && NoDollar(line) && m.alias(line) == line
    ensures NormalizeSpec(m, SplitSpec(line)) == MendLine(m, line)
  {
    MessageWithoutCode(m, line);
    NoDollarNoFormula(line, 2);
    DisplayExactly(m, line, "", "");
    TextExactly(m, line, "\n", "");
  }

  lemma Delimiting(p: string, b: string)
    ensures var s := p + "$" + b + "$"; s == p + ("$" + b + "$") + "" && Opened(s, |p|, p + b)
  {
  }

  // The delimited equation is left alone by the second repair.
  lemma DelimitedStays(m: Markup, p: string, b: string)
    requires NoDollar(p + b) && b != "" && b[0] == '\\' && b[|b| - 1] != '\\' && '\\' !in p
    ensures RepairAdjacentLine(m, p + "$" + b + "$") == p + "$" + b + "$"
  {
    var s, f := p + "$" + b + "$", "$" + b + "$";
    Delimiting(p, b);
    assert p != "" ==> p[|p| - 1] in p;
    DelimitedFormula(s, |p|, p + b);
    AdjacentExactly(m, p, f, "");
    EmptyHasNone();
    AdjacentExactly(m, "", "", "");
    NoStrong(m, p);
    NoStrong(m, "");
  }

  /**
   A message that is one bare equation, behind a list prefix or not, comes out with
   both its delimiters and otherwise as it was.
   */
  lemma BareEquationIsDelimited(m: Markup, line: string, p: string, b: string)
    requires Divided(m, line, p, b) && Bare(m, b) && b[|b| - 1] != '\\' && NoDollar(p + b) && '\\' !in p
    requires '`' !in line && OneLine(line) && m.alias(line) == line
    ensures NormalizeSpec(m, SplitSpec(line)) == p + "$" + b + "$"
  {
    OneLineMessage(m, line);
    RepairLineExactly(m, line, p, b);
    DelimitedStays(m, p, b);
  }

  lemma EmptyHasNone()
    ensures NoFormula("", 1)
  {
  }

  const EXAMPLE: string := "\\frac{a}{b} = c"

  lemma ExampleIsBare(m: Markup)
    requires "frac" in m.strong && !m.space('\\') && !m.space('c')
    ensures Bare(m, EXAMPLE)
  {
    var s := EXAMPLE;
    assert s[1..5] == "frac" && NameSpan(s, 1, 5) && StrongSpan(m, s, 0, 5);
    assert StrongAt(m, s, 0) && s[5] == '{' && s[5] in s;
    assert Core(m, s, 0, |s|) && s[..|s|] == s && EquationText(m, s);
    assert s[0..] == s;
    ExampleIsPlain();
  }

  lemma ExampleIsPlain()
    ensures '`' !in EXAMPLE && OneLine(EXAMPLE) && NoDollar(EXAMPLE)
  {
    var s := EXAMPLE;
    assert '$' !in s;
    forall k: nat
      ensures !DollarsAt(s, k, 1)
    {
      assert k < |s| ==> s[k] in s;
    }
  }

  lemma NotAPrefix(m: Markup, line: string, i: nat, j: nat, n: nat)
    requires line != "" && line[0] == '\\' && !m.space('\\') && !m.digit('\\') && i < j < n <= |line|
    ensures !PrefixAt(m, line, i, j, n)
  {
    var t := line[i..j];
    assert i == 0 ==> t[0] == '\\' && !MarkerText(m, t);
  }

  lemma NoMarkerFirst(m: Markup, line: string)
    requires line != "" && line[0] == '\\' && !m.space('\\') && !m.digit('\\')
    ensures Divided(m, line, "", line)
  {
    assert "" + line == line;
    forall n: nat
      ensures !PrefixOf(m, line, n)
    {
      forall i: nat, j: nat | i < j < n <= |line|
        ensures !PrefixAt(m, line, i, j, n)
      {
        NotAPrefix(m, line, i, j, n);
      }
    }
  }

  lemma Quoted(b: string)
    ensures "" + "$" + b + "$" == "$" + b + "$" && "" + b == b
  {
  }

  /** A fraction on a line of its own is shown as a formula. */
  lemma FractionIsDelimited(m: Markup)
    requires "frac" in m.strong && !m.space('\\') && !m.digit('\\') && !m.space('c') && m.alias(EXAMPLE) == EXAMPLE
    ensures NormalizeSpec(m, SplitSpec(EXAMPLE)) == "$" + EXAMPLE + "$"
  {
    ExampleIsBare(m);
    ExampleIsPlain();
    NoMarkerFirst(m, EXAMPLE);
    Quoted(EXAMPLE);
    BareEquationIsDelimited(m, EXAMPLE, "", EXAMPLE);
  }
}
