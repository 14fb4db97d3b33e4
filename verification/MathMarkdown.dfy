/**
 Normalising a whole message: it is split into code and text, and the text is
 repaired line by line around its display formulas.
 */
module MathMarkdown {
  import opened Wrappers
  import opened Sequences
  import opened MathRepair

  // ---- Lines ----

  // Where Python's `splitlines` ends a line.
  predicate LineBreak(c: char) {
    c in {'\n', '\r', '\U{0B}', '\U{0C}', '\U{1C}', '\U{1D}', '\U{1E}', '\U{85}', '\U{2028}', '\U{2029}'}
  }

  // The length of the first line with its terminator.
  function LineLength(s: string): (n: nat)
    ensures n <= |s| && (s != [] ==> n > 0)
  {
    if s == [] then 0
    else if LineBreak(s[0]) then if s[0] == '\r' && |s| > 1 && s[1] == '\n' then 2 else 1
    else 1 + LineLength(s[1..])
  }

  function Lines(s: string): seq<string> {
    if s == [] then [] else [s[..LineLength(s)]] + Lines(s[LineLength(s)..])
  }

  // The length of a line without trailing `\r` and `\n`.
  function BodyLength(line: string): (n: nat)
    ensures n <= |line|
  {
    if line != [] && line[|line| - 1] in {'\r', '\n'} then BodyLength(line[..|line| - 1]) else |line|
  }

  function OnBody(repair: string -> string, line: string): string {
    repair(line[..BodyLength(line)]) + line[BodyLength(line)..]
  }

  function EachLine(repair: string -> string, lines: seq<string>): string {
    if lines == [] then [] else OnBody(repair, lines[0]) + EachLine(repair, lines[1..])
  }

  lemma {:induction false} LinesInserts(repair: string -> string, s: string)
    requires forall t :: Inserts(t, repair(t))
    ensures Inserts(s, EachLine(repair, Lines(s)))
  {
    if s != [] {
      var n := LineLength(s);
      OnBodyInserts(repair, s[..n]);
      LinesInserts(repair, s[n..]);
      InsertsConcat(s[..n], OnBody(repair, s[..n]), s[n..], EachLine(repair, Lines(s[n..])));
      assert s[..n] + s[n..] == s;
      assert Lines(s)[0] == s[..n] && Lines(s)[1..] == Lines(s[n..]);
    }
  }

  lemma OnBodyInserts(repair: string -> string, line: string)
    requires forall t :: Inserts(t, repair(t))
    ensures Inserts(line, OnBody(repair, line))
  {
    var n := BodyLength(line);
    InsertsNothing(line[n..]);
    InsertsConcat(line[..n], repair(line[..n]), line[n..], line[n..]);
    assert line[..n] + line[n..] == line;
  }

  // ---- The repairs of a text ----

  function LineRepair(m: Markup): string -> string {
    s => RepairLine(m, s)
  }

  function FragmentRepair(m: Markup): string -> string {
    s => RepairFragment(m, s)
  }

  function RepairAdjacentLine(m: Markup, line: string): string {
    var spans := Formulas(line, 0, 1);
    if spans == [] then line else Around(FragmentRepair(m), line, spans, 0)
  }

  function AdjacentRepair(m: Markup): string -> string {
    s => RepairAdjacentLine(m, s)
  }

  function RepairText(m: Markup, s: string): string {
    EachLine(AdjacentRepair(m), Lines(EachLine(LineRepair(m), Lines(s))))
  }

  function TextRepair(m: Markup): string -> string {
    s => RepairText(m, s)
  }

  function RepairOutside(m: Markup, segment: string): string {
    Around(TextRepair(m), segment, Formulas(segment, 0, 2), 0)
  }

  lemma FragmentsInsert(m: Markup)
    ensures forall s :: Inserts(s, FragmentRepair(m)(s))
  {
    forall s
      ensures Inserts(s, FragmentRepair(m)(s))
    {
      InsertsNothing(s);
      WrapInserts(m, s);
    }
  }

  /** Beside inline math only delimiters are added, and every inline formula stays as it is. */
  lemma AdjacentLineKeeps(m: Markup, line: string)
    ensures KeepsFormulas(line, Formulas(line, 0, 1), 0, RepairAdjacentLine(m, line))
    ensures Inserts(line, RepairAdjacentLine(m, line))
  {
    var spans := Formulas(line, 0, 1);
    FragmentsInsert(m);
    InsertsNothing(line);
    assert line[0..] == line;
    if spans != [] {
      AroundKeeps(FragmentRepair(m), line, spans, 0);
      KeepingInserts(line, spans, 0, RepairAdjacentLine(m, line));
    }
  }

  lemma TextInserts(m: Markup, s: string)
    ensures Inserts(s, RepairText(m, s))
  {
    forall t
      ensures Inserts(t, LineRepair(m)(t))
    {
      RepairLineInserts(m, t);
    }
    LinesInserts(LineRepair(m), s);
    forall t
      ensures Inserts(t, AdjacentRepair(m)(t))
    {
      AdjacentLineKeeps(m, t);
    }
    var repaired := EachLine(LineRepair(m), Lines(s));
    LinesInserts(AdjacentRepair(m), repaired);
    InsertsTransitive(s, repaired, RepairText(m, s));
  }

  /**
   Repairing a text only inserts `$`, and only outside its `$$` formulas: each of
   them reappears verbatim and in order.
   */
  lemma OnlyDelimitersAreAdded(m: Markup, segment: string)
    ensures Inserts(segment, RepairOutside(m, segment)) && Erase(RepairOutside(m, segment)) == Erase(segment)
    ensures KeepsFormulas(segment, Formulas(segment, 0, 2), 0, RepairOutside(m, segment))
  {
    forall s
      ensures Inserts(s, TextRepair(m)(s))
    {
      TextInserts(m, s);
    }
    var spans := Formulas(segment, 0, 2);
    AroundKeeps(TextRepair(m), segment, spans, 0);
    KeepingInserts(segment, spans, 0, RepairOutside(m, segment));
    assert segment[0..] == segment;
    InsertsErase(segment, RepairOutside(m, segment));
  }

  lemma ConcatAppend(parts: seq<string>, part: string)
    ensures Concat(parts + [part]) == Concat(parts) + part
  {
    assert (parts + [part])[..|parts|] == parts;
  }

  method RepairLatexDelimiters(m: Markup, content: string) returns (repaired: string)
    ensures repaired == EachLine(LineRepair(m), Lines(content))
  {
    var lines := Lines(content);
    var parts: seq<string> := [];
    for i := 0 to |lines|
      invariant Concat(parts) + EachLine(LineRepair(m), lines[i..]) == EachLine(LineRepair(m), lines)
    {
      var line := lines[i];
      var body := line[..BodyLength(line)];
      var part := RepairLine(m, body) + line[|body|..];
      assert lines[i..][0] == line && lines[i..][1..] == lines[i + 1..];
      assert part == OnBody(LineRepair(m), line);
      ConcatAppend(parts, part);
      Regroup(Concat(parts), part, EachLine(LineRepair(m), lines[i + 1..]));
      parts := parts + [part];
    }
    repaired := Concat(parts);
  }

  method RepairAdjacentInLine(m: Markup, line: string) returns (repaired: string)
    ensures repaired == RepairAdjacentLine(m, line)
  {
    var matches := Formulas(line, 0, 1);
    if matches == [] {
      return line;
    }
    var rebuilt: seq<string> := [];
    var cursor: nat := 0;
    for i := 0 to |matches|
      invariant Ordered(matches[i..], cursor, |line|)
      invariant Concat(rebuilt) + Around(FragmentRepair(m), line, matches[i..], cursor) == RepairAdjacentLine(m, line)
    {
      var match_ := matches[i];
      assert matches[i..][0] == match_ && matches[i..][1..] == matches[i + 1..];
      var fragment := RepairFragment(m, line[cursor..match_.start]);
      var formula := line[match_.start..match_.end];
      ghost var rest := Around(FragmentRepair(m), line, matches[i + 1..], match_.end);
      StepAround(rebuilt, fragment, formula, rest);
      rebuilt := rebuilt + [fragment] + [formula];
      cursor := match_.end;
    }
    OrderedBound(matches[|matches|..], cursor, |line|);
    ConcatAppend(rebuilt, RepairFragment(m, line[cursor..]));
    repaired := Concat(rebuilt + [RepairFragment(m, line[cursor..])]);
  }

  lemma {:induction false} OrderedBound(spans: seq<Span>, from: nat, n: nat)
    requires Ordered(spans, from, n)
    ensures from <= n
  {
  }

  // Appending a repaired gap and its formula.
  lemma StepAround(rebuilt: seq<string>, gap: string, formula: string, rest: string)
    ensures Concat(rebuilt + [gap] + [formula]) + rest == Concat(rebuilt) + (gap + formula + rest)
  {
    ConcatAppend(rebuilt, gap);
    ConcatAppend(rebuilt + [gap], formula);
    Regroup(Concat(rebuilt), gap, formula);
    Regroup(Concat(rebuilt), gap + formula, rest);
  }

  method RepairAdjacent(m: Markup, content: string) returns (repaired: string)
    ensures repaired == EachLine(AdjacentRepair(m), Lines(content))
  {
    var lines := Lines(content);
    var parts: seq<string> := [];
    for i := 0 to |lines|
      invariant Concat(parts) + EachLine(AdjacentRepair(m), lines[i..]) == EachLine(AdjacentRepair(m), lines)
    {
      var line := lines[i];
      var body := line[..BodyLength(line)];
      var part := RepairAdjacentInLine(m, body);
      part := part + line[|body|..];
      assert lines[i..][0] == line && lines[i..][1..] == lines[i + 1..];
      assert part == OnBody(AdjacentRepair(m), line);
      ConcatAppend(parts, part);
      Regroup(Concat(parts), part, EachLine(AdjacentRepair(m), lines[i + 1..]));
      parts := parts + [part];
    }
    repaired := Concat(parts);
  }

  method RepairGap(m: Markup, gap: string) returns (repaired: string)
    ensures repaired == RepairText(m, gap)
  {
    var delimited := RepairLatexDelimiters(m, gap);
    repaired := RepairAdjacent(m, delimited);
  }

  method RepairOutsideDisplayMath(m: Markup, segment: string) returns (repaired: string)
    ensures repaired == RepairOutside(m, segment)
  {
    var matches := Formulas(segment, 0, 2);
    var rebuilt: seq<string> := [];
    var cursor: nat := 0;
    for i := 0 to |matches|
      invariant Ordered(matches[i..], cursor, |segment|)
      invariant Concat(rebuilt) + Around(TextRepair(m), segment, matches[i..], cursor) == RepairOutside(m, segment)
    {
      var match_ := matches[i];
      assert matches[i..][0] == match_ && matches[i..][1..] == matches[i + 1..];
      var gap := RepairGap(m, segment[cursor..match_.start]);
      var formula := segment[match_.start..match_.end];
      ghost var rest := Around(TextRepair(m), segment, matches[i + 1..], match_.end);
      StepAround(rebuilt, gap, formula, rest);
      rebuilt := rebuilt + [gap] + [formula];
      cursor := match_.end;
    }
    OrderedBound(matches[|matches|..], cursor, |segment|);
    var tail := RepairGap(m, segment[cursor..]);
    ConcatAppend(rebuilt, tail);
    repaired := Concat(rebuilt + [tail]);
  }

  // ---- Code and text ----

  datatype Segment = Segment(text: string, code: bool)

  predicate Ticks(s: string, i: nat, n: nat) {
    i + n <= |s| && forall k | i <= k < i + n :: s[k] == '`'
  }

  // `str.find` of `n` backticks.
  function FindTicks(s: string, n: nat, from: nat): (found: Option<nat>)
    ensures found.Some? ==> from <= found.value && Ticks(s, found.value, n) && forall k | from <= k < found.value :: !Ticks(s, k, n)
    ensures found.None? ==> forall k: nat | from <= k :: !Ticks(s, k, n)
    decreases |s| - from
  {
    if Ticks(s, from, n) then Some(from)
    else if from >= |s| then None
    else FindTicks(s, n, from + 1)
  }

  function TickRun(s: string, i: nat): (n: nat)
    ensures i + n <= |s| || n == 0
    ensures n > 0 ==> Ticks(s, i, n)
    ensures n >= 3 ==> Ticks(s, i, 3)
    ensures i + n >= |s| || s[i + n] != '`'
    decreases |s| - i
  {
    if i < |s| && s[i] == '`' then 1 + TickRun(s, i + 1) else 0
  }

  // How many backticks delimit code that opens at `i`; none if there are no backticks.
  function Fence(s: string, i: nat): (n: nat)
    requires i < |s|
    ensures n <= 3 && Ticks(s, i, n) && (n == 0 <==> s[i] != '`')
    ensures 0 < n < 3 ==> i + n == |s| || s[i + n] != '`'
  {
    if Ticks(s, i, 3) then 3
    else
      TickRun(s, i)
  }

  // The end of the code that opens at `i`, if it is closed.
  function CodeEnd(s: string, i: nat): (end: Option<nat>)
    requires i < |s|
    ensures end.Some? ==> i < end.value <= |s|
  {
    var n := Fence(s, i);
    if n == 0 then None
    else
      var closing := FindTicks(s, n, i + n);
      if closing.None? then None else Some(closing.value + n)
  }

  // How far the scan moves when no code opens.
  function Stride(s: string, i: nat): (n: nat)
    requires i < |s|
    ensures n > 0 && i + n <= |s|
  {
    if Fence(s, i) == 0 then 1 else Fence(s, i)
  }

  function PlainPart(s: string, from: nat, to: nat): seq<Segment>
    requires from <= to <= |s|
  {
    if from < to then [Segment(s[from..to], false)] else []
  }

  function SplitFrom(s: string, plain: nat, i: nat): seq<Segment>
    requires plain <= i <= |s|
    decreases |s| - i
  {
    if i == |s| then PlainPart(s, plain, i)
    else
      var end := CodeEnd(s, i);
      if end.Some? then PlainPart(s, plain, i) + [Segment(s[i..end.value], true)] + SplitFrom(s, end.value, end.value)
      else SplitFrom(s, plain, i + Stride(s, i))
  }

  function SplitSpec(s: string): seq<Segment> {
    SplitFrom(s, 0, 0)
  }

  function Joined(segments: seq<Segment>): string {
    if segments == [] then [] else segments[0].text + Joined(segments[1..])
  }

  // Code between equal runs of one to three backticks, closed at the first chance.
  ghost predicate Fenced(text: string) {
    exists n: nat | 1 <= n <= 3 && 2 * n <= |text| :: FencedBy(text, n)
  }

  ghost predicate FencedBy(text: string, n: nat)
    requires 1 <= n <= 3 && 2 * n <= |text|
  {
    && Ticks(text, 0, n) && Ticks(text, |text| - n, n)
    && (n < 3 && 2 * n < |text| ==> text[n] != '`')
    && forall k | n <= k < |text| - n :: !Ticks(text, k, n)
  }

  ghost predicate WellSplit(segments: seq<Segment>) {
    && (forall i | 0 <= i < |segments| :: segments[i].text != [] && (segments[i].code ==> Fenced(segments[i].text)))
    && (forall i | 0 <= i < |segments| - 1 :: segments[i].code || segments[i + 1].code)
  }

  lemma CodeIsFenced(s: string, i: nat)
    requires i < |s| && CodeEnd(s, i).Some?
    ensures Fenced(s[i..CodeEnd(s, i).value])
  {
    var n, end := Fence(s, i), CodeEnd(s, i).value;
    var text := s[i..end];
    var closing := FindTicks(s, n, i + n).value;
    assert closing == end - n && 2 * n <= |text|;
    forall k | n <= k < |text| - n
      ensures !Ticks(text, k, n)
    {
      assert !Ticks(s, i + k, n);
      var x :| i + k <= x < i + k + n && s[x] != '`';
      assert text[x - i] != '`';
    }
    assert FencedBy(text, n);
  }

  lemma JoinPlain(s: string, from: nat, to: nat, rest: seq<Segment>)
    requires from <= to <= |s|
    ensures Joined(PlainPart(s, from, to) + rest) == s[from..to] + Joined(rest)
  {
    if from < to {
      assert (PlainPart(s, from, to) + rest)[1..] == rest;
    } else {
      assert PlainPart(s, from, to) + rest == rest;
    }
  }

  lemma JoinCode(text: string, rest: seq<Segment>)
    ensures Joined([Segment(text, true)] + rest) == text + Joined(rest)
  {
    assert ([Segment(text, true)] + rest)[1..] == rest;
  }

  lemma JoinStep(s: string, plain: nat, i: nat, end: nat, rest: seq<Segment>)
    requires plain <= i <= end <= |s| && Joined(rest) == s[end..]
    ensures Joined(PlainPart(s, plain, i) + [Segment(s[i..end], true)] + rest) == s[plain..]
  {
    var code := [Segment(s[i..end], true)];
    JoinCode(s[i..end], rest);
    JoinPlain(s, plain, i, code + rest);
    assert PlainPart(s, plain, i) + code + rest == PlainPart(s, plain, i) + (code + rest);
    Cuts(s, plain, i, end);
  }

  /** The segments of a message are its text, cut. */
  lemma {:induction false} SplitJoins(s: string, plain: nat, i: nat)
    requires plain <= i <= |s|
    ensures Joined(SplitFrom(s, plain, i)) == s[plain..]
    decreases |s| - i
  {
    if i == |s| {
      JoinPlain(s, plain, i, []);
      assert PlainPart(s, plain, i) + [] == PlainPart(s, plain, i) && s[plain..i] == s[plain..];
    } else {
      var end := CodeEnd(s, i);
      if end.Some? {
        SplitJoins(s, end.value, end.value);
        JoinStep(s, plain, i, end.value, SplitFrom(s, end.value, end.value));
      } else {
        SplitJoins(s, plain, i + Stride(s, i));
      }
    }
  }

  lemma Cuts(s: string, a: nat, b: nat, c: nat)
    requires a <= b <= c <= |s|
    ensures s[a..b] + (s[b..c] + s[c..]) == s[a..]
  {
  }

  lemma WellSplitPrefix(plain: seq<Segment>, code: Segment, rest: seq<Segment>)
    requires WellSplit(rest) && |plain| <= 1 && code.code && Fenced(code.text)
    requires forall p | p in plain :: p.text != [] && !p.code
    ensures WellSplit(plain + [code] + rest)
  {
    var all := plain + [code] + rest;
    forall i | 0 <= i < |all|
      ensures all[i].text != [] && (all[i].code ==> Fenced(all[i].text))
      ensures i < |all| - 1 ==> all[i].code || all[i + 1].code
    {
      if i > |plain| {
        assert all[i] == rest[i - |plain| - 1];
        if i < |all| - 1 {
          assert all[i + 1] == rest[i - |plain|];
        }
      }
    }
  }

  /** No segment is empty, no two text segments meet, and code sits between its own fences. */
  lemma {:induction false} SplitIsWell(s: string, plain: nat, i: nat)
    requires plain <= i <= |s|
    ensures WellSplit(SplitFrom(s, plain, i))
    decreases |s| - i
  {
    if i < |s| {
      var end := CodeEnd(s, i);
      if end.Some? {
        SplitIsWell(s, end.value, end.value);
        CodeIsFenced(s, i);
        WellSplitPrefix(PlainPart(s, plain, i), Segment(s[i..end.value], true), SplitFrom(s, end.value, end.value));
      } else {
        SplitIsWell(s, plain, i + Stride(s, i));
      }
    }
  }

  // `segments` are those before position `plain` when the scan stands at `i`.
  ghost predicate SplitSoFar(s: string, segments: seq<Segment>, plain: nat, i: nat) {
    plain <= i <= |s| && segments + SplitFrom(s, plain, i) == SplitSpec(s)
  }

  lemma SplitStarts(s: string)
    ensures SplitSoFar(s, [], 0, 0)
  {
  }

  // Appends a text, which may be empty, and the code after it.
  method CutCode(segments: seq<Segment>, s: string, plain: nat, i: nat, end: nat) returns (more: seq<Segment>)
    requires plain <= i < end <= |s| && CodeEnd(s, i) == Some(end) && SplitSoFar(s, segments, plain, i)
    ensures SplitSoFar(s, more, end, end)
  {
    ghost var part, code, rest := PlainPart(s, plain, i), [Segment(s[i..end], true)], SplitFrom(s, end, end);
    more := segments;
    if plain < i {
      more := more + [Segment(s[plain..i], false)];
    }
    assert more == segments + part;
    more := more + [Segment(s[i..end], true)];
    assert segments + part + code + rest == segments + (part + code + rest);
  }

  /** `split_markdown_code_segments`. */
  method SplitMarkdown(content: string) returns (segments: seq<Segment>)
    ensures segments == SplitSpec(content)
    ensures Joined(segments) == content && WellSplit(segments)
  {
    segments := [];
    var index: nat, plainStart: nat := 0, 0;
    SplitStarts(content);
    while index < |content|
      invariant plainStart <= index <= |content|
      invariant SplitSoFar(content, segments, plainStart, index)
      decreases |content| - index
    {
      var stride, end := CodeAt(content, index);
      if end.None? {
        SkipPlain(content, segments, plainStart, index);
        index := index + stride;
        continue;
      }
      segments := CutCode(segments, content, plainStart, index, end.value);
      index := end.value;
      plainStart := index;
    }
    segments := CutTail(segments, content, plainStart);
    SplitIsSound(content);
  }

  method CutTail(segments: seq<Segment>, s: string, plain: nat) returns (all: seq<Segment>)
    requires SplitSoFar(s, segments, plain, |s|)
    ensures all == SplitSpec(s)
  {
    all := segments;
    if plain < |s| {
      assert s[plain..|s|] == s[plain..];
      all := all + [Segment(s[plain..], false)];
    }
  }

  lemma SplitIsSound(content: string)
    ensures Joined(SplitSpec(content)) == content && WellSplit(SplitSpec(content))
  {
    assert content[0..] == content;
    SplitJoins(content, 0, 0);
    SplitIsWell(content, 0, 0);
  }

  // A fence of three is looked for before a shorter run.
  method FenceAt(s: string, i: nat) returns (width: nat)
    requires i < |s|
    ensures width == Fence(s, i)
  {
    if Ticks(s, i, 3) {
      return 3;
    }
    if s[i] != '`' {
      return 0;
    }
    width := RunAt(s, i);
  }

  // Whether code opens at `i`, and how far to move otherwise.
  method CodeAt(s: string, i: nat) returns (stride: nat, end: Option<nat>)
    requires i < |s|
    ensures stride == Stride(s, i) && end == CodeEnd(s, i)
  {
    var width := FenceAt(s, i);
    if width == 0 {
      return 1, None;
    }
    var closing := FindTicks(s, width, i + width);
    return width, if closing.None? then None else Some(closing.value + width);
  }

  lemma SkipPlain(s: string, segments: seq<Segment>, plain: nat, i: nat)
    requires SplitSoFar(s, segments, plain, i) && i < |s| && CodeEnd(s, i).None?
    ensures SplitSoFar(s, segments, plain, i + Stride(s, i))
  {
  }

  method RunAt(s: string, i: nat) returns (run: nat)
    requires i < |s| && s[i] == '`'
    ensures run == TickRun(s, i)
  {
    run := 1;
    while i + run < |s| && s[i + run] == '`'
      invariant i + run <= |s| && run + TickRun(s, i + run) == TickRun(s, i)
    {
      run := run + 1;
    }
  }

  // ---- The message ----

  function Rewritten(m: Markup, segment: Segment): string {
    if segment.code then segment.text else RepairOutside(m, m.alias(segment.text))
  }

  function NormalizeSpec(m: Markup, segments: seq<Segment>): string {
    if segments == [] then [] else Rewritten(m, segments[0]) + NormalizeSpec(m, segments[1..])
  }

  // `out` is the message with its code in place and, between the code, the repaired
  // texts, which only gained dollars over what the aliases stand for.
  ghost predicate KeepsCode(m: Markup, segments: seq<Segment>, out: string)
    decreases |segments|, 1
  {
    if segments == [] then out == []
    else exists cut: nat | cut <= |out| :: PieceAt(m, segments, out, cut)
  }

  ghost predicate PieceAt(m: Markup, segments: seq<Segment>, out: string, cut: nat)
    requires segments != [] && cut <= |out|
    decreases |segments|, 0
  {
    && (if segments[0].code then out[..cut] == segments[0].text
        else out[..cut] == RepairOutside(m, m.alias(segments[0].text)) && Inserts(m.alias(segments[0].text), out[..cut]))
    && KeepsCode(m, segments[1..], out[cut..])
  }

  lemma {:induction false} NormalizeKeeps(m: Markup, segments: seq<Segment>)
    ensures KeepsCode(m, segments, NormalizeSpec(m, segments))
  {
    if segments != [] {
      NormalizeKeeps(m, segments[1..]);
      var piece := Rewritten(m, segments[0]);
      var out := NormalizeSpec(m, segments);
      assert out[..|piece|] == piece && out[|piece|..] == NormalizeSpec(m, segments[1..]);
      OnlyDelimitersAreAdded(m, m.alias(segments[0].text));
      assert PieceAt(m, segments, out, |piece|);
    }
  }

  lemma {:induction false} NormalizeInserts(m: Markup, segments: seq<Segment>)
    requires forall i | 0 <= i < |segments| && !segments[i].code :: m.alias(segments[i].text) == segments[i].text
    ensures Inserts(Joined(segments), NormalizeSpec(m, segments))
  {
    if segments != [] {
      NormalizeInserts(m, segments[1..]);
      InsertsNothing(segments[0].text);
      OnlyDelimitersAreAdded(m, segments[0].text);
      InsertsConcat(segments[0].text, Rewritten(m, segments[0]), Joined(segments[1..]), NormalizeSpec(m, segments[1..]));
    }
  }

  /** Every code segment is carried through; a message without aliases only gains dollars. */
  lemma NormalizeCarriesCode(m: Markup, content: string)
    ensures KeepsCode(m, SplitSpec(content), NormalizeSpec(m, SplitSpec(content)))
    ensures (forall s: Segment | s in SplitSpec(content) && !s.code :: m.alias(s.text) == s.text) ==>
      Erase(NormalizeSpec(m, SplitSpec(content))) == Erase(content)
  {
    NormalizeKeeps(m, SplitSpec(content));
    if forall s: Segment | s in SplitSpec(content) && !s.code :: m.alias(s.text) == s.text {
      NormalizeInserts(m, SplitSpec(content));
      SplitJoins(content, 0, 0);
      assert content[0..] == content;
      InsertsErase(content, NormalizeSpec(m, SplitSpec(content)));
    }
  }

  method NormalizeMathMarkdown(m: Markup, content: string) returns (normalized: string)
    ensures normalized == NormalizeSpec(m, SplitSpec(content))
    ensures KeepsCode(m, SplitSpec(content), normalized)
  {
    var segments := SplitMarkdown(content);
    normalized := [];
    for i := 0 to |segments|
      invariant normalized + NormalizeSpec(m, segments[i..]) == NormalizeSpec(m, segments)
    {
      var segment := segments[i];
      var piece := segment.text;
      if !segment.code {
        piece := RepairOutsideDisplayMath(m, m.alias(segment.text));
      }
      assert segments[i..][0] == segment && segments[i..][1..] == segments[i + 1..];
      Regroup(normalized, piece, NormalizeSpec(m, segments[i + 1..]));
      normalized := normalized + piece;
    }
    NormalizeKeeps(m, segments);
  }
}
