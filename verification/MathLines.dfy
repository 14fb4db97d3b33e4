/**
 What the repairs do to one line and to one fragment, said of the text itself:
 where dollars and commands stand, not how they are looked for.
 */
module MathLines {
  import opened Wrappers
  import opened MathRepair

  // ---- Where commands and dollars stand ----

  // The letters from `a` on end at `b`.
  ghost predicate NameSpan(s: string, a: nat, b: nat) {
    && a <= b <= |s| && (forall k | a <= k < b :: 'a' <= s[k] <= 'z' || 'A' <= s[k] <= 'Z')
    && (b < |s| ==> !('a' <= s[b] <= 'z' || 'A' <= s[b] <= 'Z'))
  }

  // A backslash and the whole name of a strong command.
  ghost predicate StrongAt(m: Markup, s: string, i: nat) {
    i < |s| && s[i] == '\\' && exists b: nat :: StrongSpan(m, s, i, b)
  }

  ghost predicate StrongSpan(m: Markup, s: string, i: nat, b: nat) {
    i + 1 < b && NameSpan(s, i + 1, b) && s[i + 1..b] in m.strong
  }

  ghost predicate FirstStrong(m: Markup, s: string, i: nat) {
    StrongAt(m, s, i) && forall k: nat | k < i :: !StrongAt(m, s, k)
  }

  // The one unescaped dollar of `s`.
  ghost predicate OnlyDollar(s: string, d: nat) {
    DollarsAt(s, d, 1) && forall k: nat | k != d :: !DollarsAt(s, k, 1)
  }

  ghost predicate NoDollar(s: string) {
    forall k: nat :: !DollarsAt(s, k, 1)
  }

  // What stands from `i` to `j` is `s` without its outer blanks.
  ghost predicate Core(m: Markup, s: string, i: nat, j: nat) {
    && i < j <= |s| && !m.space(s[i]) && !m.space(s[j - 1])
    && (forall k | 0 <= k < i || j <= k < |s| :: m.space(s[k]))
  }

  // The text reads as an equation, blanks at its end aside: two strong commands, or one and a structure.
  ghost predicate ReadsAsEquation(m: Markup, t: string) {
    exists k: nat :: Core(m, t, 0, k) && EquationText(m, t[..k])
  }

  ghost predicate EquationText(m: Markup, t: string) {
    || (exists i: nat, j: nat :: i < j && StrongAt(m, t, i) && StrongAt(m, t, j))
    || (exists i: nat :: StrongAt(m, t, i) && exists c | c in t :: c in {'{', '}', '_', '^', '='})
  }

  // ---- They are found there ----

  lemma {:induction false} NameIs(s: string, a: nat)
    requires a <= |s|
    ensures NameSpan(s, a, a + |Name(s, a)|) && Name(s, a) == s[a..a + |Name(s, a)|]
    decreases |s| - a
  {
    if a < |s| && Letter(s[a]) {
      NameIs(s, a + 1);
      assert s[a..a + |Name(s, a)|] == [s[a]] + s[a + 1..a + |Name(s, a)|];
    }
  }

  lemma {:induction false} NameSpanIs(s: string, a: nat, b: nat)
    requires NameSpan(s, a, b)
    ensures |Name(s, a)| == b - a
    decreases b - a
  {
    if a < b {
      NameSpanIs(s, a + 1, b);
    }
  }

  lemma StrongHere(m: Markup, s: string, i: nat)
    requires i < |s|
    ensures StrongAt(m, s, i) <==> s[i] == '\\' && Name(s, i + 1) != [] && Name(s, i + 1) in m.strong
  {
    if s[i] == '\\' {
      NameIs(s, i + 1);
      if b: nat :| StrongSpan(m, s, i, b) {
        NameSpanIs(s, i + 1, b);
      }
      assert Name(s, i + 1) != [] && Name(s, i + 1) in m.strong ==> StrongSpan(m, s, i, i + 1 + |Name(s, i + 1)|);
    }
  }

  // The strong commands found from `from` on are where they stand, in order.
  ghost predicate FoundFrom(m: Markup, s: string, from: nat, found: seq<Command>) {
    && (found == [] <==> forall i: nat | from <= i :: !StrongAt(m, s, i))
    && (found != [] ==> from <= found[0].start && StrongAt(m, s, found[0].start) && forall i: nat | from <= i < found[0].start :: !StrongAt(m, s, i))
    && (|found| >= 2 <==> exists i: nat, j: nat :: from <= i < j && StrongAt(m, s, i) && StrongAt(m, s, j))
  }

  lemma FoundNone(m: Markup, s: string, from: nat, found: seq<Command>)
    requires FoundFrom(m, s, from + 1, found) && !StrongAt(m, s, from)
    ensures FoundFrom(m, s, from, found)
  {
  }

  lemma FoundOne(m: Markup, s: string, from: nat, c: Command, later: seq<Command>)
    requires FoundFrom(m, s, from + 1, later) && StrongAt(m, s, from) && c.start == from
    ensures FoundFrom(m, s, from, [c] + later)
  {
    if later != [] {
      assert from < later[0].start && StrongAt(m, s, later[0].start);
    }
  }

  lemma {:induction false} StrongFound(m: Markup, s: string, from: nat)
    ensures FoundFrom(m, s, from, Strong(m, Commands(s, from)))
    decreases |s| - from
  {
    if from < |s| {
      StrongFound(m, s, from + 1);
      StrongNext(m, s, from);
      StrongHere(m, s, from);
      var later := Strong(m, Commands(s, from + 1));
      if StrongAt(m, s, from) {
        FoundOne(m, s, from, Command(from, Name(s, from + 1)), later);
      } else {
        FoundNone(m, s, from, later);
        assert [] + later == later;
      }
    }
  }

  lemma StartIsFirst(m: Markup, s: string, c: nat)
    ensures CommandStart(m, s) == Some(c) <==> FirstStrong(m, s, c)
    ensures CommandStart(m, s).None? <==> forall i: nat :: !StrongAt(m, s, i)
  {
    StrongFound(m, s, 0);
    if CommandStart(m, s).Some? {
      assert FirstStrong(m, s, CommandStart(m, s).value);
    }
  }

  lemma {:induction false} StripCore(m: Markup, s: string, i: nat, j: nat)
    requires Core(m, s, i, j)
    ensures LeadingSpace(m, s) == i && Strip(m, s) == s[i..j]
  {
    Leading(m, s, i);
    var tail := s[i..];
    Trailing(m, tail, |s| - j);
    assert tail[..|tail| - (|s| - j)] == s[i..j];
  }

  // A text that is not all blank has a core.
  lemma CoreOf(m: Markup, s: string) returns (i: nat, j: nat)
    requires LeadingSpace(m, s) < |s|
    ensures Core(m, s, i, j)
  {
    i := LeadingSpace(m, s);
    LeadingBlank(m, s);
    TrailingBlank(m, s);
    j := |s| - TrailingSpace(m, s);
    assert i < |s| - TrailingSpace(m, s) by {
      assert !m.space(s[i]);
    }
  }

  lemma {:induction false} LeadingBlank(m: Markup, s: string)
    ensures forall k | 0 <= k < LeadingSpace(m, s) :: m.space(s[k])
  {
    if s != [] && m.space(s[0]) {
      LeadingBlank(m, s[1..]);
      assert forall k | 1 <= k < LeadingSpace(m, s) :: s[k] == s[1..][k - 1];
    }
  }

  lemma {:induction false} TrailingBlank(m: Markup, s: string)
    ensures forall k | |s| - TrailingSpace(m, s) <= k < |s| :: m.space(s[k])
  {
    if s != [] && m.space(s[|s| - 1]) {
      TrailingBlank(m, s[..|s| - 1]);
    }
  }

  lemma EquationTextIs(m: Markup, t: string)
    ensures EquationText(m, t) <==>
      |Strong(m, Commands(t, 0))| >= 2 || (|Strong(m, Commands(t, 0))| == 1 && Structured(t))
  {
    StrongFound(m, t, 0);
    if Strong(m, Commands(t, 0)) != [] {
      assert StrongAt(m, t, Strong(m, Commands(t, 0))[0].start);
    }
  }

  lemma CoreReads(m: Markup, s: string, c: nat, k: nat)
    requires c <= |s| && Core(m, s[c..], 0, k) && s[c] == '\\'
    ensures Equation(m, s, c) <==> EquationText(m, s[c..][..k])
  {
    StripCore(m, s[c..], 0, k);
    assert s[c..][0..k] == s[c..][..k];
    EquationTextIs(m, s[c..][..k]);
  }

  lemma EquationIs(m: Markup, s: string, c: nat)
    requires c < |s| && s[c] == '\\'
    ensures Equation(m, s, c) <==> ReadsAsEquation(m, s[c..])
  {
    var tail := s[c..];
    if Equation(m, s, c) {
      EquationStarts(m, s, c);
      NotBlank(m, tail, 0);
      var i, k := CoreOf(m, tail);
      assert i == 0;
      CoreReads(m, s, c, k);
    }
    if k: nat :| Core(m, tail, 0, k) && EquationText(m, tail[..k]) {
      CoreReads(m, s, c, k);
    }
  }

  // A dollar at `i` that is not escaped, when `before` precedes the text.
  ghost predicate Unescaped(before: char, s: string, i: nat) {
    i < |s| && s[i] == '$' && (if i == 0 then before else s[i - 1]) != '\\'
  }

  lemma UnescapedNext(before: char, s: string, i: nat)
    requires s != []
    ensures Unescaped(s[0], s[1..], i) <==> Unescaped(before, s, i + 1)
  {
  }

  lemma {:induction false} DollarsFound(before: char, s: string)
    ensures Dollars(before, s) == 0 <==> forall i: nat :: !Unescaped(before, s, i)
    ensures FirstDollar(before, s) < |s| <==> exists i: nat :: Unescaped(before, s, i)
    ensures FirstDollar(before, s) < |s| ==> Unescaped(before, s, FirstDollar(before, s))
    ensures forall i: nat | i < FirstDollar(before, s) :: !Unescaped(before, s, i)
    ensures Dollars(before, s) >= 2 <==> exists i: nat, j: nat :: i < j && Unescaped(before, s, i) && Unescaped(before, s, j)
    decreases |s|
  {
    if s != [] {
      DollarsFound(s[0], s[1..]);
      forall i: nat
        ensures Unescaped(s[0], s[1..], i) <==> Unescaped(before, s, i + 1)
      {
        UnescapedNext(before, s, i);
      }
      assert forall i: nat | 0 < i :: Unescaped(before, s, i) <==> Unescaped(s[0], s[1..], i - 1);
      assert Unescaped(before, s, 0) <==> s[0] == '$' && before != '\\';
    }
  }

  lemma UnescapedIs(s: string, i: nat)
    ensures Unescaped(' ', s, i) <==> DollarsAt(s, i, 1)
  {
  }

  lemma OneDollarIs(s: string, d: nat)
    ensures Dollars(' ', s) == 1 && FirstDollar(' ', s) == d <==> OnlyDollar(s, d)
    ensures Dollars(' ', s) == 0 <==> NoDollar(s)
    ensures Dollars(' ', s) == 1 ==> OnlyDollar(s, FirstDollar(' ', s))
  {
    DollarsFound(' ', s);
    forall i: nat
      ensures Unescaped(' ', s, i) <==> DollarsAt(s, i, 1)
    {
      UnescapedIs(s, i);
    }
    if OnlyDollar(s, d) {
      assert Unescaped(' ', s, d);
      assert forall i: nat | Unescaped(' ', s, i) :: i == d;
    }
  }

  // ---- One line ----

  // The first `n` characters are a list prefix: blanks, a bullet or a number with a dot, blanks.
  ghost predicate PrefixOf(m: Markup, line: string, n: nat) {
    exists i: nat, j: nat :: i < j < n <= |line| && PrefixAt(m, line, i, j, n)
  }

  ghost predicate PrefixAt(m: Markup, line: string, i: nat, j: nat, n: nat)
    requires i < j < n <= |line|
  {
    && (forall k | 0 <= k < i :: m.space(line[k])) && !m.space(line[i])
    && MarkerText(m, line[i..j])
    && (forall k | j <= k < n :: m.space(line[k])) && (n < |line| ==> !m.space(line[n]))
  }

  ghost predicate MarkerText(m: Markup, t: string)
    requires t != []
  {
    if t[0] in {'-', '*', '+'} then |t| == 1
    else |t| > 1 && t[|t| - 1] == '.' && !m.digit('.') && forall k | 0 <= k < |t| - 1 :: m.digit(t[k])
  }

  lemma {:induction false} DigitsAre(m: Markup, s: string)
    ensures forall k | 0 <= k < DigitRun(m, s) :: m.digit(s[k])
    ensures DigitRun(m, s) < |s| ==> !m.digit(s[DigitRun(m, s)])
  {
    if s != [] && m.digit(s[0]) {
      DigitsAre(m, s[1..]);
      assert forall k | 1 <= k < DigitRun(m, s) :: s[k] == s[1..][k - 1];
    }
  }

  lemma {:induction false} DigitsEnd(m: Markup, s: string, n: nat)
    requires n < |s| && !m.digit(s[n]) && forall k | 0 <= k < n :: m.digit(s[k])
    ensures DigitRun(m, s) == n
  {
    if n > 0 {
      DigitsEnd(m, s[1..], n - 1);
    }
  }

  lemma MarkerFound(m: Markup, s: string)
    ensures Marker(m, s) > 0 ==> MarkerText(m, s[..Marker(m, s)])
  {
    DigitsAre(m, s);
  }

  lemma MarkerIs(m: Markup, s: string, n: nat)
    requires 0 < n < |s| && MarkerText(m, s[..n])
    ensures Marker(m, s) == n
  {
    if s[0] !in {'-', '*', '+'} {
      assert s[..n][n - 1] == s[n - 1];
      assert forall k | 0 <= k < n - 1 :: s[..n][k] == s[k];
      DigitsEnd(m, s, n - 1);
    }
  }

  lemma BlanksAfter(m: Markup, line: string, j: nat, n: nat)
    requires j <= n <= |line| && LeadingSpace(m, line[j..]) == n - j
    ensures forall k | j <= k < n :: m.space(line[k])
    ensures n < |line| ==> !m.space(line[n])
  {
    LeadingBlank(m, line[j..]);
    assert forall k | j <= k < n :: line[j..][k - j] == line[k];
  }

  lemma PrefixFound(m: Markup, line: string)
    ensures ListPrefix(m, line) > 0 ==> PrefixOf(m, line, ListPrefix(m, line))
  {
    var n := ListPrefix(m, line);
    if n > 0 {
      var i := LeadingSpace(m, line);
      var j := i + Marker(m, line[i..]);
      assert line[0..] == line;
      BlanksAfter(m, line, 0, i);
      BlanksAfter(m, line, j, n);
      MarkerFound(m, line[i..]);
      assert line[i..][..j - i] == line[i..j];
      assert PrefixAt(m, line, i, j, n);
    }
  }

  lemma {:induction false} AllBlank(m: Markup, s: string)
    requires forall k | 0 <= k < |s| :: m.space(s[k])
    ensures LeadingSpace(m, s) == |s|
  {
    if s != [] {
      AllBlank(m, s[1..]);
    }
  }

  lemma PrefixIs(m: Markup, line: string, n: nat)
    ensures PrefixOf(m, line, n) ==> ListPrefix(m, line) == n
  {
    if i: nat, j: nat :| i < j < n <= |line| && PrefixAt(m, line, i, j, n) {
      Leading(m, line, i);
      assert line[i..][..j - i] == line[i..j];
      MarkerIs(m, line[i..], j - i);
      var rest := line[j..];
      if n < |line| {
        Leading(m, rest, n - j);
      } else {
        AllBlank(m, rest);
      }
    }
  }

  // The line is the list prefix `p`, which may be empty, and `b`.
  ghost predicate Divided(m: Markup, line: string, p: string, b: string) {
    line == p + b && if p == "" then forall n: nat :: !PrefixOf(m, line, n) else PrefixOf(m, line, |p|)
  }

  lemma DividedIs(m: Markup, line: string, p: string, b: string)
    requires Divided(m, line, p, b)
    ensures ListPrefix(m, line) == |p| && line[..|p|] == p && line[|p|..] == b
  {
    PrefixFound(m, line);
    PrefixIs(m, line, |p|);
  }

  lemma Divide(m: Markup, line: string) returns (p: string, b: string)
    ensures Divided(m, line, p, b)
  {
    var n := ListPrefix(m, line);
    p, b := line[..n], line[n..];
    PrefixFound(m, line);
    forall k: nat | n == 0
      ensures !PrefixOf(m, line, k)
    {
      PrefixIs(m, line, k);
    }
  }

  // One delimiter of the equation at `c` is there, at `d`, and the other is missing.
  ghost predicate HalfDelimited(m: Markup, b: string, c: nat, d: nat) {
    FirstStrong(m, b, c) && ReadsAsEquation(m, b[c..]) && OnlyDollar(b, d)
  }

  // The line is a bare equation.
  ghost predicate Bare(m: Markup, b: string) {
    FirstStrong(m, b, 0) && ReadsAsEquation(m, b) && NoDollar(b)
  }

  lemma RepairBodyIs(m: Markup, b: string)
    ensures forall c: nat, d: nat | HalfDelimited(m, b, c, d) ::
      RepairBody(m, b) == if d <= c then b + "$" else b[..c] + "$" + b[c..]
    ensures Bare(m, b) ==> RepairBody(m, b) == "$" + b + "$"
    ensures !Bare(m, b) && (forall c: nat, d: nat :: !HalfDelimited(m, b, c, d)) ==> RepairBody(m, b) == b
  {
    forall c: nat, d: nat | HalfDelimited(m, b, c, d)
      ensures RepairBody(m, b) == if d <= c then b + "$" else b[..c] + "$" + b[c..]
    {
      HalfRepaired(m, b, c, d);
    }
    if Bare(m, b) {
      BareRepaired(m, b);
    }
    if Missing(m, b).Some? {
      MissingIs(m, b);
    }
  }

  lemma HalfRepaired(m: Markup, b: string, c: nat, d: nat)
    requires HalfDelimited(m, b, c, d)
    ensures RepairBody(m, b) == if d <= c then b + "$" else b[..c] + "$" + b[c..]
  {
    StartIsFirst(m, b, c);
    EquationIs(m, b, c);
    EquationStarts(m, b, c);
    NotBlank(m, b, c);
    OneDollarIs(b, d);
    var gap := if d <= c then |b| else c;
    RepairedParts(m, b, b[..gap], b[gap..]);
    assert b[..|b|] == b && b[|b|..] == [] && b + "$" + [] == b + "$";
  }

  lemma BareRepaired(m: Markup, b: string)
    requires Bare(m, b)
    ensures RepairBody(m, b) == "$" + b + "$"
  {
    StartIsFirst(m, b, 0);
    assert b[0..] == b;
    EquationIs(m, b, 0);
    EquationStarts(m, b, 0);
    NotBlank(m, b, 0);
    OneDollarIs(b, 0);
    RepairedParts(m, b, b[..|b|], b[|b|..]);
    assert b[..|b|] == b && b[|b|..] == [] && "$" + (b + "$" + []) == "$" + b + "$";
  }

  // A body is changed only in these two cases.
  lemma MissingIs(m: Markup, b: string)
    requires Missing(m, b).Some?
    ensures Bare(m, b) || exists c: nat, d: nat :: HalfDelimited(m, b, c, d)
  {
    var c := Missing(m, b).value;
    var d := FirstDollar(' ', b);
    assert b[0..] == b;
    StartIsFirst(m, b, c);
    EquationIs(m, b, c);
    OneDollarIs(b, d);
    assert Dollars(' ', b) == 1 ==> HalfDelimited(m, b, c, d);
  }

  /**
   What a line becomes, said of its text. Behind its list prefix `p`, if its first
   strong command begins an equation at `c` and its one unescaped dollar stands at
   `d`, the other delimiter is put at the end or, if the dollar comes later, before
   the command; if there is no dollar and the equation is the whole body, it gets
   both. Any other line stays as it is.
   */
  lemma RepairLineExactly(m: Markup, line: string, p: string, b: string)
    requires Divided(m, line, p, b)
    ensures forall c: nat, d: nat | HalfDelimited(m, b, c, d) ::
      RepairLine(m, line) == if d <= c then p + b + "$" else p + b[..c] + "$" + b[c..]
    ensures Bare(m, b) ==> RepairLine(m, line) == p + "$" + b + "$"
    ensures RepairLine(m, line) != line ==> Bare(m, b) || exists c: nat, d: nat :: HalfDelimited(m, b, c, d)
  {
    RepairBodyIs(m, b);
    LineIs(m, line, p, b);
    forall c: nat, d: nat | HalfDelimited(m, b, c, d)
      ensures RepairLine(m, line) == if d <= c then p + b + "$" else p + b[..c] + "$" + b[c..]
    {
      Three(p, b[..c], "$", b[c..]);
      Three(p, b, "$", "");
    }
    Three(p, "$", b, "$");
  }

  lemma LineIs(m: Markup, line: string, p: string, b: string)
    requires Divided(m, line, p, b)
    ensures RepairLine(m, line) == p + RepairBody(m, b)
    ensures RepairBody(m, b) == b ==> RepairLine(m, line) == line
  {
    DividedIs(m, line, p, b);
  }

  lemma Three(p: string, a: string, b: string, c: string)
    ensures p + (a + b + c) == p + a + b + c && p + (a + b) == p + a + b
  {
  }

  // ---- One fragment ----

  // A word of two or more letters that is no command.
  ghost predicate WordAt(m: Markup, t: string, a: nat, b: nat) {
    && a + 2 <= b && NameSpan(t, a, b)
    && (a > 0 ==> t[a - 1] != '\\' && !m.word(t[a - 1]))
    && (b < |t| ==> !m.word(t[b]))
  }

  // A strong command and no word.
  ghost predicate Continues(m: Markup, t: string) {
    (exists i: nat :: StrongAt(m, t, i)) && forall a: nat, b: nat :: !WordAt(m, t, a, b)
  }

  lemma PlainWordIs(m: Markup, t: string, a: nat)
    requires a < |t|
    ensures PlainWord(m, t, a) <==> exists b: nat :: WordAt(m, t, a, b)
  {
    NameIs(t, a);
    if PlainWord(m, t, a) {
      assert WordAt(m, t, a, a + |Name(t, a)|);
    }
    if b: nat :| WordAt(m, t, a, b) {
      NameSpanIs(t, a, b);
    }
  }

  lemma AdjacentIs(m: Markup, s: string, i: nat, j: nat)
    requires Core(m, s, i, j)
    ensures Adjacent(m, s) <==> Continues(m, s[i..j])
  {
    StripCore(m, s, i, j);
    var t := s[i..j];
    StrongFound(m, t, 0);
    forall a: nat | a < |t|
      ensures PlainWord(m, t, a) <==> exists b: nat :: WordAt(m, t, a, b)
    {
      PlainWordIs(m, t, a);
    }
    assert forall a: nat, b: nat | WordAt(m, t, a, b) :: PlainWord(m, t, a);
    assert forall a | 0 <= a < |t| && PlainWord(m, t, a) :: exists b: nat :: WordAt(m, t, a, b);
    assert (exists i: nat :: StrongAt(m, t, i)) <==> Strong(m, Commands(t, 0)) != [];
  }

  lemma BlankIsNotAdjacent(m: Markup, s: string)
    requires forall k | 0 <= k < |s| :: m.space(s[k])
    ensures !Adjacent(m, s)
  {
    AllBlank(m, s);
    assert s[|s|..] == [] && Strip(m, s) == [];
  }

  /**
   What a fragment beside inline math becomes: if, without its outer blanks, it has
   a strong command and no word, all of it but one closing punctuation mark is put
   between dollars; otherwise it stays as it is.
   */
  lemma RepairFragmentExactly(m: Markup, s: string, i: nat, j: nat)
    requires Core(m, s, i, j)
    ensures var end := if s[j - 1] in {'.', ',', ';', ':'} then j - 1 else j;
      RepairFragment(m, s) == if Continues(m, s[i..j]) && i < end then s[..i] + ("$" + s[i..end] + "$") + s[end..] else s
  {
    AdjacentIs(m, s, i, j);
    var end := if ClosingMark(s[j - 1]) then j - 1 else j;
    if i < end {
      WrapShape(m, s, i, end, j);
    } else {
      Leading(m, s, i);
      Trailing(m, s, |s| - j);
    }
  }

  lemma BlankFragment(m: Markup, s: string)
    requires forall k | 0 <= k < |s| :: m.space(s[k])
    ensures RepairFragment(m, s) == s
  {
    BlankIsNotAdjacent(m, s);
  }
}
