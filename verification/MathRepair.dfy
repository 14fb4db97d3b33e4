/**
 Repair of equation markup in chat text. Repairs may only insert `$`: `Inserts`
 says so, and every rewriting step below is shown to stay within it.
 */
module MathRepair {
  import opened Wrappers

  // The character classes of the regular expressions, the strong commands, and
  // the rewriting of `\(..\)` and `\[..\]`, which is not modelled.
  datatype Markup = Markup(
    space: char -> bool,
    digit: char -> bool,
    word: char -> bool,
    strong: set<string>,
    alias: string -> string)

  function Concat(parts: seq<string>): string {
    if parts == [] then [] else Concat(parts[..|parts| - 1]) + parts[|parts| - 1]
  }

  // ---- Only `$` is inserted ----

  ghost predicate Inserts(s: string, t: string) {
    if t == [] then s == []
    else (s != [] && s[0] == t[0] && Inserts(s[1..], t[1..])) || (t[0] == '$' && Inserts(s, t[1..]))
  }

  function Erase(s: string): string {
    if s == [] then [] else if s[0] == '$' then Erase(s[1..]) else [s[0]] + Erase(s[1..])
  }

  lemma {:induction false} InsertsNothing(s: string)
    ensures Inserts(s, s)
  {
    if s != [] {
      InsertsNothing(s[1..]);
    }
  }

  lemma {:induction false} InsertsConcat(a: string, b: string, c: string, d: string)
    requires Inserts(a, b) && Inserts(c, d)
    ensures Inserts(a + c, b + d)
    decreases |b|
  {
    if b == [] {
      assert a + c == c && b + d == d;
    } else {
      assert (b + d)[0] == b[0] && (b + d)[1..] == b[1..] + d;
      if a != [] && a[0] == b[0] && Inserts(a[1..], b[1..]) {
        InsertsConcat(a[1..], b[1..], c, d);
        assert (a + c)[0] == a[0] && (a + c)[1..] == a[1..] + c;
      } else {
        InsertsConcat(a, b[1..], c, d);
      }
    }
  }

  lemma {:induction false} InsertsTransitive(a: string, b: string, c: string)
    requires Inserts(a, b) && Inserts(b, c)
    ensures Inserts(a, c)
    decreases |c|
  {
    if c != [] {
      if b != [] && b[0] == c[0] && Inserts(b[1..], c[1..]) {
        if a != [] && a[0] == b[0] && Inserts(a[1..], b[1..]) {
          InsertsTransitive(a[1..], b[1..], c[1..]);
        } else {
          InsertsTransitive(a, b[1..], c[1..]);
        }
      } else {
        InsertsTransitive(a, b, c[1..]);
      }
    }
  }

  /** Inserting only `$` keeps everything else, in order. */
  lemma {:induction false} InsertsErase(s: string, t: string)
    requires Inserts(s, t)
    ensures Erase(s) == Erase(t) && |s| <= |t|
    decreases |t|
  {
    if t != [] {
      if s != [] && s[0] == t[0] && Inserts(s[1..], t[1..]) {
        InsertsErase(s[1..], t[1..]);
      } else {
        InsertsErase(s, t[1..]);
      }
    }
  }

  lemma InsertsDollar(s: string)
    ensures Inserts(s, "$" + s) && Inserts(s, s + "$")
  {
    InsertsNothing(s);
    assert Inserts([], "$") by {
      assert "$"[1..] == [];
    }
    InsertsConcat([], "$", s, s);
    InsertsConcat(s, s, [], "$");
    assert [] + s == s && s + [] == s;
  }

  lemma InsertsBetween(a: string, s: string, t: string, b: string)
    requires Inserts(s, t)
    ensures Inserts(a + s + b, a + t + b)
  {
    InsertsNothing(a);
    InsertsNothing(b);
    InsertsConcat(a, a, s, t);
    InsertsConcat(a + s, a + t, b, b);
  }

  lemma InsertsAfter(s: string, n: nat, t: string)
    requires n <= |s| && Inserts(s[n..], t)
    ensures Inserts(s, s[..n] + t)
  {
    InsertsNothing(s[..n]);
    InsertsConcat(s[..n], s[..n], s[n..], t);
    assert s[..n] + s[n..] == s;
  }

  lemma InsertsPair(a: string, body: string, b: string)
    ensures Inserts(a + body + b, a + ("$" + body + "$") + b)
  {
    InsertsDollar(body);
    InsertsDollar("$" + body);
    InsertsTransitive(body, "$" + body, "$" + body + "$");
    InsertsBetween(a, body, "$" + body + "$", b);
  }

  // ---- Commands and classification ----

  predicate Letter(c: char) {
    'a' <= c <= 'z' || 'A' <= c <= 'Z'
  }

  // The letters of `s` from `i` on.
  function Name(s: string, i: nat): (name: string)
    requires i <= |s|
    ensures i + |name| <= |s|
    decreases |s| - i
  {
    if i < |s| && Letter(s[i]) then [s[i]] + Name(s, i + 1) else []
  }

  datatype Command = Command(start: nat, name: string)

  // The commands from `from` on, as a backslash and the letters after it. No
  // command can begin among the letters of another.
  function Commands(s: string, from: nat): (commands: seq<Command>)
    ensures forall c | c in commands :: c.start < |s| && s[c.start] == '\\'
    decreases |s| - from
  {
    if from >= |s| then []
    else if s[from] == '\\' && Name(s, from + 1) != [] then [Command(from, Name(s, from + 1))] + Commands(s, from + 1)
    else Commands(s, from + 1)
  }

  function Strong(m: Markup, commands: seq<Command>): (kept: seq<Command>)
    ensures forall c | c in kept :: c in commands
  {
    if commands == [] then []
    else if commands[0].name in m.strong then [commands[0]] + Strong(m, commands[1..])
    else Strong(m, commands[1..])
  }

  function CommandStart(m: Markup, s: string): (start: Option<nat>)
    ensures start.Some? ==> start.value < |s| && s[start.value] == '\\'
  {
    var commands := Strong(m, Commands(s, 0));
    if commands == [] then None else assert commands[0] in commands; Some(commands[0].start)
  }

  function LeadingSpace(m: Markup, s: string): (n: nat)
    ensures n <= |s| && (n < |s| ==> !m.space(s[n]))
  {
    if s == [] || !m.space(s[0]) then 0 else 1 + LeadingSpace(m, s[1..])
  }

  function TrailingSpace(m: Markup, s: string): (n: nat)
    ensures n <= |s| && (n < |s| ==> !m.space(s[|s| - n - 1]))
  {
    if s == [] || !m.space(s[|s| - 1]) then 0 else 1 + TrailingSpace(m, s[..|s| - 1])
  }

  function Strip(m: Markup, s: string): string {
    var tail := s[LeadingSpace(m, s)..];
    tail[..|tail| - TrailingSpace(m, tail)]
  }

  predicate Structured(s: string) {
    exists c | c in s :: c in {'{', '}', '_', '^', '='}
  }

  predicate Equation(m: Markup, s: string, start: nat)
    requires start <= |s|
  {
    var candidate := Strip(m, s[start..]);
    var commands := Strong(m, Commands(candidate, 0));
    && candidate != [] && candidate[0] == '\\'
    && (|commands| >= 2 || (|commands| == 1 && Structured(candidate)))
  }

  predicate PlainWord(m: Markup, s: string, i: nat) {
    && i < |s| && |Name(s, i)| >= 2
    && (i == 0 || (s[i - 1] != '\\' && !m.word(s[i - 1])))
    && (i + |Name(s, i)| == |s| || !m.word(s[i + |Name(s, i)|]))
  }

  predicate Adjacent(m: Markup, s: string) {
    var stripped := Strip(m, s);
    && (forall i | 0 <= i < |stripped| :: !PlainWord(m, stripped, i))
    && Strong(m, Commands(stripped, 0)) != []
  }

  // ---- One line with a missing delimiter ----

  // The unescaped dollars of `s`, when `before` precedes it.
  function Dollars(before: char, s: string): nat
    decreases |s|
  {
    if s == [] then 0 else (if s[0] == '$' && before != '\\' then 1 else 0) + Dollars(s[0], s[1..])
  }

  function FirstDollar(before: char, s: string): (i: nat)
    ensures i <= |s|
    decreases |s|
  {
    if s == [] || (s[0] == '$' && before != '\\') then 0 else 1 + FirstDollar(s[0], s[1..])
  }

  function Last(before: char, s: string): char {
    if s == [] then before else s[|s| - 1]
  }

  // Where the one missing delimiter goes.
  function Gap(m: Markup, body: string, start: nat): nat {
    if Dollars(' ', body) == 1 && FirstDollar(' ', body) > start then start else |body|
  }

  // `None` if the body needs no repair.
  function Missing(m: Markup, body: string): (start: Option<nat>)
    ensures start.Some? ==> start.value < |body| && body[start.value] == '\\'
  {
    var start := CommandStart(m, body);
    if LeadingSpace(m, body) == |body| || start.None? || !Equation(m, body, start.value) then None
    else if Dollars(' ', body) == 1 || (Dollars(' ', body) == 0 && start.value == 0) then start
    else None
  }

  function RepairBody(m: Markup, body: string): string {
    var start := Missing(m, body);
    if start.None? then body
    else
      var gap := Gap(m, body, start.value);
      (if Dollars(' ', body) == 0 then "$" else "") + body[..gap] + "$" + body[gap..]
  }

  // The length of the list prefix: blanks, a bullet or a number, blanks.
  function ListPrefix(m: Markup, line: string): (n: nat)
    ensures n <= |line|
  {
    var indent := LeadingSpace(m, line);
    var marker := Marker(m, line[indent..]);
    var blanks := LeadingSpace(m, line[indent + marker..]);
    if marker > 0 && blanks > 0 then indent + marker + blanks else 0
  }

  function DigitRun(m: Markup, s: string): (n: nat)
    ensures n <= |s|
  {
    if s != [] && m.digit(s[0]) then 1 + DigitRun(m, s[1..]) else 0
  }

  function Marker(m: Markup, s: string): (n: nat)
    ensures n <= |s|
  {
    var digits := DigitRun(m, s);
    if s == [] then 0
    else if s[0] in {'-', '*', '+'} then 1
    else if digits > 0 && digits < |s| && s[digits] == '.' then digits + 1
    else 0
  }

  function RepairLine(m: Markup, line: string): string {
    var n := ListPrefix(m, line);
    line[..n] + RepairBody(m, line[n..])
  }

  lemma InsertsOne(a: string, b: string)
    ensures Inserts(a + b, a + "$" + b) && Inserts(a + b, "$" + (a + "$" + b))
  {
    InsertsDollar(a);
    InsertsNothing(b);
    InsertsConcat(a, a + "$", b, b);
    InsertsDollar(a + "$" + b);
    InsertsTransitive(a + b, a + "$" + b, "$" + (a + "$" + b));
  }

  lemma RepairedParts(m: Markup, body: string, a: string, b: string)
    requires Missing(m, body).Some?
    requires var gap := Gap(m, body, Missing(m, body).value); a == body[..gap] && b == body[gap..]
    ensures RepairBody(m, body) == if Dollars(' ', body) == 0 then "$" + (a + "$" + b) else a + "$" + b
  {
    if Dollars(' ', body) == 0 {
      assert "$" + a + "$" + b == "$" + (a + "$" + b);
    } else {
      assert "" + a == a;
    }
  }

  lemma RepairBodyInserts(m: Markup, body: string)
    ensures Inserts(body, RepairBody(m, body))
  {
    InsertsNothing(body);
    var start := Missing(m, body);
    if start.Some? {
      var gap := Gap(m, body, start.value);
      var a, b := body[..gap], body[gap..];
      assert a + b == body;
      InsertsOne(a, b);
      RepairedParts(m, body, a, b);
    }
  }

  /** A line repair inserts nothing but delimiters. */
  lemma RepairLineInserts(m: Markup, line: string)
    ensures Inserts(line, RepairLine(m, line))
  {
    var n := ListPrefix(m, line);
    RepairBodyInserts(m, line[n..]);
    InsertsAfter(line, n, RepairBody(m, line[n..]));
  }

  lemma {:induction false} DollarsConcat(before: char, a: string, b: string)
    ensures Dollars(before, a + b) == Dollars(before, a) + Dollars(Last(before, a), b)
    decreases |a|
  {
    if a == [] {
      assert a + b == b;
    } else {
      assert (a + b)[0] == a[0] && (a + b)[1..] == a[1..] + b;
      DollarsConcat(a[0], a[1..], b);
    }
  }

  lemma DollarsBefore(c: char, d: char, s: string)
    requires (c == '\\' <==> d == '\\') || s == [] || s[0] != '$'
    ensures Dollars(c, s) == Dollars(d, s)
  {
  }

  lemma CountAppended(before: char, a: string)
    ensures Dollars(before, a + "$") == Dollars(before, a) + (if Last(before, a) != '\\' then 1 else 0)
  {
    DollarsConcat(before, a, "$");
    var c := Last(before, a);
    assert Dollars(c, "$") == (if c != '\\' then 1 else 0) + Dollars('$', "$"[1..]);
  }

  // Counting the delimiters of `a + "$" + b`.
  lemma CountInserted(a: string, b: string)
    requires b == "" || b[0] != '$'
    ensures Dollars(' ', a + "$" + b) == Dollars(' ', a + b) + (if Last(' ', a) != '\\' then 1 else 0)
  {
    var a' := a + "$";
    CountAppended(' ', a);
    DollarsConcat(' ', a', b);
    DollarsConcat(' ', a, b);
    assert Last(' ', a') == '$';
    DollarsBefore('$', Last(' ', a), b);
  }

  lemma CountPrepended(s: string)
    ensures Dollars(' ', "$" + s) == 1 + Dollars(' ', s)
  {
    assert ("$" + s)[1..] == s;
    DollarsBefore('$', ' ', s);
  }

  lemma CountOne(body: string, gap: nat, one: string)
    requires gap <= |body| && (gap < |body| ==> body[gap] != '$') && one == body[..gap] + "$" + body[gap..]
    ensures Dollars(' ', one) == Dollars(' ', body) + (if gap == 0 || body[gap - 1] != '\\' then 1 else 0)
  {
    CountInserted(body[..gap], body[gap..]);
    assert body[..gap] + body[gap..] == body;
  }

  /**
   A repaired body has exactly its two delimiters if and only if the character
   before the inserted closing or opening one is not a backslash.
   */
  lemma RepairBalances(m: Markup, body: string)
    requires Missing(m, body).Some?
    ensures var gap := Gap(m, body, Missing(m, body).value);
      Dollars(' ', RepairBody(m, body)) == 2 <==> gap == 0 || body[gap - 1] != '\\'
  {
    var gap := Gap(m, body, Missing(m, body).value);
    var one := body[..gap] + "$" + body[gap..];
    CountOne(body, gap, one);
    CountPrepended(one);
    RepairedParts(m, body, body[..gap], body[gap..]);
  }

  // The inserted delimiter follows a backslash, so it is none.
  predicate Escaped(m: Markup, body: string) {
    Missing(m, body).Some? &&
    var gap := Gap(m, body, Missing(m, body).value);
    gap > 0 && body[gap - 1] == '\\'
  }

  // From `i` on `s` reads as `t` does from `j` on.
  ghost predicate Agree(s: string, i: nat, t: string, j: nat) {
    i <= |s| && j <= |t| && |s| - i == |t| - j && forall k | i <= k < |s| :: s[k] == t[k - i + j]
  }

  lemma {:induction false} SameName(s: string, i: nat, t: string, j: nat)
    requires Agree(s, i, t, j)
    ensures Name(s, i) == Name(t, j)
    decreases |s| - i
  {
    if i < |s| {
      AgreeNext(s, i, t, j);
      SameName(s, i + 1, t, j + 1);
    }
  }

  // `b` holds the commands of `a`, each `k` characters later.
  ghost predicate Shifted(a: seq<Command>, b: seq<Command>, k: int) {
    |a| == |b| && forall i | 0 <= i < |a| :: b[i].name == a[i].name && b[i].start == a[i].start + k
  }

  lemma AgreeNext(s: string, i: nat, t: string, j: nat)
    requires Agree(s, i, t, j) && i < |s|
    ensures j < |t| && s[i] == t[j] && Agree(s, i + 1, t, j + 1)
  {
    assert s[i] == t[i - i + j];
  }

  lemma ShiftedCons(c: Command, d: Command, a: seq<Command>, b: seq<Command>, k: int)
    requires Shifted(a, b, k) && d.name == c.name && d.start == c.start + k
    ensures Shifted([c] + a, [d] + b, k)
  {
  }

  lemma {:induction false} SameCommands(s: string, i: nat, t: string, j: nat)
    requires Agree(s, i, t, j)
    ensures Shifted(Commands(s, i), Commands(t, j), j - i)
    decreases |s| - i
  {
    if i < |s| {
      AgreeNext(s, i, t, j);
      SameName(s, i + 1, t, j + 1);
      SameCommands(s, i + 1, t, j + 1);
      if s[i] == '\\' && Name(s, i + 1) != [] {
        ShiftedCons(Command(i, Name(s, i + 1)), Command(j, Name(t, j + 1)), Commands(s, i + 1), Commands(t, j + 1), j - i);
      }
    }
  }

  lemma {:induction false} ShiftedStrong(m: Markup, a: seq<Command>, b: seq<Command>, k: int)
    requires Shifted(a, b, k)
    ensures Shifted(Strong(m, a), Strong(m, b), k)
  {
    if a != [] {
      ShiftedStrong(m, a[1..], b[1..], k);
    }
  }

  // The first strong command, seen from either text.
  lemma SameStart(m: Markup, s: string, i: nat, t: string, j: nat)
    requires Agree(s, i, t, j)
    ensures Strong(m, Commands(s, i)) == [] <==> Strong(m, Commands(t, j)) == []
    ensures Strong(m, Commands(s, i)) != [] ==> Strong(m, Commands(t, j))[0].start == Strong(m, Commands(s, i))[0].start + (j - i)
  {
    SameCommands(s, i, t, j);
    ShiftedStrong(m, Commands(s, i), Commands(t, j), j - i);
  }

  // Behind a dollar everything stands one character later.
  lemma DollarBefore(m: Markup, s: string, t: string)
    requires t == "$" + s
    ensures CommandStart(m, t) == if CommandStart(m, s).Some? then Some(CommandStart(m, s).value + 1) else None
  {
    assert t[0] == '$' && Commands(t, 0) == Commands(t, 1);
    SameStart(m, s, 0, t, 1);
  }

  lemma {:induction false} NameAppend(s: string, t: string, i: nat)
    requires i <= |s| && t == s + "$"
    ensures Name(t, i) == Name(s, i)
    decreases |s| - i
  {
    if i < |s| {
      NameAppend(s, t, i + 1);
    }
  }

  // A dollar at the end is no part of a command.
  lemma {:induction false} CommandsAppend(s: string, t: string, i: nat)
    requires i <= |s| && t == s + "$"
    ensures Commands(t, i) == Commands(s, i)
    decreases |s| - i
  {
    if i < |s| {
      NameAppend(s, t, i + 1);
      CommandsAppend(s, t, i + 1);
    } else {
      assert Commands(t, i + 1) == [];
    }
  }

  // Up to `k` both texts are the same.
  ghost predicate SameUpTo(s: string, t: string, k: nat) {
    k < |s| && k < |t| && forall x | 0 <= x < k :: s[x] == t[x]
  }

  lemma {:induction false} NameBefore(s: string, t: string, i: nat, k: nat)
    requires SameUpTo(s, t, k) && i <= k && !Letter(s[k]) && !Letter(t[k])
    ensures Name(s, i) == Name(t, i)
    decreases k - i
  {
    if i < k {
      NameBefore(s, t, i + 1, k);
    }
  }

  lemma StrongCons(m: Markup, c: Command, rest: seq<Command>)
    ensures Strong(m, [c] + rest) == if c.name in m.strong then [c] + Strong(m, rest) else Strong(m, rest)
  {
    assert ([c] + rest)[1..] == rest;
  }

  lemma MovedHere(m: Markup, s: string, t: string, start: nat)
    requires start < |s| && start < |t| && t[start] == '$' && Agree(s, start, t, start + 1)
    requires Strong(m, Commands(s, start)) != [] && Strong(m, Commands(s, start))[0].start == start
    ensures Strong(m, Commands(t, start)) != [] && Strong(m, Commands(t, start))[0].start == start + 1
  {
    DollarSkipped(t, start);
    SameStart(m, s, start, t, start + 1);
  }

  lemma DollarSkipped(t: string, i: nat)
    requires i < |t| && t[i] == '$'
    ensures Commands(t, i) == Commands(t, i + 1)
  {
  }

  // A dollar put before the first strong command only moves it.
  lemma {:induction false} StrongMoves(m: Markup, s: string, t: string, start: nat, i: nat)
    requires SameUpTo(s, t, start) && i <= start && s[start] == '\\' && t[start] == '$' && Agree(s, start, t, start + 1)
    requires Strong(m, Commands(s, i)) != [] && Strong(m, Commands(s, i))[0].start == start
    ensures Strong(m, Commands(t, i)) != [] && Strong(m, Commands(t, i))[0].start == start + 1
    decreases start - i
  {
    if i == start {
      MovedHere(m, s, t, start);
    } else {
      NameBefore(s, t, i + 1, start);
      StrongNext(m, s, i);
      StrongNext(m, t, i);
      StrongMoves(m, s, t, start, i + 1);
    }
  }

  lemma StrongNext(m: Markup, s: string, i: nat)
    requires i < |s|
    ensures Strong(m, Commands(s, i)) ==
      (if s[i] == '\\' && Name(s, i + 1) != [] && Name(s, i + 1) in m.strong then [Command(i, Name(s, i + 1))] else [])
      + Strong(m, Commands(s, i + 1))
  {
    if s[i] == '\\' && Name(s, i + 1) != [] {
      StrongCons(m, Command(i, Name(s, i + 1)), Commands(s, i + 1));
    }
  }

  lemma {:induction false} NotBlank(m: Markup, s: string, i: nat)
    requires i < |s| && !m.space(s[i])
    ensures LeadingSpace(m, s) < |s|
  {
    if m.space(s[0]) {
      NotBlank(m, s[1..], i - 1);
    }
  }

  lemma EquationStarts(m: Markup, s: string, start: nat)
    requires start <= |s| && Equation(m, s, start)
    ensures !m.space('\\')
  {
    var tail := s[start..][LeadingSpace(m, s[start..])..];
    assert tail != [] && Strip(m, s[start..])[0] == tail[0];
  }

  // An equation that ends in a backslash stays one when a dollar follows.
  lemma EquationAppend(m: Markup, s: string, start: nat)
    requires start < |s| && s[start] == '\\' && s[|s| - 1] == '\\' && Equation(m, s, start)
    ensures Equation(m, s + "$", start)
  {
    var x := s[start..];
    EquationStarts(m, s, start);
    assert (s + "$")[start..] == x + "$";
    StripsNothing(m, x);
    StripsDollar(m, x);
    CommandsAppend(x, x + "$", 0);
    StructuredAppend(x);
    assert (x + "$")[0] == x[0];
  }

  lemma StructuredAppend(x: string)
    ensures Structured(x + "$") <==> Structured(x)
  {
    assert forall c :: c in x + "$" <==> c in x || c == '$';
  }

  lemma StripsNothing(m: Markup, x: string)
    requires x != [] && !m.space(x[0]) && !m.space(x[|x| - 1])
    ensures Strip(m, x) == x
  {
    assert LeadingSpace(m, x) == 0 && x[0..] == x;
    assert TrailingSpace(m, x) == 0 && x[..|x|] == x;
  }

  lemma StripsDollar(m: Markup, x: string)
    requires x != [] && !m.space(x[0]) && !m.space(x[|x| - 1])
    ensures Strip(m, x + "$") == if m.space('$') then x else x + "$"
  {
    var y := x + "$";
    assert y[0] == x[0] && y[0..] == y && LeadingSpace(m, y) == 0;
    if m.space('$') {
      assert y[..|y| - 1] == x && TrailingSpace(m, x) == 0;
    } else {
      assert TrailingSpace(m, y) == 0 && y[..|y|] == y;
    }
  }

  lemma RepairedCount(m: Markup, body: string)
    requires Escaped(m, body)
    ensures Dollars(' ', RepairBody(m, body)) == 1
  {
    var gap := Gap(m, body, Missing(m, body).value);
    var one := body[..gap] + "$" + body[gap..];
    CountOne(body, gap, one);
    CountPrepended(one);
    RepairedParts(m, body, body[..gap], body[gap..]);
  }

  // Where the first strong command of an escaped repair stands, and that it still begins an equation.
  lemma EscapedAppend(m: Markup, body: string)
    requires Escaped(m, body) && Dollars(' ', body) == 1 && FirstDollar(' ', body) <= Missing(m, body).value
    ensures Missing(m, RepairBody(m, body)).Some?
  {
    var start := Missing(m, body).value;
    var after := body + "$";
    RepairedParts(m, body, body, []);
    assert body[..|body|] == body && body[|body|..] == [] && body + "$" + [] == after;
    CommandsAppend(body, body + "$", 0);
    EquationStarts(m, body, start);
    EquationAppend(m, body, start);
    RepairedCount(m, body);
    NotBlank(m, after, start);
  }

  lemma EscapedInsert(m: Markup, body: string)
    requires Escaped(m, body) && Dollars(' ', body) == 1 && FirstDollar(' ', body) > Missing(m, body).value
    ensures Missing(m, RepairBody(m, body)).Some?
  {
    var start := Missing(m, body).value;
    var after := body[..start] + "$" + body[start..];
    RepairedParts(m, body, body[..start], body[start..]);
    InsertMoves(m, body, after, start);
    EquationStarts(m, body, start);
    RepairedCount(m, body);
    NotBlank(m, after, start + 1);
  }

  lemma InsertMoves(m: Markup, body: string, after: string, start: nat)
    requires start < |body| && body[start] == '\\' && after == body[..start] + "$" + body[start..]
    requires CommandStart(m, body) == Some(start)
    ensures CommandStart(m, after) == Some(start + 1) && after[start + 1..] == body[start..]
  {
    assert SameUpTo(body, after, start) && Agree(body, start, after, start + 1);
    StrongMoves(m, body, after, start, 0);
  }

  lemma EscapedWrap(m: Markup, body: string)
    requires Escaped(m, body) && Dollars(' ', body) == 0
    ensures Missing(m, RepairBody(m, body)).Some?
  {
    var ended := body + "$";
    var after := "$" + ended;
    RepairedParts(m, body, body, []);
    assert body[..|body|] == body && body[|body|..] == [] && body + "$" + [] == ended;
    WrapMoves(m, body, ended, after);
    EquationStarts(m, body, 0);
    EquationAppend(m, body, 0);
    assert ended[0..] == ended == after[1..];
    RepairedCount(m, body);
    NotBlank(m, after, 1);
  }

  lemma WrapMoves(m: Markup, body: string, ended: string, after: string)
    requires ended == body + "$" && after == "$" + ended && CommandStart(m, body) == Some(0)
    ensures CommandStart(m, after) == Some(1)
  {
    CommandsAppend(body, body + "$", 0);
    DollarBefore(m, ended, after);
  }

  /**
   Repairing a repaired body changes nothing if and only if its inserted
   delimiters count; otherwise the second repair inserts one more.
   */
  lemma RepairSettles(m: Markup, body: string)
    ensures RepairBody(m, RepairBody(m, body)) == RepairBody(m, body) <==> !Escaped(m, body)
    ensures Escaped(m, body) ==> |RepairBody(m, RepairBody(m, body))| == |RepairBody(m, body)| + 1
  {
    if Escaped(m, body) {
      if Dollars(' ', body) == 0 {
        EscapedWrap(m, body);
      } else if FirstDollar(' ', body) <= Missing(m, body).value {
        EscapedAppend(m, body);
      } else {
        EscapedInsert(m, body);
      }
      RepairedCount(m, body);
      OneMore(m, RepairBody(m, body));
    } else if Missing(m, body).Some? {
      RepairBalances(m, body);
    }
  }

  lemma OneMore(m: Markup, body: string)
    requires Missing(m, body).Some? && Dollars(' ', body) == 1
    ensures |RepairBody(m, body)| == |body| + 1
  {
    var gap := Gap(m, body, Missing(m, body).value);
    RepairedParts(m, body, body[..gap], body[gap..]);
  }

  const FORMULA: string := "\\frac{a}{b}\\"

  const UNFINISHED: string := "$" + FORMULA

  lemma NoCommands(s: string, i: nat)
    requires i <= |s| && forall k | i <= k < |s| - 1 :: s[k] != '\\'
    ensures Commands(s, i) == []
    decreases |s| - i
  {
    if i < |s| {
      NoCommands(s, i + 1);
    }
  }

  lemma FormulaCommands()
    ensures Commands(FORMULA, 0) == [Command(0, "frac")]
  {
    var s := FORMULA;
    assert Name(s, 5) == [] && Name(s, 4) == "c" && Name(s, 3) == "ac" && Name(s, 2) == "rac" && Name(s, 1) == "frac";
    NoCommands(s, 1);
    assert Commands(s, 0) == [Command(0, "frac")] + [];
  }

  lemma FormulaIsEquation(m: Markup)
    requires "frac" in m.strong && !m.space('\\')
    ensures Equation(m, FORMULA, 0) && CommandStart(m, FORMULA) == Some(0)
  {
    var s := FORMULA;
    FormulaCommands();
    StripsNothing(m, s);
    assert s[0..] == s;
    StrongCons(m, Command(0, "frac"), []);
    assert [Command(0, "frac")] + [] == [Command(0, "frac")];
    assert s[5] == '{' && s[5] in s;
  }

  // An opening dollar before an equation that ends in a backslash.
  lemma OpenedIsEscaped(m: Markup, s: string, t: string)
    requires t == "$" + s && s != [] && s[0] == '\\' && s[|s| - 1] == '\\' && '$' !in s && !m.space('$')
    requires Equation(m, s, 0) && CommandStart(m, s) == Some(0)
    ensures Escaped(m, t)
  {
    DollarBefore(m, s, t);
    assert t[1..] == s[0..];
    NotBlank(m, t, 0);
    OneDollar(s, t);
  }

  lemma OneDollar(s: string, t: string)
    requires t == "$" + s && '$' !in s
    ensures Dollars(' ', t) == 1 && FirstDollar(' ', t) == 0
  {
    CountPrepended(s);
    NoDollars(' ', s);
    assert t[0] == '$';
  }

  /** A body that opens with a dollar and ends in a backslash is repaired in vain: its closing dollar is escaped. */
  lemma UnfinishedStaysUnbalanced(m: Markup)
    requires "frac" in m.strong && !m.space('\\') && !m.space('$')
    ensures Escaped(m, UNFINISHED) && Dollars(' ', RepairBody(m, UNFINISHED)) == 1
  {
    FormulaIsEquation(m);
    OpenedIsEscaped(m, FORMULA, UNFINISHED);
    RepairedCount(m, UNFINISHED);
  }

  lemma {:induction false} NoDollars(before: char, s: string)
    requires '$' !in s
    ensures Dollars(before, s) == 0
    decreases |s|
  {
    if s != [] {
      NoDollars(s[0], s[1..]);
    }
  }

  // ---- A fragment beside inline math ----

  predicate ClosingMark(c: char) {
    c in {'.', ',', ';', ':'}
  }

  function Wrap(m: Markup, s: string): string {
    var i, k := LeadingSpace(m, s), |s| - TrailingSpace(m, s);
    if i >= k then s
    else
      var j := if ClosingMark(s[k - 1]) then k - 1 else k;
      if i == j then s else s[..i] + ("$" + s[i..j] + "$") + s[j..]
  }

  lemma InsertsPairAt(s: string, i: nat, j: nat)
    requires i <= j <= |s|
    ensures Inserts(s, s[..i] + ("$" + s[i..j] + "$") + s[j..])
  {
    InsertsPair(s[..i], s[i..j], s[j..]);
    Parts(s, i, j);
  }

  lemma Parts(s: string, i: nat, j: nat)
    requires i <= j <= |s|
    ensures s[..i] + s[i..j] + s[j..] == s
  {
  }

  lemma WrapInserts(m: Markup, s: string)
    ensures Inserts(s, Wrap(m, s))
  {
    InsertsNothing(s);
    var i, k := LeadingSpace(m, s), |s| - TrailingSpace(m, s);
    if i < k {
      InsertsPairAt(s, i, if ClosingMark(s[k - 1]) then k - 1 else k);
    }
  }

  /**
   A fragment with content gets exactly one pair of delimiters, inside its outer
   blanks and before one closing punctuation mark.
   */
  lemma WrapShape(m: Markup, s: string, i: nat, j: nat, k: nat)
    requires i < j <= k <= |s| && (forall x | 0 <= x < i || k <= x < |s| :: m.space(s[x]))
    requires !m.space(s[i]) && !m.space(s[k - 1])
    requires if ClosingMark(s[k - 1]) then j == k - 1 else j == k
    ensures Wrap(m, s) == s[..i] + ("$" + s[i..j] + "$") + s[j..]
  {
    Leading(m, s, i);
    Trailing(m, s, |s| - k);
  }

  lemma {:induction false} Leading(m: Markup, s: string, n: nat)
    requires n < |s| && (forall x | 0 <= x < n :: m.space(s[x])) && !m.space(s[n])
    ensures LeadingSpace(m, s) == n
  {
    if n > 0 {
      Leading(m, s[1..], n - 1);
    }
  }

  lemma {:induction false} Trailing(m: Markup, s: string, n: nat)
    requires n < |s| && (forall x | |s| - n <= x < |s| :: m.space(s[x])) && !m.space(s[|s| - n - 1])
    ensures TrailingSpace(m, s) == n
  {
    if n > 0 {
      Trailing(m, s[..|s| - 1], n - 1);
    }
  }

  function RepairFragment(m: Markup, fragment: string): string {
    if Adjacent(m, fragment) then Wrap(m, fragment) else fragment
  }

  // ---- Text around delimited math ----

  datatype Span = Span(start: nat, end: nat)

  ghost predicate Ordered(spans: seq<Span>, from: nat, n: nat) {
    if spans == [] then from <= n
    else from <= spans[0].start < spans[0].end <= n && Ordered(spans[1..], spans[0].end, n)
  }

  // An unescaped run of `width` dollars at `i`.
  predicate DollarsAt(s: string, i: nat, width: nat) {
    i + width <= |s| && (i == 0 || s[i - 1] != '\\') && forall k | i <= k < i + width :: s[k] == '$'
  }

  function Closing(s: string, from: nat, width: nat): (end: Option<nat>)
    ensures end.Some? ==> from + width <= end.value <= |s|
    decreases |s| - from
  {
    if from >= |s| then None
    else if DollarsAt(s, from, width) then Some(from + width)
    else Closing(s, from + 1, width)
  }

  // The formulas of `s` from `from` on: between single dollars that no other
  // dollar follows (`width` 1), or between double dollars (`width` 2).
  function Formulas(s: string, from: nat, width: nat): (spans: seq<Span>)
    requires 1 <= width && from <= |s|
    ensures Ordered(spans, from, |s|)
    decreases |s| - from
  {
    if from == |s| then []
    else
      var opens := DollarsAt(s, from, width) && (width == 1 ==> from + 1 == |s| || s[from + 1] != '$');
      var end := if opens then Closing(s, from + width + 1, width) else None;
      if end.Some? then [Span(from, end.value)] + Formulas(s, end.value, width)
      else OrderedEarlier(Formulas(s, from + 1, width), from + 1, from, |s|); Formulas(s, from + 1, width)
  }

  lemma OrderedEarlier(spans: seq<Span>, from: nat, earlier: nat, n: nat)
    requires Ordered(spans, from, n) && earlier <= from
    ensures Ordered(spans, earlier, n)
  {
  }

  // `text` from `cursor` on with its formulas kept and the rest given to `repair`.
  function Around(repair: string -> string, text: string, spans: seq<Span>, cursor: nat): string
    requires Ordered(spans, cursor, |text|)
  {
    if spans == [] then repair(text[cursor..])
    else repair(text[cursor..spans[0].start]) + text[spans[0].start..spans[0].end] + Around(repair, text, spans[1..], spans[0].end)
  }

  // In `out` every formula of `text` reappears unchanged, in order, and only
  // dollars were inserted between them.
  ghost predicate KeepsFormulas(text: string, spans: seq<Span>, cursor: nat, out: string)
    requires Ordered(spans, cursor, |text|)
    decreases |spans|, 1
  {
    if spans == [] then Inserts(text[cursor..], out)
    else
      exists cut: nat | cut + (spans[0].end - spans[0].start) <= |out| :: CutAt(text, spans, cursor, out, cut)
  }

  // `out` has the first formula at `cut`.
  ghost predicate CutAt(text: string, spans: seq<Span>, cursor: nat, out: string, cut: nat)
    requires Ordered(spans, cursor, |text|) && spans != [] && cut + (spans[0].end - spans[0].start) <= |out|
    decreases |spans|, 0
  {
    var start, end := spans[0].start, spans[0].end;
    var next := cut + (end - start);
    && Inserts(text[cursor..start], out[..cut])
    && out[cut..next] == text[start..end]
    && KeepsFormulas(text, spans[1..], end, out[next..])
  }

  lemma {:induction false} AroundKeeps(repair: string -> string, text: string, spans: seq<Span>, cursor: nat)
    requires Ordered(spans, cursor, |text|) && forall s :: Inserts(s, repair(s))
    ensures KeepsFormulas(text, spans, cursor, Around(repair, text, spans, cursor))
    decreases |spans|
  {
    if spans != [] {
      AroundKeeps(repair, text, spans[1..], spans[0].end);
      var gap, formula := repair(text[cursor..spans[0].start]), text[spans[0].start..spans[0].end];
      var out := Around(repair, text, spans, cursor);
      assert out[..|gap|] == gap && out[|gap|..|gap| + |formula|] == formula;
      assert out[|gap| + |formula|..] == Around(repair, text, spans[1..], spans[0].end);
      assert CutAt(text, spans, cursor, out, |gap|);
    }
  }

  lemma InsertsSplit(s: string, i: nat, t: string, j: nat)
    requires i <= |s| && j <= |t| && Inserts(s[..i], t[..j]) && Inserts(s[i..], t[j..])
    ensures Inserts(s, t)
  {
    InsertsConcat(s[..i], t[..j], s[i..], t[j..]);
    assert s[..i] + s[i..] == s && t[..j] + t[j..] == t;
  }

  lemma InsertsThenSame(s: string, i: nat, t: string, j: nat)
    requires i <= |s| && j <= |t| && Inserts(s[..i], t[..j]) && s[i..] == t[j..]
    ensures Inserts(s, t)
  {
    InsertsNothing(s[i..]);
    InsertsSplit(s, i, t, j);
  }

  lemma Slices(s: string, a: nat, b: nat, c: nat)
    requires a <= b <= c <= |s|
    ensures s[a..c][..b - a] == s[a..b] && s[a..c][b - a..] == s[b..c]
  {
  }

  lemma InsertsUpTo(text: string, cursor: nat, start: nat, end: nat, out: string, cut: nat, next: nat)
    requires cursor <= start <= end <= |text| && cut <= next <= |out|
    requires Inserts(text[cursor..start], out[..cut]) && out[cut..next] == text[start..end]
    ensures Inserts(text[cursor..end], out[..next])
  {
    Slices(text, cursor, start, end);
    Slices(out, 0, cut, next);
    assert out[0..next] == out[..next] && out[0..cut] == out[..cut];
    InsertsThenSame(text[cursor..end], start - cursor, out[..next], cut);
  }

  lemma InsertsAround(text: string, cursor: nat, start: nat, end: nat, out: string, cut: nat)
    requires cursor <= start <= end <= |text| && cut + (end - start) <= |out|
    requires Inserts(text[cursor..start], out[..cut]) && out[cut..cut + (end - start)] == text[start..end]
    requires Inserts(text[end..], out[cut + (end - start)..])
    ensures Inserts(text[cursor..], out)
  {
    var next := cut + (end - start);
    InsertsUpTo(text, cursor, start, end, out, cut, next);
    Slices(text, cursor, end, |text|);
    assert text[cursor..|text|] == text[cursor..] && text[end..|text|] == text[end..];
    InsertsSplit(text[cursor..], end - cursor, out, next);
  }

  lemma {:induction false} KeepingInserts(text: string, spans: seq<Span>, cursor: nat, out: string)
    requires Ordered(spans, cursor, |text|) && KeepsFormulas(text, spans, cursor, out)
    ensures Inserts(text[cursor..], out)
    decreases |spans|
  {
    if spans != [] {
      var start, end := spans[0].start, spans[0].end;
      var cut: nat :| cut + (end - start) <= |out| && CutAt(text, spans, cursor, out, cut);
      KeepingInserts(text, spans[1..], end, out[cut + (end - start)..]);
      InsertsAround(text, cursor, start, end, out, cut);
    }
  }
}
