/**
 The three advisory file locks of one workspace: `operation`, `execution` and
 `files`. A guard takes one or two of them in order, each attempt being one
 non-blocking step that is retried or given up; a failed guard unwinds.
 */
module FileLocks {
  datatype LockName = Operation | Execution | Files

  datatype Request = Request(name: LockName, shared: bool, blocking: bool)

  // The arguments of `guard`. A blocking request is retried for ever, any other
  // is given up at some refusal: the first one, or one past its timeout.
  datatype GuardCall = GuardCall(operation: bool, shared: bool, blocking: bool, execution: bool)

  // One caller: the locks of the guards it is inside of, those of the guard it
  // is entering, and what that guard still has to take.
  datatype Actor = Actor(frames: seq<seq<Request>>, taken: seq<Request>, goal: seq<Request>)

  type State = map<nat, Actor>

  datatype Step =
    | Call(a: nat, call: GuardCall)
    | Take(a: nat)
    | GiveUp(a: nat)
    | Exit(a: nat)

  function Rank(name: LockName): nat {
    match name
    case Operation => 0
    case Execution => 1
    case Files => 2
  }

  function Plan(call: GuardCall): seq<Request> {
    if call.operation then
      [Request(Operation, call.shared, call.blocking)]
    else
      [Request(Execution, !call.execution, call.blocking),
       Request(Files, call.shared, call.blocking)]
  }

  function Flatten(frames: seq<seq<Request>>): seq<Request> {
    if frames == [] then [] else frames[0] + Flatten(frames[1..])
  }

  function Held(actor: Actor): seq<Request> {
    Flatten(actor.frames) + actor.taken
  }

  // `flock` on separate descriptors: shared locks coexist, anything else does not.
  predicate Clash(p: Request, q: Request) {
    p.name == q.name && !(p.shared && q.shared)
  }

  predicate Grantable(s: State, r: Request) {
    forall b | b in s :: forall q | q in Held(s[b]) :: !Clash(r, q)
  }

  // Callers nest guards only in the order operation, execution, files.
  predicate InOrder(actor: Actor, plan: seq<Request>) {
    forall q, r | q in Held(actor) && r in plan :: Rank(q.name) < Rank(r.name)
  }

  const IDLE: Actor := Actor([], [], [])

  function ActorOf(s: State, a: nat): Actor {
    if a in s then s[a] else IDLE
  }

  predicate Enabled(s: State, step: Step) {
    var actor := ActorOf(s, step.a);
    match step
    case Call(_, call) => actor.goal == [] && InOrder(actor, Plan(call))
    case Take(_) => actor.goal != [] && Grantable(s, actor.goal[0])
    case GiveUp(_) => actor.goal != [] && !actor.goal[0].blocking && !Grantable(s, actor.goal[0])
    case Exit(_) => actor.goal == [] && actor.frames != []
  }

  function Moved(actor: Actor, step: Step): Actor {
    match step
    case Call(_, call) => actor.(goal := Plan(call))
    case Take(_) =>
      if |actor.goal| == 0 then actor
      else if |actor.goal| == 1 then Actor(actor.frames + [actor.taken + actor.goal], [], [])
      else Actor(actor.frames, actor.taken + [actor.goal[0]], actor.goal[1..])
    case GiveUp(_) => Actor(actor.frames, [], [])
    case Exit(_) =>
      if actor.frames == [] then actor else actor.(frames := actor.frames[..|actor.frames| - 1])
  }

  function Next(s: State, step: Step): State {
    if Enabled(s, step) then s[step.a := Moved(ActorOf(s, step.a), step)] else s
  }

  function After(s: State, steps: seq<Step>): State
    decreases |steps|
  {
    if steps == [] then s else After(Next(s, steps[0]), steps[1..])
  }

  // ---- Invariant ----

  ghost predicate Frame(f: seq<Request>) {
    exists call :: f == Plan(call)
  }

  ghost predicate Ascending(held: seq<Request>) {
    forall i, j | 0 <= i < j < |held| :: Rank(held[i].name) < Rank(held[j].name)
  }

  ghost predicate Above(goal: seq<Request>, held: seq<Request>) {
    forall q, r | q in held && r in goal :: Rank(q.name) < Rank(r.name)
  }

  ghost predicate ActorInv(actor: Actor) {
    && (forall f | f in actor.frames :: Frame(f))
    && (if actor.goal == [] then actor.taken == [] else Frame(actor.taken + actor.goal))
    && Above(actor.goal, Held(actor))
    && Ascending(Held(actor))
  }

  ghost predicate Exclusive(s: State) {
    forall a, b, q, r | a in s && b in s && a != b && q in Held(s[a]) && r in Held(s[b]) :: !Clash(q, r)
  }

  ghost predicate Inv(s: State) {
    (forall a | a in s :: ActorInv(s[a])) && Exclusive(s)
  }

  lemma {:induction false} FlattenAppend(frames: seq<seq<Request>>, last: seq<Request>)
    ensures Flatten(frames + [last]) == Flatten(frames) + last
  {
    if frames == [] {
      assert Flatten([last]) == last + Flatten([last][1..]);
    } else {
      assert (frames + [last])[1..] == frames[1..] + [last];
      FlattenAppend(frames[1..], last);
    }
  }

  lemma {:induction false} PlanShape(call: GuardCall)
    ensures 1 <= |Plan(call)| <= 2
    ensures forall i, j | 0 <= i < j < |Plan(call)| :: Rank(Plan(call)[i].name) < Rank(Plan(call)[j].name)
  {
  }

  lemma TakeHeld(actor: Actor, a: nat)
    requires actor.goal != []
    ensures Held(Moved(actor, Take(a))) == Held(actor) + [actor.goal[0]]
  {
    if |actor.goal| == 1 {
      FlattenAppend(actor.frames, actor.taken + actor.goal);
      assert actor.goal == [actor.goal[0]];
    }
  }

  lemma ExitHeld(actor: Actor, a: nat)
    requires actor.frames != [] && actor.taken == []
    ensures Held(Moved(actor, Exit(a))) <= Held(actor)
  {
    var n := |actor.frames| - 1;
    FlattenAppend(actor.frames[..n], actor.frames[n]);
    assert actor.frames == actor.frames[..n] + [actor.frames[n]];
  }

  lemma GiveUpHeld(actor: Actor, a: nat)
    ensures Held(Moved(actor, GiveUp(a))) <= Held(actor)
  {
  }

  // A step changes what its actor holds by at most the one lock it was granted.
  lemma HeldAfter(s: State, step: Step)
    requires Inv(s) && Enabled(s, step)
    ensures var before := ActorOf(s, step.a); var held := Held(Moved(before, step));
      if step.Take? then held == Held(before) + [before.goal[0]] else held <= Held(before)
  {
    var before := ActorOf(s, step.a);
    assert ActorInv(before);
    match step
    case Call(_, _) =>
    case Take(a) => TakeHeld(before, a);
    case GiveUp(a) => GiveUpHeld(before, a);
    case Exit(a) => ExitHeld(before, a);
  }

  lemma TakeKeeps(actor: Actor, a: nat)
    requires ActorInv(actor) && actor.goal != []
    ensures ActorInv(Moved(actor, Take(a)))
  {
    var after := Moved(actor, Take(a));
    TakeHeld(actor, a);
    if |actor.goal| == 1 {
      assert actor.taken + actor.goal in after.frames;
    } else {
      assert after.taken + after.goal == actor.taken + actor.goal;
      LaterRanks(actor);
    }
  }

  lemma OtherKeeps(actor: Actor, step: Step)
    requires ActorInv(actor) && !step.Take?
    requires step.Call? ==> actor.goal == [] && InOrder(actor, Plan(step.call))
    requires step.GiveUp? ==> actor.goal != []
    requires step.Exit? ==> actor.goal == [] && actor.frames != []
    ensures ActorInv(Moved(actor, step))
  {
    var after := Moved(actor, step);
    match step
    case Call(_, call) =>
      PlanShape(call);
      assert after.taken + after.goal == Plan(call);
    case GiveUp(a) => GiveUpHeld(actor, a);
    case Exit(a) => ExitHeld(actor, a);
  }

  lemma ActorKeeps(s: State, step: Step)
    requires Inv(s) && Enabled(s, step)
    ensures ActorInv(Moved(ActorOf(s, step.a), step))
  {
    assert ActorInv(ActorOf(s, step.a));
    if step.Take? {
      TakeKeeps(ActorOf(s, step.a), step.a);
    } else {
      OtherKeeps(ActorOf(s, step.a), step);
    }
  }

  lemma LaterRanks(actor: Actor)
    requires ActorInv(actor) && |actor.goal| > 1
    ensures forall r | r in actor.goal[1..] :: Rank(actor.goal[0].name) < Rank(r.name)
  {
    var plan := actor.taken + actor.goal;
    var call :| plan == Plan(call);
    PlanShape(call);
    var n := |actor.taken|;
    forall i | 0 < i < |actor.goal|
      ensures Rank(actor.goal[0].name) < Rank(actor.goal[i].name)
    {
      assert plan[n] == actor.goal[0] && plan[n + i] == actor.goal[i];
    }
  }

  lemma StepKeeps(s: State, step: Step)
    requires Inv(s)
    ensures Inv(Next(s, step))
  {
    if Enabled(s, step) {
      var s' := Next(s, step);
      HeldAfter(s, step);
      ActorKeeps(s, step);
      forall a, b, q, r | a in s' && b in s' && a != b && q in Held(s'[a]) && r in Held(s'[b])
        ensures !Clash(q, r)
      {
        var before := ActorOf(s, step.a);
        if a == step.a && q !in Held(before) {
          assert step.Take? && q == before.goal[0] && b in s;
        } else if b == step.a && r !in Held(before) {
          assert step.Take? && r == before.goal[0] && a in s;
        }
      }
    }
  }

  lemma {:induction false} RunsKeep(s: State, steps: seq<Step>)
    requires Inv(s)
    ensures Inv(After(s, steps))
    decreases |steps|
  {
    if steps != [] {
      StepKeeps(s, steps[0]);
      RunsKeep(Next(s, steps[0]), steps[1..]);
    }
  }

  /** An execution guard excludes every reader and writer, an exclusive files guard every other files holder, an exclusive operation every shared one. */
  lemma MutualExclusion(steps: seq<Step>, a: nat, b: nat, q: Request, r: Request)
    requires var s := After(map[], steps); a in s && b in s && a != b && q in Held(s[a]) && r in Held(s[b])
    ensures q.name == r.name ==> q.shared && r.shared
  {
    RunsKeep(map[], steps);
    assert !Clash(q, r);
  }

  // A caller inside a guard that is not an operation guard: a reader or a writer.
  ghost predicate UsesFiles(actor: Actor) {
    exists f | f in actor.frames :: exists r | r in f :: r.name == Files
  }

  ghost predicate Executes(actor: Actor) {
    exists r | r in Held(actor) :: r.name == Execution && !r.shared
  }

  lemma {:induction false} InFlatten(frames: seq<seq<Request>>, f: seq<Request>, r: Request)
    requires f in frames && r in f
    ensures r in Flatten(frames)
  {
    if frames[0] != f {
      InFlatten(frames[1..], f, r);
    }
  }

  // Whoever uses the files holds the execution lock too.
  lemma FileUserReadsExecution(actor: Actor) returns (r: Request)
    requires ActorInv(actor) && UsesFiles(actor)
    ensures r in Held(actor) && r.name == Execution
  {
    var f :| f in actor.frames && exists r | r in f :: r.name == Files;
    var call :| f == Plan(call);
    InFlatten(actor.frames, f, f[0]);
    r := f[0];
  }

  /** No reader or writer is inside its guard while a command holds the execution lock. */
  lemma ExecutionExcludesFileAccess(steps: seq<Step>, a: nat, b: nat)
    requires var s := After(map[], steps); a in s && b in s && a != b && Executes(s[a])
    ensures !UsesFiles(After(map[], steps)[b])
  {
    RunsKeep(map[], steps);
    var s := After(map[], steps);
    if UsesFiles(s[b]) {
      var r := FileUserReadsExecution(s[b]);
      var q :| q in Held(s[a]) && q.name == Execution && !q.shared;
      assert Clash(q, r);
    }
  }

  // ---- A failed guard leaves nothing behind ----

  // Steps between the call of a guard by `a` and its failure: `a` only takes locks.
  ghost predicate Entering(a: nat, steps: seq<Step>) {
    forall step | step in steps :: step.a == a ==> step.Take?
  }

  lemma {:induction false} EnteringKeepsFrames(s: State, a: nat, steps: seq<Step>)
    requires Entering(a, steps) && a in s
    ensures a in After(s, steps)
    ensures After(s, steps)[a].goal != [] ==> After(s, steps)[a].frames == s[a].frames
    ensures s[a].goal == [] ==> After(s, steps)[a] == s[a]
    decreases |steps|
  {
    if steps != [] {
      assert steps[0].a == a ==> steps[0].Take?;
      EnteringKeepsFrames(Next(s, steps[0]), a, steps[1..]);
    }
  }

  /** Whatever other callers do meanwhile, a guard that fails leaves its caller with exactly the locks it had before the call. */
  lemma FailedGuardRestores(s: State, a: nat, call: GuardCall, steps: seq<Step>)
    requires Inv(s) && Enabled(s, Call(a, call)) && Entering(a, steps)
    requires Enabled(After(Next(s, Call(a, call)), steps), GiveUp(a))
    ensures Next(After(Next(s, Call(a, call)), steps), GiveUp(a))[a] == ActorOf(s, a)
  {
    assert ActorInv(ActorOf(s, a));
    EnteringKeepsFrames(Next(s, Call(a, call)), a, steps);
  }

  // ---- No deadlock ----

  predicate Blocked(s: State, a: nat) {
    a in s && s[a].goal != [] && !Grantable(s, s[a].goal[0])
  }

  // `a` waits for a lock that `b` holds in a clashing mode.
  ghost predicate WaitsFor(s: State, a: nat, b: nat) {
    && a in s && b in s && s[a].goal != []
    && exists q | q in Held(s[b]) :: Clash(s[a].goal[0], q)
  }

  // Each caller of the chain waits for the next.
  ghost predicate Chain(s: State, chain: seq<nat>) {
    && (forall a | a in chain :: a in s)
    && (forall i | 0 <= i < |chain| - 1 :: WaitsFor(s, chain[i], chain[i + 1]))
  }

  // Whoever holds what `a` waits for is waiting, if at all, for a later lock.
  lemma WaitsForLater(s: State, a: nat, b: nat)
    requires Inv(s) && WaitsFor(s, a, b) && s[b].goal != []
    ensures Rank(s[a].goal[0].name) < Rank(s[b].goal[0].name)
  {
    var q :| q in Held(s[b]) && Clash(s[a].goal[0], q);
    assert Above(s[b].goal, Held(s[b])) && s[b].goal[0] in s[b].goal;
  }

  lemma ChainTail(s: State, chain: seq<nat>)
    requires Chain(s, chain) && |chain| > 1
    ensures Chain(s, chain[1..]) && WaitsFor(s, chain[0], chain[1])
    ensures chain[1..][0] == chain[1] && chain[1..][|chain| - 2] == chain[|chain| - 1]
  {
    forall i | 0 <= i < |chain[1..]| - 1
      ensures WaitsFor(s, chain[1..][i], chain[1..][i + 1])
    {
      assert WaitsFor(s, chain[i + 1], chain[i + 2]);
    }
    assert WaitsFor(s, chain[0], chain[0 + 1]);
  }

  lemma {:induction false} ChainClimbs(s: State, chain: seq<nat>)
    requires Inv(s) && Chain(s, chain) && |chain| > 0 && s[chain[|chain| - 1]].goal != []
    ensures s[chain[0]].goal != []
    ensures Rank(s[chain[0]].goal[0].name) + |chain| - 1 <= Rank(s[chain[|chain| - 1]].goal[0].name)
  {
    if |chain| > 1 {
      ChainTail(s, chain);
      ChainClimbs(s, chain[1..]);
      WaitsForLater(s, chain[0], chain[1]);
    }
  }

  /** Waiting callers never form a cycle; indeed no chain of waiting callers is longer than the three locks. */
  lemma WaitingNeverCycles(steps: seq<Step>, chain: seq<nat>)
    requires var s := After(map[], steps); Chain(s, chain) && |chain| > 0
    ensures var s := After(map[], steps);
      && (s[chain[|chain| - 1]].goal != [] ==> |chain| <= 3)
      && (|chain| > 1 ==> chain[0] != chain[|chain| - 1])
  {
    RunsKeep(map[], steps);
    ChainEnds(After(map[], steps), chain);
  }

  lemma ChainEnds(s: State, chain: seq<nat>)
    requires Inv(s) && Chain(s, chain) && |chain| > 0
    ensures s[chain[|chain| - 1]].goal != [] ==> |chain| <= 3
    ensures |chain| > 1 ==> chain[0] != chain[|chain| - 1]
  {
    if s[chain[|chain| - 1]].goal != [] {
      ChainClimbs(s, chain);
    } else if |chain| > 1 {
      assert WaitsFor(s, chain[0], chain[0 + 1]);
    }
  }

  lemma BlockedWaits(s: State, a: nat) returns (b: nat)
    requires Inv(s) && Blocked(s, a)
    ensures a != b && WaitsFor(s, a, b)
  {
    b :| b in s && exists q | q in Held(s[b]) :: Clash(s[a].goal[0], q);
    assert Above(s[a].goal, Held(s[a])) && s[a].goal[0] in s[a].goal;
  }

  /** Whenever somebody is blocked, some lock holder it waits for, directly or not, is not blocked and can proceed. */
  lemma {:induction false} SomebodyProceeds(s: State, a: nat) returns (b: nat)
    requires Inv(s) && Blocked(s, a)
    ensures b in s && Held(s[b]) != [] && !Blocked(s, b)
    decreases 2 - Rank(s[a].goal[0].name)
  {
    b := BlockedWaits(s, a);
    if Blocked(s, b) {
      WaitsForLater(s, a, b);
      b := SomebodyProceeds(s, b);
    }
  }

  // ---- What a guard waits for ----

  // A lock that keeps the guard out: the operation lock, unless both share it, or
  // the execution lock, unless neither executes, or the files lock, unless both read.
  predicate KeepsOut(call: GuardCall, q: Request) {
    match q.name
    case Operation => call.operation && !(call.shared && q.shared)
    case Execution => !call.operation && (call.execution || !q.shared)
    case Files => !call.operation && !(call.shared && q.shared)
  }

  // Somebody else holds a lock that keeps the guard out.
  ghost predicate KeptOut(s: State, a: nat, call: GuardCall) {
    exists b | b in s && b != a :: exists q | q in Held(s[b]) :: KeepsOut(call, q)
  }

  // The caller enters the guard without a pause.
  function Straight(a: nat, call: GuardCall): seq<Step> {
    if call.operation then [Call(a, call), Take(a)] else [Call(a, call), Take(a), Take(a)]
  }

  // Nobody else holds the lock in a clashing mode.
  ghost predicate OpenTo(s: State, a: nat, r: Request) {
    forall b | b in s && b != a :: forall q | q in Held(s[b]) :: !Clash(r, q)
  }

  lemma OpenSame(s: State, a: nat, actor: Actor, r: Request)
    ensures OpenTo(s[a := actor], a, r) <==> OpenTo(s, a, r)
  {
    var s' := s[a := actor];
    assert forall b | b != a :: b in s <==> b in s';
    assert forall b | b in s && b != a :: s'[b] == s[b];
  }

  lemma KeptOutIs(s: State, a: nat, call: GuardCall)
    ensures !KeptOut(s, a, call) <==> forall r | r in Plan(call) :: OpenTo(s, a, r)
  {
    assert Plan(call)[0] in Plan(call) && (!call.operation ==> Plan(call)[1] in Plan(call));
    forall q
      ensures KeepsOut(call, q) <==> exists r | r in Plan(call) :: Clash(r, q)
    {
    }
  }

  // One lock is taken if nobody else holds it in a clashing mode.
  lemma TakesOne(s: State, a: nat)
    requires a in s && s[a].goal != [] && forall q | q in Held(s[a]) :: q.name != s[a].goal[0].name
    ensures Next(s, Take(a)) == if OpenTo(s, a, s[a].goal[0]) then s[a := Moved(s[a], Take(a))] else s
  {
    assert Grantable(s, s[a].goal[0]) <==> OpenTo(s, a, s[a].goal[0]);
  }

  lemma AfterTwo(s: State, x: Step, y: Step)
    ensures After(s, [x, y]) == Next(Next(s, x), y)
  {
    assert [x, y][1..] == [y] && After(Next(s, x), [y]) == After(Next(Next(s, x), y), [y][1..]);
  }

  lemma AfterThree(s: State, x: Step, y: Step, z: Step)
    ensures After(s, [x, y, z]) == Next(Next(Next(s, x), y), z)
  {
    assert [x, y, z][1..] == [y, z];
    AfterTwo(Next(s, x), y, z);
  }

  lemma Called(s: State, a: nat, call: GuardCall)
    requires Inv(s) && ActorOf(s, a).goal == [] && InOrder(ActorOf(s, a), Plan(call))
    ensures var s1 := Next(s, Call(a, call));
      && s1 == s[a := ActorOf(s, a).(goal := Plan(call))] && s1[a].taken == [] && Held(s1[a]) == Held(ActorOf(s, a))
      && forall q, r | q in Held(s1[a]) && r in Plan(call) :: q.name != r.name
  {
    assert a !in s ==> Flatten([]) == [];
  }

  // The caller waits for the first lock of the plan.
  ghost predicate Starts(s: State, a: nat, call: GuardCall) {
    && a in s && s[a].goal == Plan(call) && s[a].taken == []
    && forall q, r | q in Held(s[a]) && r in Plan(call) :: q.name != r.name
  }

  lemma TakesAll(s: State, a: nat, call: GuardCall)
    requires Starts(s, a, call) && call.operation
    ensures Next(s, Take(a)) == if OpenTo(s, a, Plan(call)[0]) then s[a := Actor(s[a].frames + [Plan(call)], [], [])] else s
  {
    assert Plan(call)[0] in Plan(call);
    TakesOne(s, a);
    assert [] + Plan(call) == Plan(call);
  }

  lemma TakesFirst(s: State, a: nat, call: GuardCall)
    requires Starts(s, a, call) && !call.operation
    ensures Next(s, Take(a)) == if OpenTo(s, a, Plan(call)[0]) then s[a := Actor(s[a].frames, [Plan(call)[0]], [Plan(call)[1]])] else s
  {
    assert Plan(call)[0] in Plan(call);
    TakesOne(s, a);
    assert [] + [Plan(call)[0]] == [Plan(call)[0]] && Plan(call)[1..] == [Plan(call)[1]];
  }

  lemma TakesSecond(s: State, a: nat, frames: seq<seq<Request>>, call: GuardCall)
    requires !call.operation && a in s && s[a] == Actor(frames, [Plan(call)[0]], [Plan(call)[1]])
    requires forall q | q in Flatten(frames) :: q.name != Plan(call)[1].name
    ensures Next(s, Take(a)) == if OpenTo(s, a, Plan(call)[1]) then s[a := Actor(frames + [Plan(call)], [], [])] else s
  {
    assert Held(s[a]) == Flatten(frames) + [Plan(call)[0]];
    TakesOne(s, a);
    assert [Plan(call)[0]] + [Plan(call)[1]] == Plan(call);
  }

  // What the caller is after its steps.
  ghost predicate Inside(before: Actor, call: GuardCall, now: Actor, entered: bool) {
    if entered then now == Actor(before.frames + [Plan(call)], [], []) else now.frames == before.frames
  }

  lemma Enters(s: State, a: nat, call: GuardCall)
    requires Starts(s, a, call)
    ensures var s' := if call.operation then Next(s, Take(a)) else Next(Next(s, Take(a)), Take(a));
      a in s' && Inside(s[a], call, s'[a], !KeptOut(s, a, call))
  {
    KeptOutIs(s, a, call);
    assert Plan(call)[0] in Plan(call);
    if call.operation {
      TakesAll(s, a, call);
    } else {
      assert Plan(call)[1] in Plan(call) && Held(s[a]) == Flatten(s[a].frames);
      TakesFirst(s, a, call);
      if OpenTo(s, a, Plan(call)[0]) {
        var middle := Actor(s[a].frames, [Plan(call)[0]], [Plan(call)[1]]);
        OpenSame(s, a, middle, Plan(call)[1]);
        TakesSecond(s[a := middle], a, s[a].frames, call);
      }
    }
  }

  lemma KeptOutSame(s: State, a: nat, actor: Actor, call: GuardCall)
    ensures KeptOut(s[a := actor], a, call) <==> KeptOut(s, a, call)
  {
    KeptOutIs(s, a, call);
    KeptOutIs(s[a := actor], a, call);
    forall r
      ensures OpenTo(s[a := actor], a, r) <==> OpenTo(s, a, r)
    {
      OpenSame(s, a, actor, r);
    }
  }

  lemma Entered(s: State, a: nat, call: GuardCall)
    requires Inv(s) && ActorOf(s, a).goal == [] && InOrder(ActorOf(s, a), Plan(call))
    ensures var s' := After(s, Straight(a, call)); a in s' && Inside(ActorOf(s, a), call, s'[a], !KeptOut(s, a, call))
  {
    var s1 := Next(s, Call(a, call));
    Called(s, a, call);
    KeptOutSame(s, a, s1[a], call);
    Enters(s1, a, call);
    if call.operation {
      AfterTwo(s, Call(a, call), Take(a));
    } else {
      AfterThree(s, Call(a, call), Take(a), Take(a));
    }
  }

  lemma HeldInside(before: Actor, call: GuardCall)
    requires before.taken == []
    ensures Held(Actor(before.frames + [Plan(call)], [], [])) == Held(before) + Plan(call)
  {
    FlattenAppend(before.frames, Plan(call));
  }

  /**
   Entering a guard undisturbed succeeds if and only if nobody else holds a lock that
   keeps it out: readers do not keep readers out, and guards of the operation and the
   others never meet. Then the caller holds exactly the locks it had and the guard's.
   */
  lemma EntersExactly(steps: seq<Step>, a: nat, call: GuardCall)
    requires var s := After(map[], steps); ActorOf(s, a).goal == [] && InOrder(ActorOf(s, a), Plan(call))
    ensures var s := After(map[], steps); var s' := After(s, Straight(a, call));
      && a in s' && (s'[a].frames != ActorOf(s, a).frames <==> !KeptOut(s, a, call))
      && (!KeptOut(s, a, call) ==> s'[a].goal == [] && Held(s'[a]) == Held(ActorOf(s, a)) + Plan(call))
  {
    RunsKeep(map[], steps);
    var s := After(map[], steps);
    Entered(s, a, call);
    assert ActorOf(s, a).taken == [];
    HeldInside(ActorOf(s, a), call);
  }

  // ---- The call sites ----

  // The guards one caller nests, outermost first.
  type Site = seq<GuardCall>

  const OPERATION := GuardCall(true, false, false, false)
  const SHARED_OPERATION := GuardCall(true, true, false, false)
  const READER := GuardCall(false, true, false, false)
  const WRITER := GuardCall(false, false, false, false)

  // The worker: sandbox/executor.py:265-269.
  const WORKER: Site := [GuardCall(true, true, true, false), GuardCall(false, false, true, true)]
  // Scratch cleanup: filesystem/storage.py:498. Thread deletion: server/api/endpoints.py:818-841.
  const CLEANUP: Site := [OPERATION, WRITER]
  // A run under its lease, and its file tools: server/api/endpoints.py:338-373, filesystem/backend.py:51-189.
  const RUN_READ: Site := [SHARED_OPERATION, READER]
  const RUN_WRITE: Site := [SHARED_OPERATION, WRITER]
  // Browser requests, which write under the operation lock and read without it: filesystem/api.py:56-79.
  const BROWSER_WRITE: Site := [OPERATION, WRITER]
  const BROWSER_READ: Site := [OPERATION, READER]

  const SITES: set<Site> := {WORKER, CLEANUP, RUN_READ, RUN_WRITE, BROWSER_WRITE, BROWSER_READ, [READER], [WRITER], [OPERATION], [SHARED_OPERATION]}

  ghost predicate Follows(outer: GuardCall, inner: GuardCall) {
    forall q, r | q in Plan(outer) && r in Plan(inner) :: Rank(q.name) < Rank(r.name)
  }

  /** One guard may be nested in another, in lock order, if and only if the outer one is of the operation and the inner one is not. */
  lemma NestsExactly(outer: GuardCall, inner: GuardCall)
    ensures Follows(outer, inner) <==> outer.operation && !inner.operation
  {
    assert Plan(outer)[0] in Plan(outer) && Plan(inner)[0] in Plan(inner);
    assert !inner.operation ==> Plan(inner)[1] in Plan(inner);
    assert !outer.operation ==> Plan(outer)[1] in Plan(outer);
  }

  ghost predicate Nested(site: Site) {
    forall i, j | 0 <= i < j < |site| :: site[i].operation && !site[j].operation
  }

  // The caller is inside the first `k` guards of its site.
  ghost predicate InsideOf(actor: Actor, site: Site, k: nat) {
    && k <= |site| && actor.goal == [] && actor.taken == []
    && |actor.frames| == k && forall i | 0 <= i < k :: actor.frames[i] == Plan(site[i])
  }

  lemma {:induction false} FlattenMembers(frames: seq<seq<Request>>, q: Request)
    requires q in Flatten(frames)
    ensures exists f | f in frames :: q in f
  {
    if q !in frames[0] {
      FlattenMembers(frames[1..], q);
    }
  }

  /** A caller that follows a nested site never asks for a guard out of lock order. */
  lemma SitesStayInOrder(actor: Actor, site: Site, k: nat)
    requires Nested(site) && k < |site| && InsideOf(actor, site, k)
    ensures InOrder(actor, Plan(site[k]))
  {
    forall q, r | q in Held(actor) && r in Plan(site[k])
      ensures Rank(q.name) < Rank(r.name)
    {
      FlattenMembers(actor.frames, q);
      var f :| f in actor.frames && q in f;
      var i :| 0 <= i < k && actor.frames[i] == f;
      NestsExactly(site[i], site[k]);
    }
  }

  // A caller inside the first `k` guards of a site.
  function CallerIn(site: Site, k: nat): Actor
    requires k <= |site|
  {
    Actor(seq(k, i requires 0 <= i < k => Plan(site[i])), [], [])
  }

  /** Callers of a site, listed below or not, stay in lock order at every depth if and only if only operation guards are outside others and none is inside. */
  lemma OrderedExactlyWhenNested(site: Site)
    ensures Nested(site) <==> forall actor: Actor, k: nat | k < |site| && InsideOf(actor, site, k) :: InOrder(actor, Plan(site[k]))
  {
    if Nested(site) {
      forall actor: Actor, k: nat | k < |site| && InsideOf(actor, site, k)
        ensures InOrder(actor, Plan(site[k]))
      {
        SitesStayInOrder(actor, site, k);
      }
    } else {
      var i, j :| 0 <= i < j < |site| && !(site[i].operation && !site[j].operation);
      NestsExactly(site[i], site[j]);
      var actor := CallerIn(site, j);
      var q, r :| q in Plan(site[i]) && r in Plan(site[j]) && !(Rank(q.name) < Rank(r.name));
      assert actor.frames[i] == Plan(site[i]);
      InFlatten(actor.frames, Plan(site[i]), q);
      assert InsideOf(actor, site, j) && !InOrder(actor, Plan(site[j]));
    }
  }

  /** The sites found in the code are nested, so the machine's order condition refuses none of their calls. */
  lemma CallSitesAreOrdered(actor: Actor, site: Site, k: nat)
    requires site in SITES && k < |site| && InsideOf(actor, site, k)
    ensures InOrder(actor, Plan(site[k]))
  {
    SitesStayInOrder(actor, site, k);
  }
}
