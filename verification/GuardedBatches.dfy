/**
 Which calls the guard lets through, as a function of the answered messages, and
 from it exactly when it compares with the call executed last, when a call runs
 twice in a row, and when a refused call was executed at all. A call counts as
 executed when its result entered the history: a cancelled one may have run.
 */
module GuardedBatches {
  import opened Wrappers
  import opened LoopGuard

  // ---- What runs, as a function of the issued calls ----

  // The calls of one message, all answered at once: tested by the guard, or
  // cancelled by reconciliation. `matched` says that the last cancelled call
  // belongs to the latest message with calls.
  datatype Batch = Ran(calls: seq<Call>) | Cancelled(calls: seq<Call>, matched: bool)

  // The guard compares with this one signature.
  predicate Stops(p: Option<Signature>, call: Call) {
    p == Some(call.Key())
  }

  function Passed(p: Option<Signature>, calls: seq<Call>): seq<Call> {
    if calls == [] then []
    else
      var front, last := calls[..|calls| - 1], calls[|calls| - 1];
      if Stops(p, last) then Passed(p, front) else Passed(p, front) + [last]
  }

  // The signature the guard sees after these batches.
  function LastKey(batches: seq<Batch>): Option<Signature> {
    if batches == [] then None
    else
      var last := batches[|batches| - 1];
      if last.calls == [] || (last.Cancelled? && !last.matched) then None else Some(last.calls[|last.calls| - 1].Key())
  }

  function Executions(batches: seq<Batch>): seq<Call> {
    if batches == [] then []
    else
      var front, last := batches[..|batches| - 1], batches[|batches| - 1];
      if last.Cancelled? then Executions(front) else Executions(front) + Passed(LastKey(front), last.calls)
  }

  function LastSignature(executed: seq<Call>): Option<Signature> {
    if executed == [] then None else Some(executed[|executed| - 1].Key())
  }

  ghost predicate NeverTwice(executed: seq<Call>) {
    forall i | 0 <= i < |executed| - 1 :: executed[i].Key() != executed[i + 1].Key()
  }

  // Messages with calls, as the run issues them.
  ghost predicate Nonempty(batches: seq<Batch>) {
    forall b | b in batches :: b.calls != []
  }

  // ---- When the guard compares with the last execution ----

  ghost predicate AllStop(p: Option<Signature>, calls: seq<Call>) {
    forall c | c in calls :: Stops(p, c)
  }

  // After batch `j` only its last call was repeated, and refused.
  ghost predicate OnlyRepeats(batches: seq<Batch>, j: nat)
    requires j < |batches|
  {
    forall i | j < i < |batches| :: batches[i].Ran? && AllStop(LastKey(batches[..j + 1]), batches[i].calls)
  }

  // Batch `j` shows the guard a call that was not executed last: one that was
  // cancelled, or one refused beside a call that was executed.
  ghost predicate Diverts(batches: seq<Batch>, j: nat)
    requires j < |batches|
  {
    if batches[j].Cancelled? then LastKey(batches[..j + 1]) != LastSignature(Executions(batches[..j]))
    else LastKey(batches[..j]) == LastKey(batches[..j + 1]) && !AllStop(LastKey(batches[..j]), batches[j].calls)
  }

  ghost predicate Drifts(batches: seq<Batch>, j: nat) {
    j < |batches| && Diverts(batches, j) && OnlyRepeats(batches, j)
  }

  lemma {:induction false} PassedMembers(p: Option<Signature>, calls: seq<Call>, c: Call)
    ensures c in Passed(p, calls) <==> c in calls && !Stops(p, c)
  {
    if calls != [] {
      var n := |calls| - 1;
      PassedMembers(p, calls[..n], c);
      assert c in calls <==> c in calls[..n] || c == calls[n] by {
        assert calls == calls[..n] + [calls[n]];
      }
    }
  }

  lemma PassedShape(p: Option<Signature>, calls: seq<Call>)
    ensures Passed(p, calls) == [] <==> AllStop(p, calls)
    ensures forall c :: c in Passed(p, calls) <==> c in calls && !Stops(p, c)
    ensures calls != [] && !Stops(p, calls[|calls| - 1]) ==> LastSignature(Passed(p, calls)) == Some(calls[|calls| - 1].Key())
  {
    forall c
      ensures c in Passed(p, calls) <==> c in calls && !Stops(p, c)
    {
      PassedMembers(p, calls, c);
    }
    if Passed(p, calls) != [] {
      assert Passed(p, calls)[0] in Passed(p, calls);
    }
  }

  lemma PrefixOf(batches: seq<Batch>, n: nat, j: nat)
    requires j <= n <= |batches|
    ensures batches[..n][..j] == batches[..j]
  {
  }

  lemma {:induction false} RepeatsKeepKey(batches: seq<Batch>, j: nat)
    requires Nonempty(batches) && j < |batches| && OnlyRepeats(batches, j)
    ensures LastKey(batches) == LastKey(batches[..j + 1])
  {
    var n := |batches| - 1;
    if j == n {
      assert batches[..j + 1] == batches;
    } else {
      assert batches[n].calls[|batches[n].calls| - 1] in batches[n].calls;
    }
  }

  // What a batch that was only refused leaves as it was.
  lemma DriftsBefore(batches: seq<Batch>, j: nat)
    requires Nonempty(batches) && j < |batches| - 1
    ensures var n := |batches| - 1;
      Drifts(batches, j) <==> Drifts(batches[..n], j) && batches[n].Ran? && AllStop(LastKey(batches[..n]), batches[n].calls)
  {
    var n := |batches| - 1;
    var front := batches[..n];
    PrefixOf(batches, n, j);
    PrefixOf(batches, n, j + 1);
    assert OnlyRepeats(batches, j) <==>
      OnlyRepeats(front, j) && batches[n].Ran? && AllStop(LastKey(batches[..j + 1]), batches[n].calls) by {
      assert forall i | j < i < n :: front[i] == batches[i];
    }
    if OnlyRepeats(front, j) {
      RepeatsKeepKey(front, j);
    }
  }

  lemma DriftsLast(batches: seq<Batch>)
    requires Nonempty(batches) && batches != []
    ensures Drifts(batches, |batches| - 1) <==> Diverts(batches, |batches| - 1)
  {
  }

  lemma LastBatch(batches: seq<Batch>)
    requires Nonempty(batches) && batches != []
    ensures var n := |batches| - 1; var p := LastKey(batches[..n]); var calls := batches[n].calls;
      if batches[n].Cancelled? then Executions(batches) == Executions(batches[..n])
      else
        && LastKey(batches) == Some(calls[|calls| - 1].Key())
        && (AllStop(p, calls) ==> Executions(batches) == Executions(batches[..n]) && LastKey(batches) == p)
        && (!AllStop(p, calls) ==> (LastSignature(Executions(batches)) == LastKey(batches) <==> LastKey(batches) != p))
  {
    var n := |batches| - 1;
    var p, calls := LastKey(batches[..n]), batches[n].calls;
    PassedShape(p, calls);
    assert calls[|calls| - 1] in calls;
    if batches[n].Ran? && !AllStop(p, calls) {
      var passed := Passed(p, calls);
      assert passed[|passed| - 1] in passed;
      assert LastSignature(Executions(batches[..n]) + passed) == LastSignature(passed);
    }
  }

  /**
   The guard compares with the call executed last if and only if no batch since
   then diverted it: no cancelled call with another signature, and no call
   refused beside an executed one, with only repetitions after it.
   */
  lemma {:induction false} SeesLastExecution(batches: seq<Batch>)
    requires Nonempty(batches)
    ensures LastKey(batches) == LastSignature(Executions(batches)) <==> forall j: nat :: !Drifts(batches, j)
  {
    if batches != [] {
      var n := |batches| - 1;
      var front := batches[..n];
      SeesLastExecution(front);
      LastBatch(batches);
      DriftsLast(batches);
      assert batches[..n + 1] == batches;
      forall j: nat | j < n {
        DriftsBefore(batches, j);
      }
      if batches[n].Cancelled? {
        assert Drifts(batches, n) <==> LastKey(batches) != LastSignature(Executions(front));
        assert forall j: nat :: Drifts(batches, j) ==> j == n;
      } else if AllStop(LastKey(front), batches[n].calls) {
        assert !Drifts(batches, n);
        assert forall j: nat :: Drifts(batches, j) <==> Drifts(front, j);
      } else {
        assert Drifts(batches, n) <==> LastKey(front) == LastKey(batches);
        assert forall j: nat :: Drifts(batches, j) ==> j == n;
      }
    }
  }

  // ---- When a call runs twice in a row ----

  ghost predicate StopsWithin(p: Option<Signature>, calls: seq<Call>, lo: nat, hi: nat)
    requires hi <= |calls|
  {
    forall k | lo <= k < hi :: Stops(p, calls[k])
  }

  // Two equal calls of one batch pass, with only refused ones between them.
  ghost predicate RepeatsInside(p: Option<Signature>, calls: seq<Call>, a: nat, b: nat) {
    && a < b < |calls| && calls[a].Key() == calls[b].Key() && !Stops(p, calls[a])
    && StopsWithin(p, calls, a + 1, b)
  }

  // The first call that passes is the one executed last before the batch.
  ghost predicate RepeatsBefore(p: Option<Signature>, last: Option<Signature>, calls: seq<Call>, a: nat) {
    && a < |calls| && !Stops(p, calls[a]) && StopsWithin(p, calls, 0, a)
    && last == Some(calls[a].Key())
  }

  ghost predicate CleanBatch(batches: seq<Batch>, i: nat)
    requires i < |batches|
  {
    batches[i].Ran? ==>
      && (forall a: nat, b: nat :: !RepeatsInside(LastKey(batches[..i]), batches[i].calls, a, b))
      && (forall a: nat :: !RepeatsBefore(LastKey(batches[..i]), LastSignature(Executions(batches[..i])), batches[i].calls, a))
  }

  // Where the last call that passes stands.
  lemma {:induction false} LastPassedAt(p: Option<Signature>, calls: seq<Call>) returns (a: nat)
    requires Passed(p, calls) != []
    ensures a < |calls| && !Stops(p, calls[a]) && StopsWithin(p, calls, a + 1, |calls|)
    ensures calls[a] == Passed(p, calls)[|Passed(p, calls)| - 1]
  {
    var n := |calls| - 1;
    if Stops(p, calls[n]) {
      a := LastPassedAt(p, calls[..n]);
      assert forall k | a + 1 <= k < n :: calls[..n][k] == calls[k];
    } else {
      a := n;
    }
  }

  lemma {:induction false} FirstPassedAt(p: Option<Signature>, calls: seq<Call>) returns (a: nat)
    requires Passed(p, calls) != []
    ensures a < |calls| && !Stops(p, calls[a]) && StopsWithin(p, calls, 0, a)
    ensures calls[a] == Passed(p, calls)[0]
  {
    var n := |calls| - 1;
    if Passed(p, calls[..n]) != [] {
      a := FirstPassedAt(p, calls[..n]);
      assert forall k | 0 <= k < a :: calls[..n][k] == calls[k];
    } else {
      a := n;
      NonePassed(p, calls[..n]);
      assert forall k | 0 <= k < n :: calls[..n][k] == calls[k];
    }
  }

  lemma NonePassed(p: Option<Signature>, calls: seq<Call>)
    ensures Passed(p, calls) == [] <==> StopsWithin(p, calls, 0, |calls|)
  {
    PassedShape(p, calls);
  }

  lemma NeverTwiceConcat(x: seq<Call>, y: seq<Call>)
    ensures NeverTwice(x + y) <==>
      NeverTwice(x) && NeverTwice(y) && (x != [] && y != [] ==> x[|x| - 1].Key() != y[0].Key())
  {
    var z := x + y;
    if NeverTwice(z) {
      forall i | 0 <= i < |y| - 1
        ensures y[i].Key() != y[i + 1].Key()
      {
        assert z[|x| + i].Key() != z[|x| + i + 1].Key();
      }
      forall i | 0 <= i < |x| - 1
        ensures x[i].Key() != x[i + 1].Key()
      {
        assert z[i].Key() != z[i + 1].Key();
      }
      if x != [] && y != [] {
        assert z[|x| - 1].Key() != z[|x| - 1 + 1].Key();
      }
    }
  }

  lemma InsidePrefix(p: Option<Signature>, calls: seq<Call>, n: nat, a: nat, b: nat)
    requires n <= |calls|
    ensures RepeatsInside(p, calls[..n], a, b) <==> RepeatsInside(p, calls, a, b) && b < n
  {
    if a < b < n {
      assert forall k | a + 1 <= k < b :: calls[..n][k] == calls[k];
    }
  }

  // Within one batch.
  lemma {:induction false} InsideBatch(p: Option<Signature>, calls: seq<Call>)
    ensures NeverTwice(Passed(p, calls)) <==> forall a: nat, b: nat :: !RepeatsInside(p, calls, a, b)
  {
    if calls != [] {
      var n := |calls| - 1;
      var front, last := calls[..n], calls[n];
      InsideBatch(p, front);
      forall a: nat, b: nat {
        InsidePrefix(p, calls, n, a, b);
      }
      if !Stops(p, last) {
        NeverTwiceConcat(Passed(p, front), [last]);
        InsideLast(p, calls);
      }
      assert Stops(p, last) ==> forall a: nat :: !RepeatsInside(p, calls, a, n);
    }
  }

  lemma InsideLast(p: Option<Signature>, calls: seq<Call>)
    requires calls != [] && !Stops(p, calls[|calls| - 1])
    ensures var n := |calls| - 1;
      LastSignature(Passed(p, calls[..n])) == Some(calls[n].Key()) <==> exists a: nat :: RepeatsInside(p, calls, a, n)
  {
    var n := |calls| - 1;
    var front, last := calls[..n], calls[n];
    if Passed(p, front) != [] {
      var a := LastPassedAt(p, front);
      assert forall k | 0 <= k < n :: front[k] == calls[k];
      assert front[a].Key() == last.Key() ==> RepeatsInside(p, calls, a, n);
      assert forall b: nat :: RepeatsInside(p, calls, b, n) ==> b == a;
    } else {
      NonePassed(p, front);
      assert forall k | 0 <= k < n :: Stops(p, front[k]) && front[k] == calls[k];
    }
  }

  lemma BeforeBatch(p: Option<Signature>, last: Option<Signature>, calls: seq<Call>)
    requires last.Some?
    ensures (Passed(p, calls) != [] && last == Some(Passed(p, calls)[0].Key())) <==> exists a: nat :: RepeatsBefore(p, last, calls, a)
  {
    if Passed(p, calls) != [] {
      var a := FirstPassedAt(p, calls);
      assert last == Some(calls[a].Key()) ==> RepeatsBefore(p, last, calls, a);
      assert forall b: nat :: RepeatsBefore(p, last, calls, b) ==> b == a;
    } else {
      NonePassed(p, calls);
    }
  }

  lemma CleanAfter(p: Option<Signature>, before: seq<Call>, calls: seq<Call>)
    ensures NeverTwice(before + Passed(p, calls)) <==>
      && NeverTwice(before)
      && (forall a: nat, b: nat :: !RepeatsInside(p, calls, a, b))
      && (forall a: nat :: !RepeatsBefore(p, LastSignature(before), calls, a))
  {
    NeverTwiceConcat(before, Passed(p, calls));
    InsideBatch(p, calls);
    if before != [] {
      BeforeBatch(p, LastSignature(before), calls);
    }
  }

  lemma LastClean(batches: seq<Batch>)
    requires batches != []
    ensures var n := |batches| - 1;
      NeverTwice(Executions(batches)) <==> NeverTwice(Executions(batches[..n])) && CleanBatch(batches, n)
  {
    var n := |batches| - 1;
    if batches[n].Ran? {
      CleanAfter(LastKey(batches[..n]), Executions(batches[..n]), batches[n].calls);
    }
  }

  /**
   No call is executed twice in a row if and only if no message issues, next to
   one another but for refused calls, two equal calls that pass, and none issues
   first among those that pass the call executed last.
   */
  lemma {:induction false} RunsTwiceExactly(batches: seq<Batch>)
    ensures NeverTwice(Executions(batches)) <==> forall i | 0 <= i < |batches| :: CleanBatch(batches, i)
  {
    if batches != [] {
      var n := |batches| - 1;
      RunsTwiceExactly(batches[..n]);
      LastClean(batches);
      forall i | 0 <= i < n
        ensures CleanBatch(batches[..n], i) <==> CleanBatch(batches, i)
      {
        PrefixOf(batches, n, i);
      }
    }
  }

  /** A message can only begin with the call executed last if an earlier one diverted the guard. */
  lemma RepeatsOnlyAfterDrift(batches: seq<Batch>, i: nat, a: nat)
    requires Nonempty(batches) && i < |batches|
    requires RepeatsBefore(LastKey(batches[..i]), LastSignature(Executions(batches[..i])), batches[i].calls, a)
    ensures exists j: nat :: Drifts(batches[..i], j)
  {
    SeesLastExecution(batches[..i]);
  }

  // ---- Which calls were executed at all ----

  ghost predicate Has(calls: seq<Call>, key: Signature) {
    exists c | c in calls :: c.Key() == key
  }

  // Some tested message issued the call when the guard compared with another one.
  ghost predicate IssuedAfresh(batches: seq<Batch>, key: Signature) {
    exists i | 0 <= i < |batches| :: batches[i].Ran? && LastKey(batches[..i]) != Some(key) && Has(batches[i].calls, key)
  }

  /** A call was executed if and only if some tested message issued it when the guard compared with another call. */
  lemma {:induction false} ExecutedExactly(batches: seq<Batch>, key: Signature)
    ensures Has(Executions(batches), key) <==>
      IssuedAfresh(batches, key)
  {
    if batches != [] {
      var n := |batches| - 1;
      ExecutedExactly(batches[..n], key);
      assert forall i | 0 <= i < n :: batches[..n][..i] == batches[..i];
      ExecutedLast(batches, key);
    }
  }

  lemma ExecutedLast(batches: seq<Batch>, key: Signature)
    requires batches != []
    ensures var n := |batches| - 1;
      Has(Executions(batches), key) <==>
        Has(Executions(batches[..n]), key) || (batches[n].Ran? && LastKey(batches[..n]) != Some(key) && Has(batches[n].calls, key))
  {
    var n := |batches| - 1;
    var p := LastKey(batches[..n]);
    PassedShape(p, batches[n].calls);
    if batches[n].Ran? {
      var before, passed := Executions(batches[..n]), Passed(p, batches[n].calls);
      assert Has(before + passed, key) <==> Has(before, key) || Has(passed, key) by {
        assert forall c :: c in before + passed <==> c in before || c in passed;
      }
      assert Has(passed, key) <==> p != Some(key) && Has(batches[n].calls, key);
    }
  }

  /** Without cancelled calls, whatever the guard refuses was executed before. */
  lemma {:induction false} RefusedWasExecuted(batches: seq<Batch>)
    requires Nonempty(batches) && forall b | b in batches :: b.Ran?
    ensures LastKey(batches).Some? ==> Has(Executions(batches), LastKey(batches).value)
  {
    if batches != [] {
      var n := |batches| - 1;
      RefusedWasExecuted(batches[..n]);
      var last := batches[n].calls[|batches[n].calls| - 1];
      assert batches[n] in batches;
      assert last in batches[n].calls;
      ExecutedLast(batches, last.Key());
    }
  }
}
