/**
 The transcript that `load_thread_messages` rebuilds: undelivered corrections are
 woven into the model history after the message they were anchored to.
 */
module Transcript {
  import opened Wrappers
  import opened Sequences
  import opened History
  import opened Reconcile
  import RC = RunControl

  function Anchor(m: Message): Option<MessageId> {
    if m.Human? && m.receipt.Some? then m.receipt.value.after else None
  }

  function AnchoredTo(receipts: seq<Message>, anchor: Option<MessageId>): seq<Message> {
    if receipts == [] then []
    else if Anchor(receipts[0]) == anchor then [receipts[0]] + AnchoredTo(receipts[1..], anchor)
    else AnchoredTo(receipts[1..], anchor)
  }

  function NotAnchoredTo(receipts: seq<Message>, anchor: Option<MessageId>): (r: seq<Message>)
    ensures |r| <= |receipts|
  {
    if receipts == [] then []
    else if Anchor(receipts[0]) != anchor then [receipts[0]] + NotAnchoredTo(receipts[1..], anchor)
    else NotAnchoredTo(receipts[1..], anchor)
  }

  // Receipts left over once every anchor was looked for, one anchor after another.
  function Leftover(receipts: seq<Message>): seq<Message>
    decreases |receipts|
  {
    if receipts == [] then []
    else AnchoredTo(receipts, Anchor(receipts[0])) + Leftover(NotAnchoredTo(receipts[1..], Anchor(receipts[0])))
  }

  function Weave(messages: seq<Message>, receipts: seq<Message>): seq<Message> {
    if messages == [] then Leftover(receipts)
    else
      [messages[0]] + AnchoredTo(receipts, Some(messages[0].id))
      + Weave(messages[1..], NotAnchoredTo(receipts, Some(messages[0].id)))
  }

  // ---- Exactly once, in order ----

  lemma {:induction false} AnchorMembers(receipts: seq<Message>, anchor: Option<MessageId>)
    ensures forall m | m in AnchoredTo(receipts, anchor) :: m in receipts && Anchor(m) == anchor
    ensures forall m | m in NotAnchoredTo(receipts, anchor) :: m in receipts && Anchor(m) != anchor
  {
    if receipts != [] {
      AnchorMembers(receipts[1..], anchor);
    }
  }

  lemma {:induction false} AnchorSplits(receipts: seq<Message>, anchor: Option<MessageId>)
    ensures multiset(receipts) == multiset(AnchoredTo(receipts, anchor)) + multiset(NotAnchoredTo(receipts, anchor))
  {
    if receipts != [] {
      AnchorSplits(receipts[1..], anchor);
      var first, rest := receipts[0], receipts[1..];
      assert receipts == [first] + rest;
      assert multiset(receipts) == multiset{first} + multiset(rest);
      if Anchor(first) == anchor {
        assert AnchoredTo(receipts, anchor) == [first] + AnchoredTo(rest, anchor);
      } else {
        assert NotAnchoredTo(receipts, anchor) == [first] + NotAnchoredTo(rest, anchor);
      }
    }
  }

  lemma {:induction false} LeftoverOnce(receipts: seq<Message>)
    ensures multiset(Leftover(receipts)) == multiset(receipts)
    decreases |receipts|
  {
    if receipts != [] {
      var anchor := Anchor(receipts[0]);
      AnchorSplits(receipts, anchor);
      assert NotAnchoredTo(receipts, anchor) == NotAnchoredTo(receipts[1..], anchor);
      LeftoverOnce(NotAnchoredTo(receipts[1..], anchor));
    }
  }

  /** Every message and every receipt appears in the transcript exactly as often as in its channel, evicted anchors included. */
  lemma {:induction false} WeaveOnce(messages: seq<Message>, receipts: seq<Message>)
    ensures multiset(Weave(messages, receipts)) == multiset(messages) + multiset(receipts)
  {
    if messages == [] {
      LeftoverOnce(receipts);
    } else {
      var anchor := Some(messages[0].id);
      var later := Weave(messages[1..], NotAnchoredTo(receipts, anchor));
      WeaveOnce(messages[1..], NotAnchoredTo(receipts, anchor));
      AnchorSplits(receipts, anchor);
      assert messages == [messages[0]] + messages[1..];
      CountOnce(messages[0], messages[1..], AnchoredTo(receipts, anchor), NotAnchoredTo(receipts, anchor), later);
    }
  }

  lemma CountOnce(m: Message, rest: seq<Message>, here: seq<Message>, elsewhere: seq<Message>, later: seq<Message>)
    requires multiset(later) == multiset(rest) + multiset(elsewhere)
    ensures multiset([m] + here + later) == multiset([m] + rest) + (multiset(here) + multiset(elsewhere))
  {
  }

  lemma InWeave(messages: seq<Message>, receipts: seq<Message>, x: Message)
    ensures x in Weave(messages, receipts) <==> x in messages || x in receipts
  {
    WeaveOnce(messages, receipts);
    assert x in Weave(messages, receipts) <==> x in multiset(Weave(messages, receipts));
    assert x in messages <==> x in multiset(messages);
    assert x in receipts <==> x in multiset(receipts);
  }

  /** Leaving the receipts out of the transcript gives back the model history, in its order. */
  lemma {:induction false} WeaveKeepsOrder(messages: seq<Message>, receipts: seq<Message>, all: set<MessageId>)
    requires forall m | m in messages :: m.id !in all
    requires forall r | r in receipts :: r.id in all
    ensures Filter(Weave(messages, receipts), (m: Message) => m.id !in all) == messages
  {
    var shown := (m: Message) => m.id !in all;
    if messages == [] {
      forall x | x in Leftover(receipts)
        ensures !shown(x)
      {
        InWeave([], receipts, x);
      }
      FilterNone(Leftover(receipts), shown);
    } else {
      var anchor := Some(messages[0].id);
      var rest := NotAnchoredTo(receipts, anchor);
      AnchorMembers(receipts, anchor);
      WeaveKeepsOrder(messages[1..], rest, all);
      FilterNone(AnchoredTo(receipts, anchor), shown);
      FilterAppend([messages[0]] + AnchoredTo(receipts, anchor), Weave(messages[1..], rest), shown);
      FilterAppend([messages[0]], AnchoredTo(receipts, anchor), shown);
      assert Filter([messages[0]], shown) == [messages[0]];
    }
  }

  lemma {:induction false} OtherAnchorKept(receipts: seq<Message>, anchor: Option<MessageId>, other: Option<MessageId>)
    requires anchor != other
    ensures AnchoredTo(NotAnchoredTo(receipts, other), anchor) == AnchoredTo(receipts, anchor)
  {
    if receipts != [] {
      OtherAnchorKept(receipts[1..], anchor, other);
    }
  }

  // `m` stands in `s` directly before `after`.
  ghost predicate Follows(s: seq<Message>, m: Message, after: seq<Message>) {
    exists front, back :: s == front + [m] + after + back
  }

  lemma FollowsBehind(head: seq<Message>, s: seq<Message>, m: Message, after: seq<Message>)
    requires Follows(s, m, after)
    ensures Follows(head + s, m, after)
  {
    var front, back :| s == front + [m] + after + back;
    assert head + s == (head + front) + [m] + after + back;
  }

  /** A message that is still in the history is followed directly by all receipts anchored to it, in the order they were saved. */
  lemma {:induction false} ReceiptsFollowTheirAnchor(messages: seq<Message>, receipts: seq<Message>, i: nat)
    requires UniqueIds(messages) && i < |messages|
    ensures Follows(Weave(messages, receipts), messages[i], AnchoredTo(receipts, Some(messages[i].id)))
  {
    var own := AnchoredTo(receipts, Some(messages[0].id));
    var rest := NotAnchoredTo(receipts, Some(messages[0].id));
    if i == 0 {
      assert Weave(messages, receipts) == [] + [messages[0]] + own + Weave(messages[1..], rest);
    } else {
      ReceiptsFollowTheirAnchor(messages[1..], rest, i - 1);
      OtherAnchorKept(receipts, Some(messages[i].id), Some(messages[0].id));
      FollowsBehind([messages[0]] + own, Weave(messages[1..], rest), messages[i], AnchoredTo(receipts, Some(messages[i].id)));
    }
  }

  // ---- What the transcript shows ----

  // Tool results are shown only on request, system messages never, and an AI
  // message that only announces tool calls has nothing to show. Texts here are
  // already stripped of white space, as the blankness test is.
  predicate Shown(includeTools: bool, m: Message) {
    match m
    case Human(_, _, _) => true
    case AI(_, text, calls) => calls == [] || text != ""
    case Tool(_, _, _) => includeTools
    case System(_, _) => false
  }

  function Reload(cp: Checkpoint, includeTools: bool): seq<Message> {
    Filter(Weave(cp.messages, cp.unapplied), (m: Message) => Shown(includeTools, m))
  }

  lemma {:induction false} UniqueCount(messages: seq<Message>, x: Message)
    requires UniqueIds(messages)
    ensures multiset(messages)[x] == if x in messages then 1 else 0
  {
    if messages != [] {
      UniqueCount(messages[1..], x);
      assert messages == [messages[0]] + messages[1..];
    }
  }

  lemma OnlyOne(s: seq<Message>, x: Message)
    requires forall y :: multiset(s)[y] == if y == x then 1 else 0
    ensures s == [x]
  {
    assert multiset(s) == multiset{x};
    assert |s| == |multiset(s)| == 1;
    assert s[0] in multiset(s);
  }

  // How often `y` is among the shown messages with identifier `id`.
  lemma ReloadCount(cp: Checkpoint, includeTools: bool, id: MessageId, y: Message)
    ensures multiset(Filter(Reload(cp, includeTools), (m: Message) => m.id == id))[y] ==
      if y.id == id && Shown(includeTools, y) then multiset(cp.messages)[y] + multiset(cp.unapplied)[y] else 0
  {
    FilterCount(Reload(cp, includeTools), (m: Message) => m.id == id, y);
    FilterCount(Weave(cp.messages, cp.unapplied), (m: Message) => Shown(includeTools, m), y);
    WeaveOnce(cp.messages, cp.unapplied);
  }

  // A message that only one of two duplicate-free channels has is shown once.
  lemma ShownOnce(cp: Checkpoint, includeTools: bool, x: Message)
    requires UniqueIds(cp.messages) && UniqueIds(cp.unapplied) && Shown(includeTools, x)
    requires (x in cp.messages && x.id !in Ids(cp.unapplied)) || (x in cp.unapplied && x.id !in Ids(cp.messages))
    ensures Filter(Reload(cp, includeTools), (m: Message) => m.id == x.id) == [x]
  {
    var found := Filter(Reload(cp, includeTools), (m: Message) => m.id == x.id);
    forall y
      ensures multiset(found)[y] == if y == x then 1 else 0
    {
      ReloadCount(cp, includeTools, x.id, y);
      UniqueCount(cp.messages, y);
      UniqueCount(cp.unapplied, y);
    }
    OnlyOne(found, x);
  }

  /**
   After a run is reconciled, each correction it accepted is shown exactly once
   in the reloaded transcript, marked delivered if and only if it was.
   */
  lemma EveryCorrectionShownOnce(c: RC.Control, run: string, saved: Checkpoint, partialText: string, serial: nat,
                                 item: RC.Instruction, includeTools: bool)
    requires RC.DistinctIds(c.instructions) && Sound(run, saved, serial) && item in c.instructions
    ensures var cp := ReconcileSpec(c, run, saved, partialText, serial);
      cp.Some? && Filter(Reload(cp.value, includeTools), (m: Message) => m.id == Steering(run, item.id)) == [Shows(run, item, saved)]
  {
    ReconcileSettlesEveryCorrection(c, run, saved, partialText, serial);
    var cp := ReconcileSpec(c, run, saved, partialText, serial).value;
    assert Settled(run, item, saved, cp);
    ShownOnce(cp, includeTools, Shows(run, item, saved));
  }

  // A new run, before anybody steers it.
  const NEW_RUN: RC.Control := RC.Control(RC.Preparing, [], false, 0)

  // What was accepted by step `k` is what the snapshot after finalize holds, with its text.
  lemma AcceptedStays(before: seq<RC.ControlStep>, k: nat, completed: bool, later: seq<RC.ControlStep>, id: string, text: string)
    returns (item: RC.Instruction)
    requires k <= |before| && (id, text) in RC.Accepted(RC.ApplyAll(NEW_RUN, before[..k]))
    requires forall step | step in later :: RC.AfterClose(step)
    ensures var c := RC.ApplyAll(RC.BeginFinalizeSpec(RC.ApplyAll(NEW_RUN, before), completed), later);
      RC.DistinctIds(c.instructions) && item in c.instructions && item.id == id && item.text == text
  {
    var early := RC.ApplyAll(NEW_RUN, before[..k]);
    var last := RC.ApplyAll(NEW_RUN, before);
    var c := RC.ApplyAll(RC.BeginFinalizeSpec(last, completed), later);
    RC.AcceptedOnce(NEW_RUN, before[..k]);
    RC.AcceptedOnce(early, before[k..]);
    RC.ApplyAllAppend(NEW_RUN, before[..k], before[k..]);
    assert before[..k] + before[k..] == before;
    RC.AcceptedOnce(RC.BeginFinalizeSpec(last, completed), later);
    RC.ClosedAfterFinalize(last, completed, later);
    var i :| 0 <= i < |RC.Accepted(early)| && RC.Accepted(early)[i] == (id, text);
    assert RC.Accepted(c)[i] == RC.Accepted(early)[i];
    item := c.instructions[i];
  }

  // All that happened to the control block of a run.
  function WholeRun(before: seq<RC.ControlStep>, completed: bool, later: seq<RC.ControlStep>): seq<RC.ControlStep> {
    before + [RC.BeginFinalize(completed)] + later
  }

  lemma WholeRunIs(before: seq<RC.ControlStep>, completed: bool, later: seq<RC.ControlStep>)
    ensures RC.ApplyAll(NEW_RUN, WholeRun(before, completed, later)) ==
      RC.ApplyAll(RC.BeginFinalizeSpec(RC.ApplyAll(NEW_RUN, before), completed), later)
  {
    var step := RC.BeginFinalize(completed);
    var c := RC.ApplyAll(NEW_RUN, before);
    RC.ApplyAllAppend(NEW_RUN, before + [step], later);
    RC.ApplyAllAppend(NEW_RUN, before, [step]);
    assert [step][1..] == [] && RC.ApplyAll(RC.Apply(c, step), []) == RC.Apply(c, step);
  }

  // `x`, with the accepted text, is the one message shown for the correction, and it
  // names exactly the recipients that acknowledged the correction during the run.
  ghost predicate ShownAs(cp: Checkpoint, includeTools: bool, run: string, id: string, text: string, steps: seq<RC.ControlStep>, x: Message) {
    && x.Human? && x.id == Steering(run, id) && x.text == text
    && Filter(Reload(cp, includeTools), (m: Message) => m.id == Steering(run, id)) == [x]
    && x.receipt.Some? && (x.receipt.value.applied <==> x.receipt.value.recipients != {})
    && forall who :: who in x.receipt.value.recipients <==> exists k: nat :: RC.DeliversAt(NEW_RUN, steps, k, id, who)
  }

  /**
   End to end: a correction accepted at any time of any run is shown exactly once
   after the run was finalized and reconciled, with the text it was accepted with
   and the recipients that acknowledged it, whatever was steered, delivered or
   stopped before and after.
   */
  lemma AcceptedAtAnyTimeIsShownOnce(before: seq<RC.ControlStep>, k: nat, completed: bool, later: seq<RC.ControlStep>, id: string, text: string,
                                     run: string, saved: Checkpoint, partialText: string, serial: nat, includeTools: bool)
    requires k <= |before| && (id, text) in RC.Accepted(RC.ApplyAll(NEW_RUN, before[..k]))
    requires (forall step | step in later :: RC.AfterClose(step)) && Sound(run, saved, serial)
    ensures var steps := WholeRun(before, completed, later);
      var cp := ReconcileSpec(RC.ApplyAll(NEW_RUN, steps), run, saved, partialText, serial);
      cp.Some? && exists x: Message :: ShownAs(cp.value, includeTools, run, id, text, steps, x)
  {
    var item := AcceptedStays(before, k, completed, later, id, text);
    var steps := WholeRun(before, completed, later);
    WholeRunIs(before, completed, later);
    var c := RC.ApplyAll(NEW_RUN, steps);
    EveryCorrectionShownOnce(c, run, saved, partialText, serial, item, includeTools);
    var cp := ReconcileSpec(c, run, saved, partialText, serial).value;
    var x := Shows(run, item, saved);
    forall who
      ensures who in item.recipients <==> exists k: nat :: RC.DeliversAt(NEW_RUN, steps, k, id, who)
    {
      RC.DeliveredExactly(NEW_RUN, steps, item, who);
    }
    FilterSame(Reload(cp, includeTools), (m: Message) => m.id == Steering(run, item.id), (m: Message) => m.id == Steering(run, id));
    assert ShownAs(cp, includeTools, run, id, text, steps, x);
  }

  // ---- The loops of `load_thread_messages` ----

  // The anchors of `receipts`, each once, in order of first appearance.
  function FirstAnchors(receipts: seq<Message>): seq<Option<MessageId>>
    decreases |receipts|
  {
    if receipts == [] then []
    else [Anchor(receipts[0])] + FirstAnchors(NotAnchoredTo(receipts[1..], Anchor(receipts[0])))
  }

  function Spill(receipts: seq<Message>, keys: seq<Option<MessageId>>): seq<Message> {
    if keys == [] then [] else AnchoredTo(receipts, keys[0]) + Spill(receipts, keys[1..])
  }

  lemma {:induction false} SpillWithout(receipts: seq<Message>, keys: seq<Option<MessageId>>, anchor: Option<MessageId>)
    requires anchor !in keys
    ensures Spill(NotAnchoredTo(receipts, anchor), keys) == Spill(receipts, keys)
  {
    if keys != [] {
      OtherAnchorKept(receipts, keys[0], anchor);
      SpillWithout(receipts, keys[1..], anchor);
    }
  }

  lemma {:induction false} FirstAnchorsMembers(receipts: seq<Message>)
    ensures forall m | m in receipts :: Anchor(m) in FirstAnchors(receipts)
    ensures forall key | key in FirstAnchors(receipts) :: exists m | m in receipts :: Anchor(m) == key
    decreases |receipts|
  {
    if receipts != [] {
      var rest := NotAnchoredTo(receipts[1..], Anchor(receipts[0]));
      FirstAnchorsMembers(rest);
      assert receipts == [receipts[0]] + receipts[1..];
      forall m {:trigger m in rest}
        ensures m in rest <==> m in receipts[1..] && Anchor(m) != Anchor(receipts[0])
      {
        NotAnchoredMember(receipts[1..], Anchor(receipts[0]), m);
      }
    }
  }

  lemma {:induction false} NotAnchoredMember(receipts: seq<Message>, anchor: Option<MessageId>, m: Message)
    ensures m in NotAnchoredTo(receipts, anchor) <==> m in receipts && Anchor(m) != anchor
  {
    if receipts != [] {
      NotAnchoredMember(receipts[1..], anchor, m);
    }
  }

  lemma {:induction false} LeftoverIsSpill(receipts: seq<Message>)
    ensures Leftover(receipts) == Spill(receipts, FirstAnchors(receipts))
    decreases |receipts|
  {
    if receipts != [] {
      var anchor := Anchor(receipts[0]);
      var rest := NotAnchoredTo(receipts[1..], anchor);
      assert NotAnchoredTo(receipts, anchor) == rest;
      LeftoverIsSpill(rest);
      FirstAnchorsMembers(rest);
      AnchorMembers(receipts, anchor);
      SpillWithout(receipts, FirstAnchors(rest), anchor);
      assert FirstAnchors(receipts)[1..] == FirstAnchors(rest);
    }
  }

  lemma {:induction false} AnchorAppend(receipts: seq<Message>, r: Message, anchor: Option<MessageId>)
    ensures AnchoredTo(receipts + [r], anchor) == AnchoredTo(receipts, anchor) + (if Anchor(r) == anchor then [r] else [])
    ensures NotAnchoredTo(receipts + [r], anchor) == NotAnchoredTo(receipts, anchor) + (if Anchor(r) != anchor then [r] else [])
  {
    if receipts != [] {
      assert (receipts + [r])[0] == receipts[0] && (receipts + [r])[1..] == receipts[1..] + [r];
      AnchorAppend(receipts[1..], r, anchor);
    } else {
      assert receipts + [r] == [r];
    }
  }

  lemma {:induction false} FirstAnchorsAppend(receipts: seq<Message>, r: Message)
    ensures FirstAnchors(receipts + [r]) ==
      FirstAnchors(receipts) + (if Anchor(r) in FirstAnchors(receipts) then [] else [Anchor(r)])
    decreases |receipts|
  {
    if receipts == [] {
      assert receipts + [r] == [r];
    } else {
      var anchor := Anchor(receipts[0]);
      var rest := NotAnchoredTo(receipts[1..], anchor);
      assert (receipts + [r])[0] == receipts[0] && (receipts + [r])[1..] == receipts[1..] + [r];
      AnchorAppend(receipts[1..], r, anchor);
      var more := NotAnchoredTo((receipts + [r])[1..], anchor);
      assert FirstAnchors(receipts + [r]) == [anchor] + FirstAnchors(more);
      if Anchor(r) == anchor {
        assert more == rest;
        assert FirstAnchors(receipts)[0] == Anchor(r);
      } else {
        assert more == rest + [r];
        FirstAnchorsAppend(rest, r);
        assert Anchor(r) in FirstAnchors(receipts) <==> Anchor(r) in FirstAnchors(rest);
        Regroup([anchor], FirstAnchors(rest), if Anchor(r) in FirstAnchors(rest) then [] else [Anchor(r)]);
      }
    }
  }

  // The dictionary `lists` holds the receipts of `rest` by anchor.
  ghost predicate Shelved(lists: map<Option<MessageId>, seq<Message>>, rest: seq<Message>) {
    && (forall key | key in lists :: lists[key] == AnchoredTo(rest, key))
    && (forall m | m in rest :: Anchor(m) in lists)
  }

  lemma {:induction false} NobodyAnchored(receipts: seq<Message>, anchor: Option<MessageId>)
    requires forall m | m in receipts :: Anchor(m) != anchor
    ensures AnchoredTo(receipts, anchor) == [] && NotAnchoredTo(receipts, anchor) == receipts
  {
    if receipts != [] {
      NobodyAnchored(receipts[1..], anchor);
    }
  }

  // Taking one anchor off the shelf.
  lemma ShelfWithout(lists: map<Option<MessageId>, seq<Message>>, rest: seq<Message>, anchor: Option<MessageId>)
    requires Shelved(lists, rest)
    ensures Shelved(lists - {anchor}, NotAnchoredTo(rest, anchor))
    ensures AnchoredTo(rest, anchor) == if anchor in lists then lists[anchor] else []
  {
    AnchorMembers(rest, anchor);
    forall key | key in lists && key != anchor
      ensures lists[key] == AnchoredTo(NotAnchoredTo(rest, anchor), key)
    {
      OtherAnchorKept(rest, key, anchor);
    }
    if anchor !in lists {
      NobodyAnchored(rest, anchor);
    }
  }

  // Dropping one anchor drops exactly its group from what is left over.
  lemma {:induction false} SpillDrops(receipts: seq<Message>, keys: seq<Option<MessageId>>, anchor: Option<MessageId>)
    ensures Spill(NotAnchoredTo(receipts, anchor), keys) == NotAnchoredTo(Spill(receipts, keys), anchor)
  {
    if keys != [] {
      SpillDrops(receipts, keys[1..], anchor);
      GroupDrops(receipts, keys[0], anchor);
      NotAnchoredAppend(AnchoredTo(receipts, keys[0]), Spill(receipts, keys[1..]), anchor);
    }
  }

  lemma GroupDrops(receipts: seq<Message>, key: Option<MessageId>, anchor: Option<MessageId>)
    ensures AnchoredTo(NotAnchoredTo(receipts, anchor), key) == NotAnchoredTo(AnchoredTo(receipts, key), anchor)
  {
    AnchorMembers(receipts, key);
    if key == anchor {
      AnchorMembers(receipts, anchor);
      NobodyAnchored(NotAnchoredTo(receipts, anchor), key);
      EverybodyAnchored(AnchoredTo(receipts, key), anchor);
    } else {
      OtherAnchorKept(receipts, key, anchor);
      NobodyAnchored(AnchoredTo(receipts, key), anchor);
    }
  }

  lemma {:induction false} EverybodyAnchored(receipts: seq<Message>, anchor: Option<MessageId>)
    requires forall m | m in receipts :: Anchor(m) == anchor
    ensures NotAnchoredTo(receipts, anchor) == []
  {
    if receipts != [] {
      EverybodyAnchored(receipts[1..], anchor);
    }
  }

  lemma {:induction false} NotAnchoredAppend(a: seq<Message>, b: seq<Message>, anchor: Option<MessageId>)
    ensures NotAnchoredTo(a + b, anchor) == NotAnchoredTo(a, anchor) + NotAnchoredTo(b, anchor)
  {
    if a == [] {
      assert a + b == b;
    } else {
      assert (a + b)[0] == a[0] && (a + b)[1..] == a[1..] + b;
      NotAnchoredAppend(a[1..], b, anchor);
    }
  }

  // The left-over groups come in the order of `keys`, whichever anchors were found.
  ghost predicate InKeyOrder(rest: seq<Message>, keys: seq<Option<MessageId>>) {
    Leftover(rest) == Spill(rest, keys)
  }

  lemma LeftoverDrops(rest: seq<Message>, anchor: Option<MessageId>)
    ensures Leftover(NotAnchoredTo(rest, anchor)) == NotAnchoredTo(Leftover(rest), anchor)
    decreases |rest|
  {
    if rest != [] {
      var first := Anchor(rest[0]);
      var later := NotAnchoredTo(rest[1..], first);
      LeftoverDrops(later, anchor);
      AnchorMembers(rest, first);
      NotAnchoredAppend(AnchoredTo(rest, first), Leftover(later), anchor);
      if first == anchor {
        EverybodyAnchored(AnchoredTo(rest, first), anchor);
        AnchorMembers(rest[1..], first);
        NobodyAnchored(later, anchor);
        assert NotAnchoredTo(rest, anchor) == later;
      } else {
        NobodyAnchored(AnchoredTo(rest, first), anchor);
        SwapDrops(rest[1..], first, anchor);
        OtherAnchorKept(rest, first, anchor);
        assert NotAnchoredTo(rest, anchor)[1..] == NotAnchoredTo(rest[1..], anchor);
      }
    }
  }

  lemma {:induction false} SwapDrops(receipts: seq<Message>, a: Option<MessageId>, b: Option<MessageId>)
    ensures NotAnchoredTo(NotAnchoredTo(receipts, a), b) == NotAnchoredTo(NotAnchoredTo(receipts, b), a)
  {
    if receipts != [] {
      SwapDrops(receipts[1..], a, b);
    }
  }

  lemma WeaveStep(messages: seq<Message>, i: nat, rest: seq<Message>, done: seq<Message>)
    requires i < |messages|
    ensures var anchor := Some(messages[i].id);
      done + Weave(messages[i..], rest) ==
        (done + ([messages[i]] + AnchoredTo(rest, anchor))) + Weave(messages[i + 1..], NotAnchoredTo(rest, anchor))
  {
    assert messages[i..][1..] == messages[i + 1..];
  }

  lemma DropAnchor(lists: map<Option<MessageId>, seq<Message>>, rest: seq<Message>, keys: seq<Option<MessageId>>, anchor: Option<MessageId>)
    requires Shelved(lists, rest) && InKeyOrder(rest, keys)
    ensures Shelved(lists - {anchor}, NotAnchoredTo(rest, anchor)) && InKeyOrder(NotAnchoredTo(rest, anchor), keys)
    ensures AnchoredTo(rest, anchor) == if anchor in lists then lists[anchor] else []
  {
    ShelfWithout(lists, rest, anchor);
    LeftoverDrops(rest, anchor);
    SpillDrops(rest, keys, anchor);
  }

  // The loop over `receipts.values()` that keeps what no message took.
  method AppendLeftover(done: seq<Message>, keys: seq<Option<MessageId>>, lists: map<Option<MessageId>, seq<Message>>,
                        ghost rest: seq<Message>)
    returns (transcript: seq<Message>)
    requires Shelved(lists, rest) && InKeyOrder(rest, keys)
    ensures transcript == done + Leftover(rest)
  {
    transcript := done;
    assert keys[0..] == keys;
    for i := 0 to |keys|
      invariant transcript + Spill(rest, keys[i..]) == done + Leftover(rest)
    {
      ShelfWithout(lists, rest, keys[i]);
      assert keys[i..][1..] == keys[i + 1..];
      Regroup(transcript, AnchoredTo(rest, keys[i]), Spill(rest, keys[i + 1..]));
      transcript := transcript + (if keys[i] in lists then lists[keys[i]] else []);
    }
  }

  // The loop over the messages, each followed by the receipts popped for it.
  method WeaveMessages(messages: seq<Message>, receipts: seq<Message>) returns (transcript: seq<Message>)
    ensures transcript == Weave(messages, receipts)
  {
    var keys, lists := ShelveReceipts(receipts);
    transcript := [];
    ghost var rest := receipts;
    assert messages[0..] == messages;
    for i := 0 to |messages|
      invariant Shelved(lists, rest) && InKeyOrder(rest, keys)
      invariant transcript + Weave(messages[i..], rest) == Weave(messages, receipts)
    {
      var anchor := Some(messages[i].id);
      DropAnchor(lists, rest, keys, anchor);
      WeaveStep(messages, i, rest, transcript);
      transcript := transcript + ([messages[i]] + (if anchor in lists then lists[anchor] else []));
      lists, rest := lists - {anchor}, NotAnchoredTo(rest, anchor);
    }
    transcript := AppendLeftover(transcript, keys, lists, rest);
  }

  lemma FilterNext(messages: seq<Message>, i: nat, keep: Message -> bool)
    requires i < |messages|
    ensures Filter(messages[..i + 1], keep) == if keep(messages[i]) then Filter(messages[..i], keep) + [messages[i]] else Filter(messages[..i], keep)
  {
    assert messages[..i + 1] == messages[..i] + [messages[i]];
    FilterAppend(messages[..i], [messages[i]], keep);
    assert [messages[i]][1..] == [] && [messages[i]] + [] == [messages[i]];
    assert Filter(messages[..i], keep) + [] == Filter(messages[..i], keep);
  }

  /** The dictionary-based loops compute exactly the woven and filtered transcript. */
  method LoadMessages(cp: Checkpoint, includeTools: bool) returns (shown: seq<Message>)
    ensures shown == Reload(cp, includeTools)
  {
    var transcript := WeaveMessages(cp.messages, cp.unapplied);
    shown := [];
    ghost var visible := (m: Message) => Shown(includeTools, m);
    for i := 0 to |transcript|
      invariant shown == Filter(transcript[..i], visible)
    {
      FilterNext(transcript, i, visible);
      if Shown(includeTools, transcript[i]) {
        shown := shown + [transcript[i]];
      }
    }
    assert transcript[..|transcript|] == transcript;
  }

  lemma ShelveStep(lists: map<Option<MessageId>, seq<Message>>, before: seq<Message>, r: Message)
    requires Shelved(lists, before)
    ensures var list := if Anchor(r) in lists then lists[Anchor(r)] else [];
      Shelved(lists[Anchor(r) := list + [r]], before + [r])
  {
    forall key | key in lists || key == Anchor(r)
      ensures AnchoredTo(before + [r], key) == AnchoredTo(before, key) + (if Anchor(r) == key then [r] else [])
    {
      AnchorAppend(before, r, key);
    }
    if Anchor(r) !in lists {
      NobodyAnchored(before, Anchor(r));
    }
  }

  // The shelf after `before`, with its keys in the order they first came up.
  ghost predicate Shelving(keys: seq<Option<MessageId>>, lists: map<Option<MessageId>, seq<Message>>, before: seq<Message>) {
    keys == FirstAnchors(before) && (forall key :: key in lists <==> key in keys) && Shelved(lists, before)
  }

  lemma ShelveOne(keys: seq<Option<MessageId>>, lists: map<Option<MessageId>, seq<Message>>, before: seq<Message>, r: Message)
    requires Shelving(keys, lists, before)
    ensures var list := if Anchor(r) in lists then lists[Anchor(r)] else [];
      Shelving(if Anchor(r) in lists then keys else keys + [Anchor(r)], lists[Anchor(r) := list + [r]], before + [r])
  {
    FirstAnchorsAppend(before, r);
    ShelveStep(lists, before, r);
  }

  // The `setdefault` loop over the undelivered receipts.
  method ShelveReceipts(receipts: seq<Message>) returns (keys: seq<Option<MessageId>>, lists: map<Option<MessageId>, seq<Message>>)
    ensures Shelved(lists, receipts) && InKeyOrder(receipts, keys)
  {
    keys, lists := [], map[];
    for i := 0 to |receipts|
      invariant Shelving(keys, lists, receipts[..i])
    {
      var r := receipts[i];
      assert receipts[..i + 1] == receipts[..i] + [r];
      ShelveOne(keys, lists, receipts[..i], r);
      var list := if Anchor(r) in lists then lists[Anchor(r)] else [];
      if Anchor(r) !in lists {
        keys := keys + [Anchor(r)];
      }
      lists := lists[Anchor(r) := list + [r]];
    }
    assert receipts[..|receipts|] == receipts;
    LeftoverIsSpill(receipts);
  }
}
