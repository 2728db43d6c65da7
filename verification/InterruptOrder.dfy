/** Who is innermost: the order of waits and hooks told from the calls that registered and
    disposed of them; and what becomes of each step. */
module InterruptOrder {
  import opened Wrappers
  import opened Interrupts

  // ----- A list of live ids, told from what was done to it -----------------------

  datatype Change = Adds(id: Id) | Drops(id: Id) | Nothing

  function Changed(ids: seq<Id>, change: Change): seq<Id> {
    match change
    case Adds(id) => Added(ids, id)
    case Drops(id) => Without(ids, id)
    case Nothing => ids
  }

  function ChangedAll(changes: seq<Change>): seq<Id> {
    if changes == [] then [] else Changed(ChangedAll(changes[..|changes| - 1]), changes[|changes| - 1])
  }

  /** The id is there since change `k`: added then, not dropped since, and not there before. */
  ghost predicate LiveSince(changes: seq<Change>, id: Id, k: nat) {
    && k < |changes| && changes[k] == Adds(id)
    && (forall m | k < m < |changes| :: changes[m] != Drops(id))
    && (forall m | 0 <= m < k && changes[m] == Adds(id) :: DropsBetween(changes, id, m, k))
  }

  ghost predicate DropsBetween(changes: seq<Change>, id: Id, m: nat, k: nat)
    requires k <= |changes|
  {
    exists n | m < n < k :: changes[n] == Drops(id)
  }

  ghost predicate IsLive(changes: seq<Change>, id: Id) {
    exists k: nat :: LiveSince(changes, id, k)
  }

  /** The live ids, the one longest there first. */
  ghost predicate InOrder(ids: seq<Id>, changes: seq<Change>) {
    && (forall id :: id in ids <==> IsLive(changes, id))
    && (forall i, j, k: nat, m: nat | 0 <= i < j < |ids| && LiveSince(changes, ids[i], k) && LiveSince(changes, ids[j], m) :: k < m)
  }

  lemma SinceIsOne(changes: seq<Change>, id: Id, k: nat, m: nat)
    requires LiveSince(changes, id, k) && LiveSince(changes, id, m)
    ensures k == m
  {
    assert k < m ==> DropsBetween(changes, id, k, m);
    assert m < k ==> DropsBetween(changes, id, m, k);
  }

  /** What was added and not dropped since is there. */
  lemma {:induction false} AddedIsLive(changes: seq<Change>, id: Id, m: nat)
    requires m < |changes| && changes[m] == Adds(id) && forall n | m < n < |changes| :: changes[n] != Drops(id)
    ensures IsLive(changes, id)
    decreases m
  {
    if k: nat :| k < m && changes[k] == Adds(id) && !DropsBetween(changes, id, k, m) {
      assert forall n | k < n < |changes| :: changes[n] != Drops(id) by {
        forall n | k < n < |changes| ensures changes[n] != Drops(id) {
          if n < m {
            assert !DropsBetween(changes, id, k, m);
          }
        }
      }
      AddedIsLive(changes, id, k);
    } else {
      assert LiveSince(changes, id, m);
    }
  }

  /** One change more does not move what was there. */
  lemma OneMore(changes: seq<Change>, change: Change, id: Id, k: nat)
    requires k < |changes|
    ensures LiveSince(changes + [change], id, k) <==> LiveSince(changes, id, k) && change != Drops(id)
  {
    var more := changes + [change];
    assert forall m | 0 <= m < |changes| :: more[m] == changes[m];
    assert more[|changes|] == change;
    forall m | 0 <= m < k ensures DropsBetween(more, id, m, k) <==> DropsBetween(changes, id, m, k) {
      if n :| m < n < k && changes[n] == Drops(id) {
        assert more[n] == Drops(id);
      }
    }
  }

  lemma NewlyLive(changes: seq<Change>, change: Change, id: Id)
    ensures LiveSince(changes + [change], id, |changes|) <==> change == Adds(id) && !IsLive(changes, id)
  {
    var more, k := changes + [change], |changes|;
    assert forall m | 0 <= m < k :: more[m] == changes[m];
    assert more[k] == change;
    if change == Adds(id) {
      if IsLive(changes, id) {
        var m: nat :| LiveSince(changes, id, m);
        assert more[m] == Adds(id) && !DropsBetween(more, id, m, k);
      } else {
        forall m | 0 <= m < k && more[m] == Adds(id) ensures DropsBetween(more, id, m, k) {
          if !DropsBetween(more, id, m, k) {
            forall n | m < n < |changes| ensures changes[n] != Drops(id) {
              assert more[n] == changes[n];
            }
            AddedIsLive(changes, id, m);
          }
        }
      }
    }
  }

  lemma LiveAfter(changes: seq<Change>, change: Change, id: Id)
    ensures IsLive(changes + [change], id) <==> change == Adds(id) || (IsLive(changes, id) && change != Drops(id))
  {
    var more := changes + [change];
    NewlyLive(changes, change, id);
    if k: nat :| LiveSince(more, id, k) {
      if k < |changes| {
        OneMore(changes, change, id, k);
      }
    }
    if IsLive(changes, id) && change != Drops(id) {
      var k: nat :| LiveSince(changes, id, k);
      OneMore(changes, change, id, k);
      assert LiveSince(more, id, k);
    }
  }

  /** What stays keeps its order. */
  lemma {:induction false} WithoutOrder(ids: seq<Id>, id: Id, i: nat, j: nat) returns (a: nat, b: nat)
    requires i < j < |Without(ids, id)|
    ensures a < b < |ids| && ids[a] == Without(ids, id)[i] && ids[b] == Without(ids, id)[j]
    decreases |ids|
  {
    if ids[0] == id {
      a, b := WithoutOrder(ids[1..], id, i, j);
      a, b := a + 1, b + 1;
    } else if i == 0 {
      a := 0;
      b := WithoutAt(ids[1..], id, j - 1);
      b := b + 1;
    } else {
      a, b := WithoutOrder(ids[1..], id, i - 1, j - 1);
      a, b := a + 1, b + 1;
    }
  }

  lemma {:induction false} WithoutAt(ids: seq<Id>, id: Id, i: nat) returns (a: nat)
    requires i < |Without(ids, id)|
    ensures a < |ids| && ids[a] == Without(ids, id)[i]
    decreases |ids|
  {
    if ids[0] == id {
      a := WithoutAt(ids[1..], id, i);
      a := a + 1;
    } else if i == 0 {
      a := 0;
    } else {
      a := WithoutAt(ids[1..], id, i - 1);
      a := a + 1;
    }
  }

  lemma ChangeKeepsOrder(ids: seq<Id>, changes: seq<Change>, change: Change)
    requires InOrder(ids, changes)
    ensures InOrder(Changed(ids, change), changes + [change])
  {
    var after, more := Changed(ids, change), changes + [change];
    forall id ensures id in after <==> IsLive(more, id) {
      LiveAfter(changes, change, id);
      if change.Drops? {
        WithoutIs(ids, change.id);
      }
    }
    forall i, j, k: nat, m: nat | 0 <= i < j < |after| && LiveSince(more, after[i], k) && LiveSince(more, after[j], m)
      ensures k < m
    {
      PairKeepsOrder(ids, changes, change, i, j, k, m);
    }
  }

  lemma PairKeepsOrder(ids: seq<Id>, changes: seq<Change>, change: Change, i: nat, j: nat, k: nat, m: nat)
    requires InOrder(ids, changes) && i < j < |Changed(ids, change)|
    requires LiveSince(changes + [change], Changed(ids, change)[i], k) && LiveSince(changes + [change], Changed(ids, change)[j], m)
    ensures k < m
  {
    var after := Changed(ids, change);
    NewlyLive(changes, change, after[i]);
    NewlyLive(changes, change, after[j]);
    var a, b := i, j;
    if change.Drops? {
      a, b := WithoutOrder(ids, change.id, i, j);
    }
    if a < |ids| {
      assert ids[a] == after[i] && ids[a] in ids;
      assert k < |changes|;
      OneMore(changes, change, after[i], k);
    }
    if b < |ids| {
      assert ids[b] == after[j] && ids[b] in ids;
      assert m < |changes|;
      OneMore(changes, change, after[j], m);
    } else {
      OldIsNotNew(changes, change, after[j], m);
    }
  }

  lemma OldIsNotNew(changes: seq<Change>, change: Change, id: Id, m: nat)
    requires !IsLive(changes, id) && LiveSince(changes + [change], id, m)
    ensures m == |changes|
  {
    if m < |changes| {
      OneMore(changes, change, id, m);
    }
  }

  lemma {:induction false} AlwaysInOrder(changes: seq<Change>)
    ensures InOrder(ChangedAll(changes), changes)
    decreases |changes|
  {
    if changes != [] {
      var before, change := changes[..|changes| - 1], changes[|changes| - 1];
      AlwaysInOrder(before);
      ChangeKeepsOrder(ChangedAll(before), before, change);
      assert changes == before + [change];
    }
  }

  // ----- The calls --------------------------------------------------------------

  function OnWaits(op: Op): Change {
    match op
    case Register(id) => Adds(id)
    case Dispose(id) => Drops(id)
    case _ => Nothing
  }

  function OnHooks(op: Op): Change {
    match op
    case RegisterHook(id) => Adds(id)
    case DisposeHook(id) => Drops(id)
    case _ => Nothing
  }

  function Waits(ops: seq<Op>): seq<Change> {
    seq(|ops|, k requires 0 <= k < |ops| => OnWaits(ops[k]))
  }

  function Hooks(ops: seq<Op>): seq<Change> {
    seq(|ops|, k requires 0 <= k < |ops| => OnHooks(ops[k]))
  }

  lemma {:induction false} RunSnoc(s: State, ops: seq<Op>, op: Op)
    ensures Run(s, ops + [op]) == Apply(Run(s, ops), op)
    decreases |ops|
  {
    if ops == [] {
      assert [op][1..] == [] && [] + [op] == [op];
      assert Run(Apply(s, op), []) == Apply(s, op);
    } else {
      assert (ops + [op])[1..] == ops[1..] + [op];
      RunSnoc(Apply(s, ops[0]), ops[1..], op);
    }
  }

  /** The lists hold what the calls left there. */
  predicate SameLists(s: State, t: State) {
    t.interruptHandlers == s.interruptHandlers && t.cleanupHooks == s.cleanupHooks
  }

  lemma {:induction false} SettleAllLists(s: State, steps: seq<Id>)
    ensures SameLists(s, SettleAll(s, steps))
    decreases |steps|
  {
    if steps != [] {
      SettleAllLists(Close(Settle(s, steps[0], AsCancelled), steps[0]), steps[1..]);
    }
  }

  lemma PressLists(s: State, signal: Signal)
    ensures SameLists(s, NotifyInterrupt(s, signal))
  {
    if s.interruptHandlers == [] && s.leaving.None? {
      SettleAllLists(s.(leaving := Some(Leave(if signal.SIGTERM? then 143 else 130, [], 0))), s.stepsInFlight);
    }
  }

  lemma CallLists(s: State, exit: Exit, code: Option<int>)
    ensures SameLists(s, CallExit(s, exit, code))
  {
    ExitReachesGenuine(s, exit, code);
    PressLists(s, SIGINT);
  }

  lemma RegistrationLists(s: State, op: Op)
    requires op.Register? || op.Dispose? || op.RegisterHook? || op.DisposeHook?
    ensures Apply(s, op).interruptHandlers == Changed(s.interruptHandlers, OnWaits(op))
    ensures Apply(s, op).cleanupHooks == Changed(s.cleanupHooks, OnHooks(op))
  {
  }

  lemma StepLists(s: State, op: Op)
    requires op.WriteStep? || op.SettleStep? || op.Finish?
    ensures SameLists(s, Apply(s, op))
  {
  }

  lemma ApplyLists(s: State, op: Op)
    ensures Apply(s, op).interruptHandlers == Changed(s.interruptHandlers, OnWaits(op))
    ensures Apply(s, op).cleanupHooks == Changed(s.cleanupHooks, OnHooks(op))
  {
    hide CallExit, NotifyInterrupt, Sync, Write, Settle, Close;
    match op
    case Receive(signal) => PressLists(s, signal);
    case Call(code) => CallLists(s, s.exit, code);
    case HookEnds(_) =>
      if s.leaving.Some? {
        CallLists(s.(leaving := None), s.exit, Some(s.leaving.value.code));
      }
    case Wrap =>
    case Unwrap =>
    case WriteStep(_) => StepLists(s, op);
    case SettleStep(_, _) => StepLists(s, op);
    case Finish(_, _) => StepLists(s, op);
    case _ => RegistrationLists(s, op);
  }

  lemma {:induction false} ListsAre(ops: seq<Op>)
    ensures Run(Initial, ops).interruptHandlers == ChangedAll(Waits(ops))
    ensures Run(Initial, ops).cleanupHooks == ChangedAll(Hooks(ops))
    decreases |ops|
  {
    if ops != [] {
      var before, op := ops[..|ops| - 1], ops[|ops| - 1];
      assert ops == before + [op];
      ListsAre(before);
      RunSnoc(Initial, before, op);
      ApplyLists(Run(Initial, before), op);
      assert Waits(ops)[..|ops| - 1] == Waits(before) && Hooks(ops)[..|ops| - 1] == Hooks(before);
    }
  }

  // ----- Whose a press is ---------------------------------------------------------

  /** After any calls, a press is the wait's that was registered last and is not disposed of;
      and nothing but a call of its own registers a wait or takes it away. */
  lemma PressIsTheLastWaits(ops: seq<Op>, signal: Signal)
    ensures var s := Run(Initial, ops);
      if exists id :: IsLive(Waits(ops), id) then
        exists id, k: nat ::
          && LiveSince(Waits(ops), id, k)
          && (forall other, m: nat | LiveSince(Waits(ops), other, m) :: m <= k)
          && NotifyInterrupt(s, signal) == Say(s, HandlerCalled(id))
      else s.interruptHandlers == []
  {
    var s := Run(Initial, ops);
    ListsAre(ops);
    AlwaysInOrder(Waits(ops));
    if s.interruptHandlers != [] {
      var id := s.interruptHandlers[|s.interruptHandlers| - 1];
      assert id in s.interruptHandlers;
      var k: nat :| LiveSince(Waits(ops), id, k);
      LastIsLatest(s.interruptHandlers, Waits(ops), k);
    } else {
      assert forall id :: IsLive(Waits(ops), id) ==> id in s.interruptHandlers;
    }
  }

  lemma LastIsLatest(ids: seq<Id>, changes: seq<Change>, k: nat)
    requires InOrder(ids, changes) && ids != [] && LiveSince(changes, ids[|ids| - 1], k)
    ensures forall other, m: nat | LiveSince(changes, other, m) :: m <= k
  {
    forall other, m: nat | LiveSince(changes, other, m) ensures m <= k {
      assert other in ids;
      var i :| 0 <= i < |ids| && ids[i] == other;
      if i == |ids| - 1 {
        SinceIsOne(changes, other, k, m);
      }
    }
  }

  /** A wait that has come and gone leaves the others as they were. */
  lemma {:induction false} RegisteredThenDisposed(ids: seq<Id>, id: Id)
    requires id !in ids
    ensures Without(Added(ids, id), id) == ids
    decreases |ids|
  {
    if ids != [] {
      RegisteredThenDisposed(ids[1..], id);
      assert (ids + [id])[1..] == ids[1..] + [id];
      assert ids == [ids[0]] + ids[1..];
    }
  }

  /** After any calls that leave no wait, a press starts the hook that was registered last and
      is not disposed of, and then, whatever else happens, the ones before it in turn: each live
      hook that is started comes before those that were registered earlier. */
  lemma HooksFromTheLast(ops: seq<Op>, signal: Signal, after: seq<Op>)
    requires var s := Run(Initial, ops); s.interruptHandlers == [] && s.leaving.None? && Endings(after) < |s.cleanupHooks|
    ensures var s := Run(Initial, ops);
      var log := HooksIn(Run(NotifyInterrupt(s, signal), after).log);
      var before := HooksIn(s.log);
      && before <= log && |log| == |before| + Endings(after) + 1
      && var started := log[|before|..];
        && (forall i | 0 <= i < |started| :: IsLive(Hooks(ops), started[i]))
        && (forall i, j, k: nat, m: nat | 0 <= i < j < |started|
              && LiveSince(Hooks(ops), started[i], k) && LiveSince(Hooks(ops), started[j], m) :: k > m)
        && (forall id, i, k: nat, m: nat | 0 <= i < |started| && id !in started
              && LiveSince(Hooks(ops), started[i], k) && LiveSince(Hooks(ops), id, m) :: k > m)
  {
    var s := Run(Initial, ops);
    ListsAre(ops);
    AlwaysInOrder(Hooks(ops));
    InvReachable(ops);
    EveryHookOnce(s, signal, after, false);
    var log, before := HooksIn(Run(NotifyInterrupt(s, signal), after).log), HooksIn(s.log);
    var n := Endings(after) + 1;
    assert log[|before|..] == Reverse(s.cleanupHooks)[..n];
    FromTheLast(s.cleanupHooks, Hooks(ops), n);
  }

  lemma FromTheLast(ids: seq<Id>, changes: seq<Change>, n: nat)
    requires InOrder(ids, changes) && n <= |ids|
    ensures var started := Reverse(ids)[..n];
      && (forall i | 0 <= i < |started| :: IsLive(changes, started[i]))
      && (forall i, j, k: nat, m: nat | 0 <= i < j < |started|
            && LiveSince(changes, started[i], k) && LiveSince(changes, started[j], m) :: k > m)
      && (forall id, i, k: nat, m: nat | 0 <= i < |started| && id !in started
            && LiveSince(changes, started[i], k) && LiveSince(changes, id, m) :: k > m)
  {
    var started := Reverse(ids)[..n];
    forall i | 0 <= i < |ids| ensures Reverse(ids)[i] == ids[|ids| - 1 - i] {
      ReverseAt(ids, i);
    }
    forall a | |ids| - n <= a < |ids| ensures ids[a] in started {
      assert started[|ids| - 1 - a] == ids[a];
    }
    forall i | 0 <= i < |started| ensures IsLive(changes, started[i]) {
      assert started[i] == ids[|ids| - 1 - i] && ids[|ids| - 1 - i] in ids;
    }
    forall id, i, k: nat, m: nat | 0 <= i < |started| && id !in started
            && LiveSince(changes, started[i], k) && LiveSince(changes, id, m) ensures k > m {
      assert id in ids;
      var j :| 0 <= j < |ids| && ids[j] == id;
      assert ids[j] !in started;
      assert started[i] == ids[|ids| - 1 - i];
    }
  }

  // ----- What becomes of each step --------------------------------------------------

  function SettledIn(log: seq<Event>, progress: Id): nat {
    if log == [] then 0
    else SettledIn(log[..|log| - 1], progress) + (if log[|log| - 1].StepSettled? && log[|log| - 1].progress == progress then 1 else 0)
  }

  function WrittenIn(ops: seq<Op>, progress: Id): nat {
    if ops == [] then 0 else (if ops[0] == WriteStep(progress) then 1 else 0) + WrittenIn(ops[1..], progress)
  }

  function InFlight(s: State, progress: Id): nat {
    if progress in s.active then 1 else 0
  }

  /** Steps settled so far and the one in flight. */
  function Begun(s: State, progress: Id): nat {
    SettledIn(s.log, progress) + InFlight(s, progress)
  }

  lemma SaySettled(s: State, event: Event, progress: Id)
    ensures SettledIn(Say(s, event).log, progress) ==
      SettledIn(s.log, progress) + if event.StepSettled? && event.progress == progress then 1 else 0
  {
    assert (s.log + [event])[..|s.log|] == s.log;
  }

  lemma SyncKeepsSteps(s: State)
    ensures SyncIntercept(s).log == s.log && SyncIntercept(s).active == s.active && SyncIntercept(s).trees == s.trees
  {
  }

  lemma SettleCounts(s: State, step: Id, ending: Ending, progress: Id)
    ensures Begun(Settle(s, step, ending), progress) == Begun(s, progress)
  {
    hide SettledIn, SyncIntercept, Without;
    if step in s.active {
      SyncKeepsSteps(s.(active := s.active - {step}, stepsInFlight := Without(s.stepsInFlight, step)));
      var synced := SyncIntercept(s.(active := s.active - {step}, stepsInFlight := Without(s.stepsInFlight, step)));
      SaySettled(synced, StepSettled(step, ending), progress);
    }
  }

  lemma CloseCounts(s: State, step: Id, progress: Id)
    ensures Begun(Close(s, step), progress) == Begun(s, progress)
  {
    hide SettledIn;
    SaySettled(s.(trees := s.trees - {step}), TreeClosed(step), progress);
  }

  lemma {:induction false} SettleAllCounts(s: State, steps: seq<Id>, progress: Id)
    ensures Begun(SettleAll(s, steps), progress) == Begun(s, progress)
    decreases |steps|
  {
    if steps != [] {
      hide Settle, Close, Begun;
      SettleCounts(s, steps[0], AsCancelled, progress);
      CloseCounts(Settle(s, steps[0], AsCancelled), steps[0], progress);
      SettleAllCounts(Close(Settle(s, steps[0], AsCancelled), steps[0]), steps[1..], progress);
    }
  }

  lemma PressCounts(s: State, signal: Signal, progress: Id)
    ensures Begun(NotifyInterrupt(s, signal), progress) == Begun(s, progress)
  {
    hide SettleAll, SettledIn;
    if s.interruptHandlers != [] {
      SaySettled(s, HandlerCalled(s.interruptHandlers[|s.interruptHandlers| - 1]), progress);
    } else if s.leaving.None? {
      var code := if signal.SIGTERM? then 143 else 130;
      SettleAllCounts(s.(leaving := Some(Leave(code, [], 0))), s.stepsInFlight, progress);
      var settled := SettleAll(s.(leaving := Some(Leave(code, [], 0))), s.stepsInFlight);
      var order := Reverse(settled.cleanupHooks);
      if order != [] {
        SaySettled(settled.(leaving := Some(Leave(code, order, 1))), HookStarted(order[0]), progress);
      }
    }
  }

  lemma CallCounts(s: State, exit: Exit, code: Option<int>, progress: Id)
    ensures Begun(CallExit(s, exit, code), progress) == Begun(s, progress)
  {
    hide NotifyInterrupt, Begun;
    ExitReachesGenuine(s, exit, code);
    PressCounts(s, SIGINT, progress);
    ExitedCounts(s, code, progress);
  }

  lemma ExitedCounts(s: State, code: Option<int>, progress: Id)
    ensures Begun(Say(s, Exited(code)), progress) == Begun(s, progress)
  {
    hide SettledIn;
    SaySettled(s, Exited(code), progress);
  }

  lemma SettledIsOut(s: State, step: Id, ending: Ending)
    ensures step !in Settle(s, step, ending).active
  {
  }

  lemma WriteCounts(s: State, step: Id, progress: Id)
    ensures Begun(Write(s, step), progress) == Begun(s, progress) + if step == progress then 1 else 0
  {
    var drawn := s.(trees := s.trees + {step});
    SettleCounts(drawn, step, AsDone, progress);
    SettledIsOut(drawn, step, AsDone);
    hide SyncIntercept, SettledIn, Settle, Added;
    var settled := Settle(drawn, step, AsDone);
    SyncKeepsSteps(settled.(active := settled.active + {step}, stepsInFlight := Added(settled.stepsInFlight, step)));
  }

  lemma HookEndCounts(s: State, threw: bool, progress: Id)
    ensures Begun(Apply(s, HookEnds(threw)), progress) == Begun(s, progress)
  {
    hide SettledIn, CallExit;
    if s.leaving.Some? {
      var leave := s.leaving.value;
      if leave.started < |leave.order| {
        SaySettled(s.(leaving := Some(leave.(started := leave.started + 1))), HookStarted(leave.order[leave.started]), progress);
      } else {
        CallCounts(s.(leaving := None), s.exit, Some(leave.code), progress);
      }
    }
  }

  lemma ApplyCounts(s: State, op: Op, progress: Id)
    ensures Begun(Apply(s, op), progress) == Begun(s, progress) + if op == WriteStep(progress) then 1 else 0
  {
    hide NotifyInterrupt, CallExit, Write, Settle, Close, Proceed;
    match op
    case WriteStep(step) => WriteCounts(s, step, progress);
    case SettleStep(step, ending) => SettleCounts(s, step, ending, progress);
    case Finish(step, ending) =>
      SettleCounts(s, step, ending, progress);
      CloseCounts(Settle(s, step, ending), step, progress);
    case Receive(signal) =>
      PressCounts(s, signal, progress);
      ExitedCounts(s, None, progress);
    case Call(code) => CallCounts(s, s.exit, code, progress);
    case HookEnds(threw) => HookEndCounts(s, threw, progress);
    case _ =>
  }

  lemma {:induction false} RunCounts(s: State, ops: seq<Op>, progress: Id)
    ensures Begun(Run(s, ops), progress) == Begun(s, progress) + WrittenIn(ops, progress)
    decreases |ops|
  {
    if ops != [] {
      hide Apply, Begun;
      ApplyCounts(s, ops[0], progress);
      RunCounts(Apply(s, ops[0]), ops[1..], progress);
    }
  }

  /** After anything at all: every step that was written is settled exactly once, but the one
      that is still in flight. */
  lemma EveryStepSettledOnce(ops: seq<Op>, progress: Id)
    ensures var s := Run(Initial, ops);
      SettledIn(s.log, progress) + (if progress in s.active then 1 else 0) == WrittenIn(ops, progress)
  {
    RunCounts(Initial, ops, progress);
  }

  /** A new step settles the one before as done, an ending as it says, and each but once. */
  lemma SettledAs(s: State, progress: Id, ending: Ending)
    ensures Apply(s, SettleStep(progress, ending)).log == s.log + if progress in s.active then [StepSettled(progress, ending)] else []
    ensures Apply(s, WriteStep(progress)).log == s.log + if progress in s.active then [StepSettled(progress, AsDone)] else []
    ensures Apply(s, Finish(progress, ending)).log ==
      Apply(s, SettleStep(progress, ending)).log + if progress in s.trees then [TreeClosed(progress)] else []
    ensures var written := Apply(s, WriteStep(progress));
      progress in written.active && progress in written.trees
    ensures var finished := Apply(s, Finish(progress, ending));
      progress !in finished.active && progress !in finished.trees
  {
    hide SyncIntercept, Without;
    var drawn := s.(trees := s.trees + {progress});
    SyncKeepsSteps(s.(active := s.active - {progress}, stepsInFlight := Without(s.stepsInFlight, progress)));
    SyncKeepsSteps(drawn.(active := s.active - {progress}, stepsInFlight := Without(s.stepsInFlight, progress)));
    var settled := Settle(drawn, progress, AsDone);
    SyncKeepsSteps(settled.(active := settled.active + {progress}, stepsInFlight := Added(settled.stepsInFlight, progress)));
  }
}
