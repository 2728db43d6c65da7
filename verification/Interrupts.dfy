/** What Ctrl-C, a signal and `process.exit` mean while steps animate, waits wait and
    clean-ups stand ready: the transitions of the interrupt manager (cli/src/progress.ts). */
module Interrupts {
  import opened Wrappers

  type Id = nat

  datatype Signal = SIGINT | SIGTERM

  /** A value of `process.exit`: the genuine one, one of our wrappers (each a function of
      its own), or somebody else's around what it found. */
  datatype Exit = Genuine | Ours(serial: nat, original: Exit) | Foreign(inner: Exit)

  datatype Ending = AsDone | AsCancelled | AsFailed

  datatype Event =
    | HandlerCalled(id: Id)
    | StepSettled(progress: Id, ending: Ending)
    | TreeClosed(progress: Id)
    | HookStarted(id: Id)
    | Exited(code: Option<int>)

  /** The clean-up under way: its exit code, the hooks to run, how many have started. */
  datatype Leave = Leave(code: int, order: seq<Id>, started: nat)

  datatype State = State(
    interruptHandlers: seq<Id>,
    cleanupHooks: seq<Id>,
    stepsInFlight: seq<Id>,
    restoreExit: Option<Exit>,       // the wrapper that is lent, while it is
    sigintListener: bool,
    sigtermListener: bool,
    leaving: Option<Leave>,
    exit: Exit,
    active: set<Id>,                 // the Progress objects with a step in flight
    trees: set<Id>,                  // the ones whose tree is drawn and not closed
    serial: nat,
    log: seq<Event>)

  const Initial := State([], [], [], None, false, false, None, Genuine, {}, {}, 0, [])

  function Say(s: State, event: Event): State {
    s.(log := s.log + [event])
  }

  function Without(ids: seq<Id>, id: Id): seq<Id> {
    if ids == [] then [] else (if ids[0] == id then [] else [ids[0]]) + Without(ids[1..], id)
  }

  function Added(ids: seq<Id>, id: Id): seq<Id> {
    if id in ids then ids else ids + [id]
  }

  predicate AnyoneListening(s: State) {
    s.interruptHandlers != [] || s.cleanupHooks != []
  }

  /** The window in which clack's exit stands for an interrupt. */
  predicate Window(s: State) {
    AnyoneListening(s) && s.stepsInFlight != []
  }

  // ----- Keeping listeners and wrapper in step --------------------------------

  function SyncSignals(s: State): State {
    s.(sigintListener := AnyoneListening(s), sigtermListener := s.cleanupHooks != [])
  }

  function SyncIntercept(s: State): State {
    if Window(s) == s.restoreExit.Some? then s
    else if Window(s) then
      var intercept := Ours(s.serial, s.exit);
      s.(exit := intercept, restoreExit := Some(intercept), serial := s.serial + 1)
    else
      s.(restoreExit := None,
         exit := if s.exit == s.restoreExit.value && s.exit.Ours? then s.exit.original else s.exit)
  }

  function Sync(s: State): State {
    SyncIntercept(SyncSignals(s))
  }

  // ----- Steps ----------------------------------------------------------------

  function Settle(s: State, progress: Id, ending: Ending): State {
    if progress !in s.active then s
    else
      Say(SyncIntercept(s.(active := s.active - {progress}, stepsInFlight := Without(s.stepsInFlight, progress))),
          StepSettled(progress, ending))
  }

  function Close(s: State, progress: Id): State {
    if progress !in s.trees then s else Say(s.(trees := s.trees - {progress}), TreeClosed(progress))
  }

  function Write(s: State, progress: Id): State {
    var settled := Settle(s.(trees := s.trees + {progress}), progress, AsDone);
    SyncIntercept(settled.(active := settled.active + {progress}, stepsInFlight := Added(settled.stepsInFlight, progress)))
  }

  // ----- A press --------------------------------------------------------------

  function SettleAll(s: State, steps: seq<Id>): State
    decreases |steps|
  {
    if steps == [] then s else SettleAll(Close(Settle(s, steps[0], AsCancelled), steps[0]), steps[1..])
  }

  function Reverse(ids: seq<Id>): (r: seq<Id>)
    ensures |r| == |ids|
  {
    if ids == [] then [] else Reverse(ids[1..]) + [ids[0]]
  }

  /** Start the next hook, or leave for good when every one has ended. */
  function Proceed(s: State, leave: Leave): State {
    if leave.started < |leave.order| then
      Say(s.(leaving := Some(leave.(started := leave.started + 1))), HookStarted(leave.order[leave.started]))
    else CallExit(s.(leaving := None), s.exit, Some(leave.code))
  }

  function LeaveAfterCleanup(s: State, code: int): State {
    if s.leaving.Some? then s
    else
      var settled := SettleAll(s.(leaving := Some(Leave(code, [], 0))), s.stepsInFlight);
      var order := Reverse(settled.cleanupHooks);
      if order == [] then settled.(leaving := Some(Leave(code, [], 0)))
      else Say(settled.(leaving := Some(Leave(code, order, 1))), HookStarted(order[0]))
  }

  function NotifyInterrupt(s: State, signal: Signal): State {
    if s.interruptHandlers != [] then Say(s, HandlerCalled(s.interruptHandlers[|s.interruptHandlers| - 1]))
    else LeaveAfterCleanup(s, if signal.SIGTERM? then 143 else 130)
  }

  predicate ReadsAsZero(code: Option<int>) {
    code == None || code == Some(0)
  }

  /** Calling a value of `process.exit`. */
  function CallExit(s: State, exit: Exit, code: Option<int>): State
    decreases exit
  {
    match exit
    case Genuine => Say(s, Exited(code))
    case Foreign(inner) => CallExit(s, inner, code)
    case Ours(_, original) =>
      if ReadsAsZero(code) && Window(s) then NotifyInterrupt(s, SIGINT) else CallExit(s, original, code)
  }

  // ----- Anything that can happen ---------------------------------------------

  datatype Op =
    | Register(id: Id)
    | Dispose(id: Id)
    | RegisterHook(id: Id)
    | DisposeHook(id: Id)
    | WriteStep(progress: Id)
    | SettleStep(progress: Id, ending: Ending)
    | Finish(progress: Id, ending: Ending)
    | Receive(signal: Signal)
    | Call(code: Option<int>)
    | HookEnds(threw: bool)
    | Wrap
    | Unwrap

  /** A signal without a listener ends the process the default way. */
  function Apply(s: State, op: Op): State {
    match op
    case Register(id) => Sync(s.(interruptHandlers := Added(s.interruptHandlers, id)))
    case Dispose(id) => Sync(s.(interruptHandlers := Without(s.interruptHandlers, id)))
    case RegisterHook(id) => Sync(s.(cleanupHooks := Added(s.cleanupHooks, id)))
    case DisposeHook(id) => Sync(s.(cleanupHooks := Without(s.cleanupHooks, id)))
    case WriteStep(progress) => Write(s, progress)
    case SettleStep(progress, ending) => Settle(s, progress, ending)
    case Finish(progress, ending) => Close(Settle(s, progress, ending), progress)
    case Receive(signal) =>
      if (if signal.SIGTERM? then s.sigtermListener else s.sigintListener) then NotifyInterrupt(s, signal)
      else Say(s, Exited(None))
    case Call(code) => CallExit(s, s.exit, code)
    case HookEnds(_) => if s.leaving.Some? then Proceed(s, s.leaving.value) else s
    case Wrap => s.(exit := Foreign(s.exit))
    case Unwrap => if s.exit.Foreign? then s.(exit := s.exit.inner) else s
  }

  function Run(s: State, ops: seq<Op>): State
    decreases |ops|
  {
    if ops == [] then s else Run(Apply(s, ops[0]), ops[1..])
  }

  // ----- What every run keeps --------------------------------------------------

  predicate NoDuplicates(ids: seq<Id>) {
    forall i, j | 0 <= i < j < |ids| :: ids[i] != ids[j]
  }

  /** The wrapper is lent exactly in the window, each signal is listened for exactly while
      someone wants it, and a Progress has at most one step in flight. */
  ghost predicate Inv(s: State) {
    && (s.restoreExit.Some? <==> Window(s))
    && (s.restoreExit.Some? ==> s.restoreExit.value.Ours?)
    && (s.sigintListener <==> AnyoneListening(s))
    && (s.sigtermListener <==> s.cleanupHooks != [])
    && NoDuplicates(s.interruptHandlers) && NoDuplicates(s.cleanupHooks) && NoDuplicates(s.stepsInFlight)
    && (forall p :: p in s.active <==> p in s.stepsInFlight)
    && (s.leaving.Some? ==> s.leaving.value.started <= |s.leaving.value.order|)
  }

  lemma {:induction false} WithoutIs(ids: seq<Id>, id: Id)
    ensures id !in Without(ids, id)
    ensures forall other | other != id :: other in Without(ids, id) <==> other in ids
    ensures NoDuplicates(ids) ==> NoDuplicates(Without(ids, id))
    decreases |ids|
  {
    if ids != [] {
      WithoutIs(ids[1..], id);
      assert ids == [ids[0]] + ids[1..];
      if NoDuplicates(ids) {
        assert ids[0] !in ids[1..];
        assert ids[0] !in Without(ids[1..], id);
      }
    }
  }

  lemma SettleKeeps(s: State, progress: Id, ending: Ending)
    requires Inv(s)
    ensures Inv(Settle(s, progress, ending))
    ensures progress !in Settle(s, progress, ending).stepsInFlight
    ensures forall p | p != progress :: p in Settle(s, progress, ending).stepsInFlight <==> p in s.stepsInFlight
  {
    WithoutIs(s.stepsInFlight, progress);
  }

  lemma WriteKeeps(s: State, progress: Id)
    requires Inv(s)
    ensures Inv(Write(s, progress)) && progress in Write(s, progress).stepsInFlight
  {
    SettleKeeps(s.(trees := s.trees + {progress}), progress, AsDone);
  }

  /** What a press that leaves does not touch. */
  predicate SameWaits(s: State, t: State) {
    t.interruptHandlers == s.interruptHandlers && t.cleanupHooks == s.cleanupHooks && t.leaving == s.leaving
  }

  lemma CancelKeeps(s: State, progress: Id)
    requires Inv(s)
    ensures var next := Close(Settle(s, progress, AsCancelled), progress);
      && Inv(next) && SameWaits(s, next) && progress !in next.stepsInFlight
      && forall p | p != progress :: p in next.stepsInFlight <==> p in s.stepsInFlight
  {
    SettleKeeps(s, progress, AsCancelled);
  }

  lemma {:induction false} SettleAllKeeps(s: State, steps: seq<Id>)
    requires Inv(s)
    ensures Inv(SettleAll(s, steps)) && SameWaits(s, SettleAll(s, steps))
    ensures forall p :: p in SettleAll(s, steps).stepsInFlight <==> p in s.stepsInFlight && p !in steps
    decreases |steps|
  {
    hide Settle, Close, Inv;
    if steps != [] {
      CancelKeeps(s, steps[0]);
      SettleAllKeeps(Close(Settle(s, steps[0], AsCancelled), steps[0]), steps[1..]);
    }
  }

  lemma SettleAllStep(s: State, steps: seq<Id>)
    requires steps != []
    ensures var next := Close(Settle(s, steps[0], AsCancelled), steps[0]);
      SettleAll(s, steps) == SettleAll(next, steps[1..]) && next.leaving == s.leaving
  {
  }

  lemma SomeMember(ids: seq<Id>)
    ensures ids == [] || exists id :: id in ids
  {
    if ids != [] {
      assert ids[0] in ids;
    }
  }

  lemma LeaveKeeps(s: State, code: int)
    requires Inv(s)
    ensures Inv(LeaveAfterCleanup(s, code))
    ensures s.leaving.None? ==> LeaveAfterCleanup(s, code).stepsInFlight == []
  {
    if s.leaving.None? {
      var begun := s.(leaving := Some(Leave(code, [], 0)));
      SettleAllKeeps(begun, s.stepsInFlight);
      var steps := SettleAll(begun, s.stepsInFlight).stepsInFlight;
      SomeMember(steps);
    }
  }

  lemma {:induction false} CallExitKeeps(s: State, exit: Exit, code: Option<int>)
    requires Inv(s)
    ensures Inv(CallExit(s, exit, code))
    decreases exit
  {
    match exit
    case Genuine =>
    case Foreign(inner) => CallExitKeeps(s, inner, code);
    case Ours(_, original) =>
      if ReadsAsZero(code) && Window(s) {
        LeaveKeeps(s, 130);
      } else {
        CallExitKeeps(s, original, code);
      }
  }

  lemma SyncGives(s: State)
    requires s.restoreExit.Some? ==> s.restoreExit.value.Ours?
    requires NoDuplicates(s.interruptHandlers) && NoDuplicates(s.cleanupHooks) && NoDuplicates(s.stepsInFlight)
    requires forall p :: p in s.active <==> p in s.stepsInFlight
    requires s.leaving.Some? ==> s.leaving.value.started <= |s.leaving.value.order|
    ensures Inv(Sync(s))
  {
  }

  lemma RegistrationKeeps(s: State, op: Op)
    requires Inv(s) && (op.Register? || op.Dispose? || op.RegisterHook? || op.DisposeHook?)
    ensures Inv(Apply(s, op))
  {
    WithoutIs(s.interruptHandlers, op.id);
    WithoutIs(s.cleanupHooks, op.id);
    match op
    case Register(id) => SyncGives(s.(interruptHandlers := Added(s.interruptHandlers, id)));
    case Dispose(id) => SyncGives(s.(interruptHandlers := Without(s.interruptHandlers, id)));
    case RegisterHook(id) => SyncGives(s.(cleanupHooks := Added(s.cleanupHooks, id)));
    case DisposeHook(id) => SyncGives(s.(cleanupHooks := Without(s.cleanupHooks, id)));
  }

  lemma PressKeeps(s: State, signal: Signal)
    requires Inv(s)
    ensures Inv(NotifyInterrupt(s, signal))
  {
    LeaveKeeps(s, if signal.SIGTERM? then 143 else 130);
  }

  lemma ProceedKeeps(s: State)
    requires Inv(s) && s.leaving.Some?
    ensures Inv(Proceed(s, s.leaving.value))
  {
    CallExitKeeps(s.(leaving := None), s.exit, Some(s.leaving.value.code));
  }

  lemma ApplyKeeps(s: State, op: Op)
    requires Inv(s)
    ensures Inv(Apply(s, op))
  {
    match op
    case WriteStep(progress) => WriteKeeps(s, progress);
    case SettleStep(progress, ending) => SettleKeeps(s, progress, ending);
    case Finish(progress, ending) => SettleKeeps(s, progress, ending);
    case Receive(signal) => PressKeeps(s, signal);
    case Call(code) => CallExitKeeps(s, s.exit, code);
    case HookEnds(_) => if s.leaving.Some? { ProceedKeeps(s); }
    case Wrap =>
    case Unwrap =>
    case _ => RegistrationKeeps(s, op);
  }

  /** After any sequence of registrations, steps, presses, exits, and other owners'
      wrappings of `process.exit`. */
  lemma {:induction false} InvAlways(s: State, ops: seq<Op>)
    requires Inv(s)
    ensures Inv(Run(s, ops))
    decreases |ops|
  {
    if ops != [] {
      ApplyKeeps(s, ops[0]);
      InvAlways(Apply(s, ops[0]), ops[1..]);
    }
  }

  /** The theorems about states that keep `Inv` are about every state the module can be in. */
  lemma InvReachable(ops: seq<Op>)
    ensures Inv(Run(Initial, ops))
  {
    InvAlways(Initial, ops);
  }

  // ----- The exit chain -------------------------------------------------------

  predicate HoldsOurs(exit: Exit) {
    match exit
    case Genuine => false
    case Ours(_, _) => true
    case Foreign(inner) => HoldsOurs(inner)
  }

  /** However `process.exit` has been wrapped: one of our wrappers claims the call exactly
      when it reads as zero inside the window; every other call reaches the genuine exit
      with its own code, and changes nothing else. */
  lemma {:induction false} ExitReachesGenuine(s: State, exit: Exit, code: Option<int>)
    ensures CallExit(s, exit, code) ==
      if HoldsOurs(exit) && ReadsAsZero(code) && Window(s) then NotifyInterrupt(s, SIGINT) else Say(s, Exited(code))
    decreases exit
  {
    match exit
    case Genuine =>
    case Foreign(inner) => ExitReachesGenuine(s, inner, code);
    case Ours(_, original) =>
      if !(ReadsAsZero(code) && Window(s)) {
        ExitReachesGenuine(s, original, code);
      }
  }

  predicate NobodyElse(ops: seq<Op>) {
    forall k | 0 <= k < |ops| :: !ops[k].Wrap? && !ops[k].Unwrap?
  }

  /** With no other owner: ours over the genuine exit in the window, the genuine one outside. */
  ghost predicate ExitOurs(s: State) {
    match s.restoreExit
    case None => s.exit == Genuine
    case Some(intercept) => s.exit == intercept && intercept.Ours? && intercept.original == Genuine
  }

  lemma {:induction false} SettleAllExit(s: State, steps: seq<Id>)
    requires ExitOurs(s)
    ensures ExitOurs(SettleAll(s, steps))
    decreases |steps|
  {
    if steps != [] {
      SettleAllExit(Close(Settle(s, steps[0], AsCancelled), steps[0]), steps[1..]);
    }
  }

  lemma LeaveExit(s: State, code: int)
    requires ExitOurs(s)
    ensures ExitOurs(LeaveAfterCleanup(s, code))
  {
    SettleAllExit(s.(leaving := Some(Leave(code, [], 0))), s.stepsInFlight);
  }

  lemma PressExit(s: State, signal: Signal)
    requires ExitOurs(s)
    ensures ExitOurs(NotifyInterrupt(s, signal))
  {
    LeaveExit(s, if signal.SIGTERM? then 143 else 130);
  }

  lemma CallExitOurs(s: State, code: Option<int>)
    requires ExitOurs(s)
    ensures ExitOurs(CallExit(s, s.exit, code))
  {
    ExitReachesGenuine(s, s.exit, code);
    PressExit(s, SIGINT);
  }

  lemma SettleExit(s: State, progress: Id, ending: Ending)
    requires ExitOurs(s)
    ensures ExitOurs(Settle(s, progress, ending))
  {
  }

  lemma SyncExit(s: State)
    requires ExitOurs(s)
    ensures ExitOurs(SyncIntercept(s))
  {
  }

  lemma StepExit(s: State, op: Op)
    requires ExitOurs(s) && (op.WriteStep? || op.SettleStep? || op.Finish?)
    ensures ExitOurs(Apply(s, op))
  {
    hide Settle, SyncIntercept;
    var drawn := s.(trees := s.trees + {op.progress});
    SettleExit(drawn, op.progress, AsDone);
    var settled := Settle(drawn, op.progress, AsDone);
    SyncExit(settled.(active := settled.active + {op.progress}, stepsInFlight := Added(settled.stepsInFlight, op.progress)));
    if !op.WriteStep? {
      SettleExit(s, op.progress, op.ending);
    }
  }

  lemma ApplyExit(s: State, op: Op)
    requires ExitOurs(s) && !op.Wrap? && !op.Unwrap?
    ensures ExitOurs(Apply(s, op))
  {
    match op
    case Receive(signal) => PressExit(s, signal);
    case Call(code) => CallExitOurs(s, code);
    case HookEnds(_) =>
      if s.leaving.Some? {
        CallExitOurs(s.(leaving := None), Some(s.leaving.value.code));
      }
    case Register(_) =>
    case Dispose(_) =>
    case RegisterHook(_) =>
    case DisposeHook(_) =>
    case _ => StepExit(s, op);
  }

  lemma {:induction false} ExitRestored(s: State, ops: seq<Op>)
    requires ExitOurs(s) && NobodyElse(ops)
    ensures ExitOurs(Run(s, ops))
    decreases |ops|
  {
    if ops != [] {
      ApplyExit(s, ops[0]);
      ExitRestored(Apply(s, ops[0]), ops[1..]);
    }
  }

  /** From the start on, while nobody else wraps `process.exit`: outside the window it is
      the genuine one. */
  lemma ExitReachable(ops: seq<Op>)
    requires NobodyElse(ops)
    ensures ExitOurs(Run(Initial, ops))
    ensures !Window(Run(Initial, ops)) ==> Run(Initial, ops).exit == Genuine
  {
    ExitRestored(Initial, ops);
    InvReachable(ops);
  }

  // ----- What a press does ----------------------------------------------------

  /** While a wait listens, a press is its innermost handler's and nothing else happens;
      with none, every animating step is settled as cancelled and the last hook starts. */
  lemma PressGoesInnermost(s: State, signal: Signal)
    requires Inv(s)
    ensures s.interruptHandlers != [] ==>
      NotifyInterrupt(s, signal) == Say(s, HandlerCalled(s.interruptHandlers[|s.interruptHandlers| - 1]))
    ensures s.interruptHandlers == [] && s.leaving.None? ==>
      var t := NotifyInterrupt(s, signal);
      && t.stepsInFlight == [] && t.active == {} && t.restoreExit.None?
      && t.cleanupHooks == s.cleanupHooks
      && s.log <= t.log && (forall p | p in s.stepsInFlight :: StepSettled(p, AsCancelled) in t.log[|s.log|..])
      && t.leaving == Some(Leave(if signal.SIGTERM? then 143 else 130, Reverse(s.cleanupHooks), if s.cleanupHooks == [] then 0 else 1))
    ensures s.interruptHandlers == [] && s.leaving.Some? ==> NotifyInterrupt(s, signal) == s
  {
    if s.interruptHandlers == [] && s.leaving.None? {
      var code := if signal.SIGTERM? then 143 else 130;
      var begun := s.(leaving := Some(Leave(code, [], 0)));
      LeaveKeeps(s, code);
      SettleAllKeeps(begun, s.stepsInFlight);
      SettleAllLogs(begun, s.stepsInFlight);
      var t := NotifyInterrupt(s, signal);
      assert t.active == {};
      var settled := SettleAll(begun, s.stepsInFlight);
      assert settled.log <= t.log;
    }
  }

  lemma {:induction false} SettleAllLogs(s: State, steps: seq<Id>)
    requires Inv(s) && NoDuplicates(steps) && forall k | 0 <= k < |steps| :: steps[k] in s.active
    ensures var t := SettleAll(s, steps);
      s.log <= t.log && forall p | p in steps :: StepSettled(p, AsCancelled) in t.log[|s.log|..]
    decreases |steps|
  {
    if steps != [] {
      var next := Close(Settle(s, steps[0], AsCancelled), steps[0]);
      OneSettled(s, steps[0]);
      StillActive(s, steps, next);
      SettleAllLogs(next, steps[1..]);
      LogGrows(s.log, next.log, SettleAll(next, steps[1..]).log);
      assert forall p | p in steps :: p == steps[0] || p in steps[1..];
    }
  }

  lemma StillActive(s: State, steps: seq<Id>, next: State)
    requires steps != [] && NoDuplicates(steps) && forall k | 0 <= k < |steps| :: steps[k] in s.active
    requires next.active == s.active - {steps[0]}
    ensures NoDuplicates(steps[1..]) && forall k | 0 <= k < |steps[1..]| :: steps[1..][k] in next.active
  {
    forall k | 0 <= k < |steps[1..]| ensures steps[1..][k] in next.active {
      assert steps[1..][k] == steps[k + 1];
    }
  }

  lemma LogGrows(a: seq<Event>, b: seq<Event>, c: seq<Event>)
    requires a <= b <= c
    ensures a <= c && c[|a|..] == b[|a|..] + c[|b|..]
  {
  }

  lemma OneSettled(s: State, progress: Id)
    requires Inv(s) && progress in s.active
    ensures var next := Close(Settle(s, progress, AsCancelled), progress);
      && Inv(next) && next.active == s.active - {progress}
      && s.log <= next.log && StepSettled(progress, AsCancelled) in next.log[|s.log|..]
  {
    hide Settle, Close, Inv;
    CancelKeeps(s, progress);
    CancelLogs(s, progress);
    var next := Close(Settle(s, progress, AsCancelled), progress);
    assert next.log[|s.log|] == StepSettled(progress, AsCancelled);
  }

  lemma CancelLogs(s: State, progress: Id)
    requires progress in s.active
    ensures var next := Close(Settle(s, progress, AsCancelled), progress);
      && next.active == s.active - {progress}
      && next.log == s.log + [StepSettled(progress, AsCancelled)] + (if progress in s.trees then [TreeClosed(progress)] else [])
  {
  }

  // ----- Every hook once, in reverse order ------------------------------------

  function HooksIn(log: seq<Event>): seq<Id> {
    if log == [] then []
    else HooksIn(log[..|log| - 1]) + (if log[|log| - 1].HookStarted? then [log[|log| - 1].id] else [])
  }

  /** Hook endings among what happens. */
  function Endings(ops: seq<Op>): nat {
    if ops == [] then 0 else (if ops[0].HookEnds? then 1 else 0) + Endings(ops[1..])
  }

  /** The first `n` hooks of the leave have started; nothing else about it has changed. */
  ghost predicate Underway(s: State, order: seq<Id>, code: int, before: seq<Id>, n: nat) {
    && s.leaving == Some(Leave(code, order, n)) && n <= |order|
    && HooksIn(s.log) == before + order[..n]
  }

  lemma HooksSay(s: State, event: Event)
    ensures HooksIn(Say(s, event).log) == HooksIn(s.log) + (if event.HookStarted? then [event.id] else [])
  {
    assert (s.log + [event])[..|s.log|] == s.log;
  }

  /** Nothing but a starting hook adds to the hooks. */
  lemma {:induction false} SettleAllHooks(s: State, steps: seq<Id>)
    ensures HooksIn(SettleAll(s, steps).log) == HooksIn(s.log)
    decreases |steps|
  {
    if steps != [] {
      var settled := Settle(s, steps[0], AsCancelled);
      SettleHooks(s, steps[0], AsCancelled);
      HooksSay(settled.(trees := settled.trees - {steps[0]}), TreeClosed(steps[0]));
      SettleAllHooks(Close(settled, steps[0]), steps[1..]);
    }
  }

  lemma SettleHooks(s: State, progress: Id, ending: Ending)
    ensures HooksIn(Settle(s, progress, ending).log) == HooksIn(s.log)
    ensures Settle(s, progress, ending).leaving == s.leaving
  {
    if progress in s.active {
      HooksSay(SyncIntercept(s.(active := s.active - {progress}, stepsInFlight := Without(s.stepsInFlight, progress))),
               StepSettled(progress, ending));
    }
  }

  /** A press while a leave is under way reaches a wait or nobody. */
  lemma PressWhileLeaving(s: State, signal: Signal)
    requires s.leaving.Some?
    ensures NotifyInterrupt(s, signal).leaving == s.leaving
    ensures HooksIn(NotifyInterrupt(s, signal).log) == HooksIn(s.log)
  {
    if s.interruptHandlers != [] {
      HooksSay(s, HandlerCalled(s.interruptHandlers[|s.interruptHandlers| - 1]));
    }
  }

  lemma CallWhileLeaving(s: State, code: Option<int>)
    requires s.leaving.Some?
    ensures CallExit(s, s.exit, code).leaving == s.leaving
    ensures HooksIn(CallExit(s, s.exit, code).log) == HooksIn(s.log)
  {
    ExitReachesGenuine(s, s.exit, code);
    PressWhileLeaving(s, SIGINT);
    HooksSay(s, Exited(code));
  }

  lemma FinishHooks(s: State, progress: Id, ending: Ending)
    ensures var t := Close(Settle(s, progress, ending), progress);
      t.leaving == s.leaving && HooksIn(t.log) == HooksIn(s.log)
  {
    var settled := Settle(s, progress, ending);
    SettleHooks(s, progress, ending);
    HooksSay(settled.(trees := settled.trees - {progress}), TreeClosed(progress));
  }

  lemma WriteHooks(s: State, progress: Id)
    ensures Write(s, progress).leaving == s.leaving && HooksIn(Write(s, progress).log) == HooksIn(s.log)
  {
    SettleHooks(s.(trees := s.trees + {progress}), progress, AsDone);
  }

  lemma OtherOpsKeepLeave(s: State, op: Op)
    requires s.leaving.Some? && !op.HookEnds?
    ensures Apply(s, op).leaving == s.leaving && HooksIn(Apply(s, op).log) == HooksIn(s.log)
  {
    match op
    case WriteStep(progress) => WriteHooks(s, progress);
    case SettleStep(progress, ending) => SettleHooks(s, progress, ending);
    case Finish(progress, ending) => FinishHooks(s, progress, ending);
    case Receive(signal) => PressWhileLeaving(s, signal); HooksSay(s, Exited(None));
    case Call(code) => CallWhileLeaving(s, code);
    case _ =>
  }

  lemma {:induction false} LeaveRuns(s: State, ops: seq<Op>, order: seq<Id>, code: int, before: seq<Id>, n: nat)
    requires Underway(s, order, code, before, n) && n + Endings(ops) <= |order|
    ensures Underway(Run(s, ops), order, code, before, n + Endings(ops))
    decreases |ops|
  {
    if ops != [] {
      var next := Apply(s, ops[0]);
      if ops[0].HookEnds? {
        HooksSay(s.(leaving := Some(Leave(code, order, n + 1))), HookStarted(order[n]));
        assert order[..n + 1] == order[..n] + [order[n]];
        LeaveRuns(next, ops[1..], order, code, before, n + 1);
      } else {
        OtherOpsKeepLeave(s, ops[0]);
        LeaveRuns(next, ops[1..], order, code, before, n);
      }
    }
  }

  /** A press with no wait live, and then anything at all, hooks that throw included: the
      hooks start one after the other, each once, the last registered first; and when the
      last one ends, the process really exits, 130 or 143. */
  lemma EveryHookOnce(s: State, signal: Signal, ops: seq<Op>, threw: bool)
    requires Inv(s) && s.interruptHandlers == [] && s.leaving.None? && s.cleanupHooks != []
    requires Endings(ops) < |s.cleanupHooks|
    ensures var t := Run(NotifyInterrupt(s, signal), ops);
      var code := if signal.SIGTERM? then 143 else 130;
      && HooksIn(t.log) == HooksIn(s.log) + Reverse(s.cleanupHooks)[..Endings(ops) + 1]
      && (Endings(ops) + 1 == |s.cleanupHooks| ==>
            Apply(t, HookEnds(threw)) == Say(t.(leaving := None), Exited(Some(code))))
  {
    var code := if signal.SIGTERM? then 143 else 130;
    var begun := s.(leaving := Some(Leave(code, [], 0)));
    var pressed := NotifyInterrupt(s, signal);
    var order := Reverse(s.cleanupHooks);
    SettleAllKeeps(begun, s.stepsInFlight);
    SettleAllHooks(begun, s.stepsInFlight);
    var settled := SettleAll(begun, s.stepsInFlight);
    HooksSay(settled.(leaving := Some(Leave(code, order, 1))), HookStarted(order[0]));
    assert order[..1] == [order[0]];
    LeaveRuns(pressed, ops, order, code, HooksIn(s.log), 1);
    var t := Run(pressed, ops);
    ExitReachesGenuine(t.(leaving := None), t.exit, Some(code));
  }

  /** `Reverse` is the registration order backwards. */
  lemma {:induction false} ReverseAt(ids: seq<Id>, k: nat)
    requires k < |ids|
    ensures Reverse(ids)[k] == ids[|ids| - 1 - k]
    decreases |ids|
  {
    if k < |ids| - 1 {
      ReverseAt(ids[1..], k);
    }
  }
}
