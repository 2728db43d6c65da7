/** The interrupt manager's module state and the code that changes it
    (cli/src/progress.ts), each operation proved to make its transition. */
module InterruptManager {
  import opened Wrappers
  import opened Interrupts

  class Manager {
    var interruptHandlers: seq<Id>
    var cleanupHooks: seq<Id>
    var stepsInFlight: seq<Id>
    var restoreExit: Option<Exit>
    var sigintListener: bool
    var sigtermListener: bool
    var leaving: Option<Leave>
    var exit: Exit
    var active: set<Id>
    var trees: set<Id>
    var serial: nat
    var log: seq<Event>

    function Now(): State
      reads this
    {
      State(interruptHandlers, cleanupHooks, stepsInFlight, restoreExit, sigintListener, sigtermListener,
            leaving, exit, active, trees, serial, log)
    }

    constructor ()
      ensures Now() == Initial
    {
      interruptHandlers, cleanupHooks, stepsInFlight := [], [], [];
      restoreExit, sigintListener, sigtermListener, leaving := None, false, false, None;
      exit, active, trees, serial, log := Genuine, {}, {}, 0, [];
    }

    predicate Listening()
      reads this
    {
      interruptHandlers != [] || cleanupHooks != []
    }

    /** One listener per signal, attached or removed only when that changes. */
    method SyncSignalListener(wanted: bool, current: bool) returns (listener: bool)
      ensures listener == wanted
    {
      if wanted == current {
        return current;
      }
      if current {
        return false;
      }
      return true;
    }

    method SyncSignalListeners()
      modifies this`sigintListener, this`sigtermListener
      ensures Now() == SyncSignals(old(Now()))
    {
      sigintListener := SyncSignalListener(Listening(), sigintListener);
      sigtermListener := SyncSignalListener(cleanupHooks != [], sigtermListener);
    }

    method SyncCancelIntercept()
      modifies this`exit, this`restoreExit, this`serial
      ensures Now() == SyncIntercept(old(Now()))
    {
      var wanted := Listening() && stepsInFlight != [];
      if wanted == restoreExit.Some? {
        return;
      }
      if !wanted {
        if exit == restoreExit.value && exit.Ours? {
          exit := exit.original;
        }
        restoreExit := None;
        return;
      }
      var intercept := Ours(serial, exit);
      serial := serial + 1;
      exit := intercept;
      restoreExit := Some(intercept);
    }

    method OnInterrupt(id: Id)
      modifies this
      ensures Now() == Apply(old(Now()), Register(id))
    {
      interruptHandlers := Added(interruptHandlers, id);
      SyncSignalListeners();
      SyncCancelIntercept();
    }

    method DisposeInterrupt(id: Id)
      modifies this
      ensures Now() == Apply(old(Now()), Dispose(id))
    {
      interruptHandlers := Without(interruptHandlers, id);
      SyncSignalListeners();
      SyncCancelIntercept();
    }

    method OnInterruptCleanup(id: Id)
      modifies this
      ensures Now() == Apply(old(Now()), RegisterHook(id))
    {
      cleanupHooks := Added(cleanupHooks, id);
      SyncSignalListeners();
      SyncCancelIntercept();
    }

    method DisposeCleanup(id: Id)
      modifies this
      ensures Now() == Apply(old(Now()), DisposeHook(id))
    {
      cleanupHooks := Without(cleanupHooks, id);
      SyncSignalListeners();
      SyncCancelIntercept();
    }

    method SettleStep(progress: Id, ending: Ending)
      modifies this
      ensures Now() == Settle(old(Now()), progress, ending)
    {
      if progress !in active {
        return;
      }
      active := active - {progress};
      stepsInFlight := Without(stepsInFlight, progress);
      SyncCancelIntercept();
      log := log + [StepSettled(progress, ending)];
    }

    method CloseTree(progress: Id)
      modifies this
      ensures Now() == Close(old(Now()), progress)
    {
      if progress !in trees {
        return;
      }
      trees := trees - {progress};
      log := log + [TreeClosed(progress)];
    }

    method WriteStep(progress: Id)
      modifies this
      ensures Now() == Write(old(Now()), progress)
    {
      if progress !in trees {
        trees := trees + {progress};
      }
      assert Now() == old(Now()).(trees := old(Now()).trees + {progress});
      SettleStep(progress, AsDone);
      active := active + {progress};
      stepsInFlight := Added(stepsInFlight, progress);
      SyncCancelIntercept();
    }

    method NotifyInterrupt(signal: Signal)
      modifies this
      ensures Now() == Interrupts.NotifyInterrupt(old(Now()), signal)
    {
      if interruptHandlers != [] {
        log := log + [HandlerCalled(interruptHandlers[|interruptHandlers| - 1])];
        return;
      }
      LeaveAfterCleanup(if signal.SIGTERM? then 143 else 130);
    }

    method LeaveAfterCleanup(code: int)
      modifies this
      ensures Now() == Interrupts.LeaveAfterCleanup(old(Now()), code)
    {
      if leaving.Some? {
        return;
      }
      hide Settle, Close, Reverse;
      leaving := Some(Leave(code, [], 0));
      ghost var settled := SettleAll(Now(), stepsInFlight);
      var steps := stepsInFlight;
      var k := 0;
      while k < |steps|
        invariant 0 <= k <= |steps|
        invariant settled == SettleAll(Now(), steps[k..])
        invariant leaving == Some(Leave(code, [], 0))
      {
        assert steps[k..][1..] == steps[k + 1..];
        SettleAllStep(Now(), steps[k..]);
        SettleStep(steps[k], AsCancelled);
        CloseTree(steps[k]);
        k := k + 1;
      }
      assert steps[k..] == [];
      var hooks := Reverse(cleanupHooks);
      if hooks != [] {
        log := log + [HookStarted(hooks[0])];
        leaving := Some(Leave(code, hooks, 1));
      }
    }

    /** The next hook of the loop, or the exit in its `finally`. */
    method HookEnded(threw: bool)
      modifies this
      ensures Now() == Apply(old(Now()), HookEnds(threw))
    {
      if leaving.None? {
        return;
      }
      var leave := leaving.value;
      if leave.started < |leave.order| {
        leaving := Some(leave.(started := leave.started + 1));
        log := log + [HookStarted(leave.order[leave.started])];
        return;
      }
      leaving := None;
      ProcessExit(exit, Some(leave.code));
    }

    /** A call of `process.exit`, or of a function that used to be it. */
    method ProcessExit(f: Exit, code: Option<int>)
      modifies this
      ensures Now() == CallExit(old(Now()), f, code)
      decreases f
    {
      match f {
        case Genuine => log := log + [Exited(code)];
        case Foreign(inner) => ProcessExit(inner, code);
        case Ours(_, original) =>
          var claimed := (code == None || code == Some(0)) && Listening() && stepsInFlight != [];
          if claimed {
            NotifyInterrupt(SIGINT);
          } else {
            ProcessExit(original, code);
          }
      }
    }
  }
}
