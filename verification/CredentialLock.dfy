/** The credential file and its lock file as the code changes them
    (cli/src/credentialStore.ts). Each method is one run's code; what other runs do
    between its file operations is an arbitrary sequence of protocol steps. */
module CredentialLock {
  import opened Wrappers
  import opened CredentialProtocol

  predicate NotBy(i: nat, step: Step) {
    step.Go? ==> step.run != i
  }

  /** What the rest of the world does during one of a run's pauses. */
  type Schedule = seq<Step>

  class Files {
    var g: Shared
    /** Where every run stands: the protocol's view, which the code does not keep. */
    var runs: seq<Run>

    function Now(): State
      reads this
    {
      State(g, runs)
    }

    /** Everybody else's steps between two of ours. */
    method Others(i: nat, steps: seq<Step>, ghost start: State, ghost before: seq<Step>) returns (ghost trace: seq<Step>)
      requires i < |runs| && (forall k | 0 <= k < |steps| :: NotBy(i, steps[k])) && Now() == Exec(start, before)
      modifies this
      ensures trace == before + steps && Now() == Exec(start, trace)
      ensures |runs| == |old(runs)| && runs[i] == old(runs)[i]
      ensures g.now >= old(g.now) + Waited(steps)
    {
      OthersLeave(Now(), steps, i);
      ExecSplit(start, before, steps);
      trace := before + steps;
      var after := Exec(Now(), steps);
      g, runs := after.g, after.runs;
    }

    /** One of our own file operations, already done to `g`: the protocol's step for it. */
    method Own(i: nat, ghost was: Shared, ghost start: State, ghost before: seq<Step>, pc: Pc, held: bool)
      returns (ghost trace: seq<Step>)
      requires i < |runs| && State(was, runs) == Exec(start, before)
      requires Act(was, i, runs[i], Normal) == (g, runs[i].(pc := pc, held := held))
      modifies this`runs
      ensures trace == before + [Go(i, Normal)] && Now() == Exec(start, trace)
      ensures runs == old(runs)[i := old(runs)[i].(pc := pc, held := held)]
    {
      ghost var here := State(was, runs);
      ExecSplit(start, before, [Go(i, Normal)]);
      assert Exec(here, [Go(i, Normal)]) == Apply(here, Go(i, Normal));
      trace := before + [Go(i, Normal)];
      runs := runs[i := runs[i].(pc := pc, held := held)];
    }

    /** The waiting loop. Its file operations, woven into whatever everybody else does,
        are the protocol's steps; it goes on with the lock, or past the deadline. */
    method AcquireLock(i: nat, others: nat -> Schedule) returns (held: bool, ghost trace: seq<Step>)
      requires i < |runs| && runs[i].pc.Locking? && !runs[i].held && runs[i].deadline == g.now + LOCK_WAIT_MS
      requires forall p: nat, k | 0 <= k < |others(p)| :: NotBy(i, others(p)[k])
      requires forall p: nat :: Waited(others(p)) > 0
      modifies this
      ensures Now() == Exec(old(Now()), trace)
      ensures |runs| == |old(runs)| && runs[i] == old(runs)[i].(pc := Loading, held := held)
      ensures if held then g.lock == Some(Lock(i, g.now)) else g.now >= old(g.now) + LOCK_WAIT_MS
    {
      ghost var start := Now();
      var deadline := g.now + LOCK_WAIT_MS;
      held := false;
      trace := [];
      var pause := 0;
      while !held && g.now < deadline
        invariant |runs| == |old(runs)| && Now() == Exec(start, trace)
        invariant runs[i] == old(runs)[i].(pc := if held then Loading else Locking, held := held)
        invariant held ==> g.lock == Some(Lock(i, g.now))
        decreases !held, deadline - g.now
      {
        trace := Own(i, g, start, trace, Opening, false);
        trace := Others(i, others(pause), start, trace);
        ghost var was := g;
        if g.lock.None? {
          g := g.(lock := Some(Lock(i, g.now)));
          held := true;
          trace := Own(i, was, start, trace, Loading, true);
        } else {
          trace := Own(i, g, start, trace, Stating, false);
          trace := Others(i, others(pause + 1), start, trace);
          if Stale(g) {
            trace := Own(i, g, start, trace, Breaking, false);
            trace := Others(i, others(pause + 2), start, trace);
            was := g;
            g := g.(lock := None);
            trace := Own(i, was, start, trace, Locking, false);
          } else {
            trace := Own(i, g, start, trace, Locking, false);
            trace := Others(i, [Tick(LOCK_RETRY_MS)] + others(pause + 2), start, trace);
          }
        }
        pause := pause + 3;
      }
      if !held {
        trace := Own(i, g, start, trace, Loading, false);
      }
    }

    /** `finally`: only a run that holds the lock removes the file. */
    method ReleaseLock(i: nat, held: bool) returns (ghost trace: seq<Step>)
      requires i < |runs| && runs[i].pc.Releasing? && runs[i].held == held
      modifies this
      ensures trace == [Go(i, Normal)] && Now() == Exec(old(Now()), trace)
      ensures g.lock == if held then None else old(g.lock)
    {
      ghost var start, was := Now(), g;
      if held {
        g := g.(lock := None);
      }
      trace := Own(i, was, start, [], Done, false);
    }

    /** Read the whole file, change one server's entry, replace the file; other runs may
        act in between, and what they wrote to the file is then lost. */
    method SaveStoredCredential(i: nat, others: Schedule) returns (ghost trace: seq<Step>)
      requires i < |runs| && runs[i].pc.SaveReading? && forall k | 0 <= k < |others| :: NotBy(i, others[k])
      modifies this
      ensures Now() == Exec(old(Now()), trace)
      ensures |runs| == |old(runs)|
      ensures g.store == old(g.store)[old(runs)[i].server := old(runs)[i].reply]
      ensures runs[i] == old(runs)[i].(seen := old(g.store), pc := Releasing, outcome := Refreshed(old(runs)[i].reply))
    {
      ghost var start := Now();
      var store, run := g.store, runs[i];
      ghost var read := [Go(i, Normal)];
      assert Exec(start, read) == Apply(start, read[0]);
      runs := runs[i := run.(seen := store, pc := SaveWriting)];
      trace := Others(i, others, start, read);
      ghost var here := Now();
      ExecSplit(start, trace, [Go(i, Normal)]);
      assert Exec(here, [Go(i, Normal)]) == Apply(here, Go(i, Normal));
      trace := trace + [Go(i, Normal)];
      store := store[run.server := run.reply];
      g := g.(store := store);
      runs := runs[i := runs[i].(pc := Releasing, outcome := Refreshed(run.reply))];
    }

    /** The same for a removal, which a rejected token login does without the lock. */
    method RemoveStoredCredential(i: nat, others: Schedule) returns (ghost trace: seq<Step>)
      requires i < |runs| && runs[i].pc in {RemoveReading, ForgetReading}
      requires forall k | 0 <= k < |others| :: NotBy(i, others[k])
      modifies this
      ensures Now() == Exec(old(Now()), trace)
      ensures |runs| == |old(runs)|
      ensures g.store == old(g.store) - {old(runs)[i].server}
      ensures runs[i] == old(runs)[i].(seen := old(g.store), outcome := Failed,
                                       pc := if old(runs)[i].pc.RemoveReading? then Releasing else Done)
    {
      ghost var start := Now();
      var store, run := g.store, runs[i];
      ghost var read := [Go(i, Normal)];
      assert Exec(start, read) == Apply(start, read[0]);
      runs := runs[i := run.(seen := store, pc := if run.pc.RemoveReading? then RemoveWriting else ForgetWriting)];
      trace := Others(i, others, start, read);
      ghost var here := Now();
      ExecSplit(start, trace, [Go(i, Normal)]);
      assert Exec(here, [Go(i, Normal)]) == Apply(here, Go(i, Normal));
      trace := trace + [Go(i, Normal)];
      store := store - {run.server};
      g := g.(store := store);
      runs := runs[i := runs[i].(pc := if run.pc.RemoveReading? then Releasing else Done, outcome := Failed)];
    }
  }

  function Waited(steps: seq<Step>): nat {
    if steps != [] && steps[0].Tick? then steps[0].ms else 0
  }

  lemma {:induction false} OthersLeave(s: State, steps: seq<Step>, i: nat)
    requires i < |s.runs| && forall k | 0 <= k < |steps| :: NotBy(i, steps[k])
    ensures var t := Exec(s, steps);
      |t.runs| == |s.runs| && t.runs[i] == s.runs[i] && t.g.now >= s.g.now + Waited(steps)
    decreases |steps|
  {
    if steps != [] {
      OthersLeave(Apply(s, steps[0]), steps[1..], i);
    }
  }
}
