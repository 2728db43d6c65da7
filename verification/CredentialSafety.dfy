/** What every interleaving of the credential protocol keeps: one holder of the lock,
    one refresh per generation, and no live session revoked by a used token. */
module CredentialSafety {
  import opened Wrappers
  import opened CredentialProtocol

  predicate Fresh(run: Run) {
    run.pc == Start && !run.held && run.deadline == 0 && run.outcome == Pending && run.credential == None
  }

  /** Every run about to start, and every stored login the one its server would accept. */
  predicate Init(s: State) {
    && s.g.lock.None?
    && s.g.presented == []
    && (forall i | 0 <= i < |s.runs| :: Fresh(s.runs[i]))
    && (forall v | v in s.g.store :: LoginOk(s.g, v))
  }

  predicate LoginOk(g: Shared, v: Server)
    requires v in g.store
  {
    g.store[v].OAuth? ==> v in g.sessions && g.store[v].access == g.store[v].refresh == g.sessions[v].current
  }

  // ----- Mutual exclusion -----------------------------------------------------

  predicate InTask(pc: Pc) {
    pc in {Loading, Refreshing, SaveReading, SaveWriting, RemoveReading, RemoveWriting, Releasing}
  }

  /** The lock file, when it is there, belongs to the one run that holds it. */
  ghost predicate LockInv(s: State) {
    && (s.g.lock.Some? ==> s.g.lock.value.owner < |s.runs| && s.runs[s.g.lock.value.owner].held)
    && (forall i | 0 <= i < |s.runs| ::
          && (s.runs[i].held ==> InTask(s.runs[i].pc) && s.g.lock.Some? && s.g.lock.value.owner == i)
          && s.runs[i].pc != Breaking)
  }

  /** An action creates the lock only when there is none, removes it only when the
      run holds it, and otherwise leaves both it and `held` alone. */
  lemma ActOnLock(g: Shared, i: nat, run: Run, choice: Choice)
    requires !Stale(g) && run.pc != Breaking && (run.held ==> InTask(run.pc))
    ensures var (g', run') := Act(g, i, run, choice);
      && run'.pc != Breaking && (run'.held ==> InTask(run'.pc))
      && (|| (g'.lock == g.lock && run'.held == run.held)
          || (g.lock.None? && run'.held && g'.lock == Some(Lock(i, g.now)))
          || (run.held && !run'.held && g'.lock.None?))
  {
  }

  lemma LockInvStep(s: State, step: Step)
    requires LockInv(s) && !Stale(s.g)
    ensures LockInv(Apply(s, step))
  {
    if step.Go? && step.run < |s.runs| {
      ActOnLock(s.g, step.run, s.runs[step.run], step.choice);
    }
  }

  lemma {:induction false} LockInvHolds(s: State, steps: seq<Step>)
    requires LockInv(s) && NeverStale(s, steps)
    ensures LockInv(Exec(s, steps)) && !Stale(Exec(s, steps).g)
    decreases |steps|
  {
    if steps != [] {
      LockInvStep(s, steps[0]);
      LockInvHolds(Apply(s, steps[0]), steps[1..]);
    }
  }

  /** In every execution in which no lock file reaches the stale age, timeouts and
      lost replies included: two holders are one run, and whatever run takes the next
      step, a lock file that disappears or changes was its own holder's. */
  lemma MutualExclusion(s: State, steps: seq<Step>, step: Step)
    requires Init(s) && NeverStale(s, steps)
    ensures var t := Exec(s, steps);
      && (forall i, j | 0 <= i < |t.runs| && 0 <= j < |t.runs| :: t.runs[i].held && t.runs[j].held ==> i == j)
      && (t.g.lock.Some? && Apply(t, step).g.lock != t.g.lock ==>
            step.Go? && step.run == t.g.lock.value.owner && step.run < |t.runs| && t.runs[step.run].held)
  {
    LockInvHolds(s, steps);
    var t := Exec(s, steps);
    if step.Go? && step.run < |t.runs| {
      ActOnLock(t.g, step.run, t.runs[step.run], step.choice);
    }
  }

  // ----- The invariant of calm executions over saved logins -------------------

  predicate Saving(pc: Pc) { pc in {SaveReading, SaveWriting} }

  /** What holds of the login a run loaded, whatever the run is doing. */
  predicate CredentialOk(g: Shared, run: Run) {
    run.credential.Some? ==>
      && run.credential.value.OAuth?
      && run.credential.value.access == run.credential.value.refresh
      && run.server in g.sessions
      && run.credential.value.access <= g.sessions[run.server].current
      && (run.server in g.store || !g.sessions[run.server].alive)
  }

  /** A session obtained under the lock is newer than the one loaded. */
  predicate OutcomeOk(g: Shared, i: nat, run: Run) {
    match run.outcome
    case Pending => true
    case Failed => true
    case Adopted(c) =>
      && run.credential.Some? && run.server in g.sessions
      && run.credential.value.access < c.access <= g.sessions[run.server].current
      && !SentBy(g, i)
    case Refreshed(c) =>
      && run.credential.Some? && run.server in g.sessions
      && run.credential.value.access < c.access <= g.sessions[run.server].current
      && Presented(run.server, i, run.credential.value.access, Rotated) in g.presented
  }

  predicate SentBy(g: Shared, i: nat) {
    exists k | 0 <= k < |g.presented| :: g.presented[k].run == i
  }

  predicate RunOk(g: Shared, i: nat, run: Run) {
    && CredentialOk(g, run)
    && OutcomeOk(g, i, run)
    && run.pc !in {Breaking, ForgetReading, ForgetWriting}
    && (run.pc !in {Releasing, Done} ==> run.outcome.Pending?)
    && (run.pc.Start? ==> run.credential.None?)
    && (run.pc in {FirstSend, Locking, Opening, Stating} || InTask(run.pc) ==> run.credential.Some?)
    && (InTask(run.pc) ==> run.held)
    && (run.pc in {Start, FirstSend, Locking, Opening, Stating, Loading, Refreshing} ==> !SentBy(g, i))
    && (run.pc.Refreshing? && run.server in g.store ==> g.store[run.server].access == run.credential.value.access)
    && (Saving(run.pc) ==>
          && run.reply == OAuth(g.sessions[run.server].current, g.sessions[run.server].current)
          && run.credential.value.access < g.sessions[run.server].current
          && Presented(run.server, i, run.credential.value.access, Rotated) in g.presented)
    && (run.pc in {SaveWriting, RemoveWriting} ==> run.seen == g.store)
    && (run.pc in {RemoveReading, RemoveWriting} ==> !g.sessions[run.server].alive)
  }

  /** The saved login is the one its server accepts next, unless the lock's holder is
      between the server's answer and the save. */
  predicate SavedOk(s: State, v: Server)
    requires v in s.g.store
  {
    && s.g.store[v].OAuth? && s.g.store[v].access == s.g.store[v].refresh
    && v in s.g.sessions && s.g.store[v].access <= s.g.sessions[v].current
    && (s.g.store[v].access == s.g.sessions[v].current || HolderSaves(s, v))
  }

  predicate HolderSaves(s: State, v: Server) {
    && s.g.lock.Some? && s.g.lock.value.owner < |s.runs|
    && Saving(s.runs[s.g.lock.value.owner].pc) && s.runs[s.g.lock.value.owner].server == v
  }

  ghost predicate Inv(s: State) {
    && LockInv(s)
    && (forall i | 0 <= i < |s.runs| :: RunOk(s.g, i, s.runs[i]))
    && (forall v | v in s.g.store :: SavedOk(s, v))
    && (forall k | 0 <= k < |s.g.presented| :: s.g.presented[k].verdict != Reused && s.g.presented[k].run < |s.runs|)
  }

  /** What may change under a run that is not in the locked task. */
  predicate Grows(g: Shared, g': Shared, actor: nat) {
    && (forall v | v in g.sessions :: v in g'.sessions
          && g.sessions[v].current <= g'.sessions[v].current && (g'.sessions[v].alive ==> g.sessions[v].alive))
    && (forall v | v in g.store :: v in g'.store || (v in g'.sessions && !g'.sessions[v].alive))
    && (forall p | p in g.presented :: p in g'.presented)
    && (forall k | 0 <= k < |g'.presented| :: g'.presented[k] in g.presented || g'.presented[k].run == actor)
  }

  lemma OthersKeep(g: Shared, g': Shared, actor: nat, j: nat, run: Run)
    requires Grows(g, g', actor) && j != actor && RunOk(g, j, run) && !InTask(run.pc)
    ensures RunOk(g', j, run)
  {
  }

  /** What the acting run knows of its own server's saved login. */
  predicate SavedFor(g: Shared, run: Run) {
    run.server in g.store ==>
      var saved := g.store[run.server];
      && saved.OAuth? && saved.access == saved.refresh
      && run.server in g.sessions && saved.access <= g.sessions[run.server].current
      && (InTask(run.pc) && !Saving(run.pc) ==> saved.access == g.sessions[run.server].current)
  }

  lemma SavedForActor(s: State, i: nat)
    requires Inv(s) && i < |s.runs|
    ensures SavedFor(s.g, s.runs[i]) && RunOk(s.g, i, s.runs[i])
  {
    if s.runs[i].server in s.g.store {
      assert SavedOk(s, s.runs[i].server);
    }
    assert RunOk(s.g, i, s.runs[i]);
  }

  predicate MayAct(g: Shared, i: nat, run: Run, choice: Choice) {
    && RunOk(g, i, run) && SavedFor(g, run)
    && (run.pc.Locking? ==> g.now < run.deadline)
    && (run.pc.Stating? ==> !Stale(g))
    && !choice.LostAfter?
  }

  lemma RefreshKeeps(g: Shared, i: nat, run: Run, choice: Choice)
    requires MayAct(g, i, run, choice) && run.pc.Refreshing?
    ensures var (g', run') := SendRefresh(g, i, run, choice);
      Grows(g, g', i) && RunOk(g', i, run')
  {
    var (g', run') := SendRefresh(g, i, run, choice);
    if g' != g {
      assert g'.presented[|g.presented|].run == i;
      assert forall k | 0 <= k < |g.presented| :: g'.presented[k] == g.presented[k];
    }
  }

  lemma ActGrows(g: Shared, i: nat, run: Run, choice: Choice)
    requires MayAct(g, i, run, choice)
    ensures Grows(g, Act(g, i, run, choice).0, i)
  {
    hide OutcomeOk, SavedFor, SendRefresh;
    if run.pc.Refreshing? {
      RefreshKeeps(g, i, run, choice);
    }
  }

  lemma WaiterRunOk(g: Shared, i: nat, run: Run, choice: Choice)
    requires MayAct(g, i, run, choice) && !InTask(run.pc)
    ensures RunOk(Act(g, i, run, choice).0, i, Act(g, i, run, choice).1)
  {
    var (g', _) := Act(g, i, run, choice);
    assert SentBy(g', i) == SentBy(g, i);
  }

  lemma HolderRunOk(g: Shared, i: nat, run: Run, choice: Choice)
    requires MayAct(g, i, run, choice) && InTask(run.pc) && !run.pc.Refreshing?
    ensures RunOk(Act(g, i, run, choice).0, i, Act(g, i, run, choice).1)
  {
    var (g', _) := Act(g, i, run, choice);
    assert SentBy(g', i) == SentBy(g, i);
  }

  /** One run's action, under the lock's protection. */
  lemma ActKeeps(s: State, i: nat, choice: Choice)
    requires Inv(s) && !Stale(s.g) && i < |s.runs| && CalmStep(s, Go(i, choice))
    ensures var (g', run') := Act(s.g, i, s.runs[i], choice);
      Grows(s.g, g', i) && RunOk(g', i, run')
  {
    SavedForActor(s, i);
    ActGrows(s.g, i, s.runs[i], choice);
    if s.runs[i].pc.Refreshing? {
      RefreshKeeps(s.g, i, s.runs[i], choice);
    } else if InTask(s.runs[i].pc) {
      HolderRunOk(s.g, i, s.runs[i], choice);
    } else {
      WaiterRunOk(s.g, i, s.runs[i], choice);
    }
  }

  /** Outside its locked section a run changes nothing the others can see, except to take a free lock. */
  lemma ActOutside(g: Shared, i: nat, run: Run, choice: Choice)
    requires !InTask(run.pc) && run.pc !in {Breaking, ForgetReading, ForgetWriting}
    ensures Act(g, i, run, choice).0 == if run.pc.Opening? && g.lock.None? then g.(lock := Some(Lock(i, g.now))) else g
  {
  }

  lemma OtherRunKeeps(s: State, i: nat, choice: Choice, j: nat)
    requires Inv(s) && !Stale(s.g) && i < |s.runs| && j < |s.runs| && i != j && CalmStep(s, Go(i, choice))
    ensures RunOk(Apply(s, Go(i, choice)).g, j, s.runs[j])
  {
    assert RunOk(s.g, i, s.runs[i]) && RunOk(s.g, j, s.runs[j]);
    if InTask(s.runs[j].pc) {
      ActOutside(s.g, i, s.runs[i], choice);
    } else {
      ActKeeps(s, i, choice);
      OthersKeep(s.g, Apply(s, Go(i, choice)).g, i, j, s.runs[j]);
    }
  }

  lemma SavedKept(s: State, i: nat, choice: Choice, v: Server)
    requires Inv(s) && !Stale(s.g) && i < |s.runs| && CalmStep(s, Go(i, choice))
    requires v in Apply(s, Go(i, choice)).g.store
    ensures SavedOk(Apply(s, Go(i, choice)), v)
  {
    var run := s.runs[i];
    assert RunOk(s.g, i, run);
    if v in s.g.store {
      assert SavedOk(s, v);
    }
    if !InTask(run.pc) {
      ActOutside(s.g, i, run, choice);
    } else if run.server in s.g.store {
      assert SavedOk(s, run.server);
    }
  }

  lemma GoKeeps(s: State, i: nat, choice: Choice)
    requires Inv(s) && !Stale(s.g) && i < |s.runs| && CalmStep(s, Go(i, choice))
    ensures Inv(Apply(s, Go(i, choice)))
  {
    var t := Apply(s, Go(i, choice));
    LockInvStep(s, Go(i, choice));
    forall j | 0 <= j < |t.runs| ensures RunOk(t.g, j, t.runs[j]) {
      if j == i {
        ActKeeps(s, i, choice);
      } else {
        OtherRunKeeps(s, i, choice, j);
      }
    }
    forall v | v in t.g.store ensures SavedOk(t, v) {
      SavedKept(s, i, choice, v);
    }
    NothingReused(s, i, choice);
  }

  /** The heart of it: a token that reaches the server is the current one, or the session is dead. */
  lemma NothingReused(s: State, i: nat, choice: Choice)
    requires Inv(s) && !Stale(s.g) && i < |s.runs| && CalmStep(s, Go(i, choice))
    ensures var p := Apply(s, Go(i, choice)).g.presented;
      forall k | 0 <= k < |p| :: p[k].verdict != Reused && p[k].run < |s.runs|
  {
    var run := s.runs[i];
    assert RunOk(s.g, i, run);
    if run.server in s.g.store {
      assert SavedOk(s, run.server);
    }
  }

  lemma InvStep(s: State, step: Step)
    requires Inv(s) && !Stale(s.g) && CalmStep(s, step)
    ensures Inv(Apply(s, step))
  {
    LockInvStep(s, step);
    var t := Apply(s, step);
    if step.Go? && step.run < |s.runs| {
      GoKeeps(s, step.run, step.choice);
    } else if step.Expire? && step.server in s.g.sessions {
      forall j | 0 <= j < |t.runs| ensures RunOk(t.g, j, t.runs[j]) {
        assert RunOk(s.g, j, s.runs[j]);
      }
      forall v | v in t.g.store ensures SavedOk(t, v) {
        assert SavedOk(s, v);
      }
    } else if step.Tick? {
      forall j | 0 <= j < |t.runs| ensures RunOk(t.g, j, t.runs[j]) {
        assert RunOk(s.g, j, s.runs[j]);
      }
      forall v | v in t.g.store ensures SavedOk(t, v) {
        assert SavedOk(s, v);
      }
    }
  }

  predicate AllOAuth(store: Store) {
    forall v | v in store :: store[v].OAuth?
  }

  lemma {:induction false} InvHolds(s: State, steps: seq<Step>)
    requires Inv(s) && CalmRun(s, steps)
    ensures Inv(Exec(s, steps))
    decreases |steps|
  {
    if steps != [] {
      InvStep(s, steps[0]);
      InvHolds(Apply(s, steps[0]), steps[1..]);
    }
  }

  lemma InitInv(s: State)
    requires Init(s) && AllOAuth(s.g.store)
    ensures Inv(s)
  {
  }
}
