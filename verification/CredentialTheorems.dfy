/** The credential protocol's main results, over whole executions. */
module CredentialTheorems {
  import opened Wrappers
  import opened CredentialProtocol
  import opened CredentialSafety

  // ----- One refresh per generation -------------------------------------------

  predicate AllAlive(g: Shared) {
    forall v | v in g.sessions :: g.sessions[v].alive
  }

  /** No session ends on the server for a reason of its own. */
  predicate NoExpiry(steps: seq<Step>) {
    forall k | 0 <= k < |steps| :: !steps[k].Expire?
  }

  predicate NoLoss(steps: seq<Step>) {
    forall k | 0 <= k < |steps| :: steps[k].Go? ==> !steps[k].choice.LostBefore?
  }

  predicate WasPresented(presented: seq<Presented>, v: Server, token: nat) {
    exists k | 0 <= k < |presented| :: presented[k].server == v && presented[k].token == token
  }

  /** Since `start`, each server was presented exactly the generations it has moved past, each once. */
  ghost predicate InStep(start: Shared, g: Shared) {
    && AllAlive(g)
    && g.sessions.Keys == start.sessions.Keys
    && (forall v | v in start.sessions :: start.sessions[v].current <= g.sessions[v].current)
    && (forall k | 0 <= k < |g.presented| ::
          var p := g.presented[k];
          && p.verdict == Rotated && p.server in g.sessions && p.token < g.sessions[p.server].current)
    && (forall k, m | 0 <= k < m < |g.presented| ::
          g.presented[k].server == g.presented[m].server ==> g.presented[k].token < g.presented[m].token)
    && (forall v, token: nat | v in start.sessions && start.sessions[v].current <= token < g.sessions[v].current ::
          WasPresented(g.presented, v, token))
  }

  ghost predicate StoreNotOlder(start: Shared, g: Shared) {
    forall v | v in g.store :: v in start.sessions && start.sessions[v].current <= g.store[v].access
  }

  ghost predicate RunNotOlder(start: Shared, run: Run) {
    run.credential.Some? ==>
      run.server in start.sessions && start.sessions[run.server].current <= run.credential.value.access
  }

  ghost predicate NotOlder(start: Shared, s: State) {
    StoreNotOlder(start, s.g) && forall i | 0 <= i < |s.runs| :: RunNotOlder(start, s.runs[i])
  }

  lemma NotOlderStep(start: Shared, s: State, step: Step)
    requires Inv(s) && InStep(start, s.g) && NotOlder(start, s) && !Stale(s.g) && CalmStep(s, step)
    ensures NotOlder(start, Apply(s, step))
  {
    hide Act, Inv, InStep, RunOk, SavedFor;
    if step.Go? && step.run < |s.runs| {
      SavedForActor(s, step.run);
      ActNotOlder(start, s.g, step.run, s.runs[step.run], step.choice);
    }
  }

  lemma ActNotOlder(start: Shared, g: Shared, i: nat, run: Run, choice: Choice)
    requires MayAct(g, i, run, choice) && StoreNotOlder(start, g) && RunNotOlder(start, run)
    ensures StoreNotOlder(start, Act(g, i, run, choice).0) && RunNotOlder(start, Act(g, i, run, choice).1)
  {
    hide OutcomeOk, SavedFor, Stale;
  }

  lemma InStepKept(start: Shared, s: State, step: Step)
    requires Inv(s) && InStep(start, s.g) && !Stale(s.g) && CalmStep(s, step) && !step.Expire?
    ensures InStep(start, Apply(s, step).g)
  {
    if step.Go? && step.run < |s.runs| && s.runs[step.run].pc.Refreshing? {
      SavedForActor(s, step.run);
      RefreshInStep(start, s.g, step.run, s.runs[step.run], step.choice);
    }
  }

  lemma RefreshInStep(start: Shared, g: Shared, i: nat, run: Run, choice: Choice)
    requires MayAct(g, i, run, choice) && run.pc.Refreshing? && InStep(start, g)
    ensures InStep(start, SendRefresh(g, i, run, choice).0)
  {
    var g' := SendRefresh(g, i, run, choice).0;
    if g' != g {
      var token := run.credential.value.refresh;
      var last := Presented(run.server, i, token, Rotated);
      assert g'.presented == g.presented + [last];
      forall v, t: nat | v in start.sessions && start.sessions[v].current <= t < g'.sessions[v].current
        ensures WasPresented(g'.presented, v, t)
      {
        if v == run.server && t == token {
          assert g'.presented[|g.presented|] == last;
        } else {
          assert WasPresented(g.presented, v, t);
          var k :| 0 <= k < |g.presented| && g.presented[k].server == v && g.presented[k].token == t;
          assert g'.presented[k] == g.presented[k];
        }
      }
    }
  }

  lemma {:induction false} InStepHolds(start: Shared, s: State, steps: seq<Step>)
    requires Inv(s) && InStep(start, s.g) && NotOlder(start, s) && CalmRun(s, steps) && NoExpiry(steps)
    ensures var t := Exec(s, steps); Inv(t) && InStep(start, t.g) && NotOlder(start, t)
    decreases |steps|
  {
    if steps != [] {
      InvStep(s, steps[0]);
      InStepKept(start, s, steps[0]);
      NotOlderStep(start, s, steps[0]);
      InStepHolds(start, Apply(s, steps[0]), steps[1..]);
    }
  }

  /** However the runs interleave, a run that went through the lock ends with a newer
      session, and the generation it had loaded was presented exactly once: by that run
      if it refreshed, by another one if it adopted what it found saved. */
  lemma OneRefreshPerGeneration(s: State, steps: seq<Step>, i: nat)
    requires Init(s) && AllOAuth(s.g.store) && AllAlive(s.g)
    requires CalmRun(s, steps) && NoExpiry(steps)
    requires i < |Exec(s, steps).runs|
    requires Exec(s, steps).runs[i].outcome.Adopted? || Exec(s, steps).runs[i].outcome.Refreshed?
    ensures var t := Exec(s, steps);
      var run := t.runs[i];
      && run.credential.Some? && run.credential.value.access < run.outcome.session.access
      && (exists k | 0 <= k < |t.g.presented| ::
            && t.g.presented[k] == Presented(run.server, t.g.presented[k].run, run.credential.value.access, Rotated)
            && (t.g.presented[k].run == i <==> run.outcome.Refreshed?)
            && (forall m | 0 <= m < |t.g.presented| && m != k ::
                  t.g.presented[m].server == run.server ==> t.g.presented[m].token != run.credential.value.access))
  {
    InitInv(s);
    InStepHolds(s.g, s, steps);
    hide Exec, Init, CalmRun, NoExpiry;
    var t := Exec(s, steps);
    var run := t.runs[i];
    assert RunOk(t.g, i, run);
    assert WasPresented(t.g.presented, run.server, run.credential.value.access);
    var k :| 0 <= k < |t.g.presented| && t.g.presented[k].server == run.server
             && t.g.presented[k].token == run.credential.value.access;
  }

  /** Only a run whose first request was refused has a deadline; such a run ends with a session. */
  predicate Unfailed(run: Run) {
    && !run.outcome.Failed?
    && (run.pc in {Start, FirstSend} ==> run.deadline == 0)
    && (run.pc.Releasing? || (run.pc.Done? && run.deadline > 0) ==> run.outcome.Adopted? || run.outcome.Refreshed?)
  }

  predicate NoneFailed(s: State) {
    forall i | 0 <= i < |s.runs| :: Unfailed(s.runs[i])
  }

  lemma NoneFailedStep(start: Shared, s: State, step: Step)
    requires Inv(s) && InStep(start, s.g) && NoneFailed(s) && !Stale(s.g) && CalmStep(s, step)
    requires step.Go? ==> !step.choice.LostBefore?
    ensures NoneFailed(Apply(s, step))
  {
    if step.Go? && step.run < |s.runs| {
      SavedForActor(s, step.run);
    }
  }

  lemma {:induction false} NoneFailedHolds(start: Shared, s: State, steps: seq<Step>)
    requires Inv(s) && InStep(start, s.g) && NotOlder(start, s) && CalmRun(s, steps) && NoExpiry(steps) && NoLoss(steps)
    requires NoneFailed(s)
    ensures NoneFailed(Exec(s, steps))
    decreases |steps|
  {
    if steps != [] {
      InvStep(s, steps[0]);
      InStepKept(start, s, steps[0]);
      NotOlderStep(start, s, steps[0]);
      NoneFailedStep(start, s, steps[0]);
      NoneFailedHolds(start, Apply(s, steps[0]), steps[1..]);
    }
  }

  /** Without lost requests no refused run comes away empty-handed. */
  lemma EveryRefusedRunGetsASession(s: State, steps: seq<Step>, i: nat)
    requires Init(s) && AllOAuth(s.g.store) && AllAlive(s.g)
    requires CalmRun(s, steps) && NoExpiry(steps) && NoLoss(steps)
    requires i < |Exec(s, steps).runs|
    ensures var run := Exec(s, steps).runs[i];
      run.pc.Done? && run.deadline > 0 ==> run.outcome.Adopted? || run.outcome.Refreshed?
  {
    InitInv(s);
    NoneFailedHolds(s.g, s, steps);
    assert Unfailed(Exec(s, steps).runs[i]);
  }

  // ----- Exactly when no live session is revoked by reuse ---------------------

  predicate ReuseSeen(s: State) {
    exists k | 0 <= k < |s.g.presented| :: s.g.presented[k].verdict == Reused
  }

  predicate AllTokens(store: Store) {
    forall v | v in store :: store[v].PersonalToken?
  }

  /** Whatever the runs and whenever sessions expire: no used token reaches a live session. */
  ghost predicate SafeStore(store: Store) {
    forall s: State, steps: seq<Step> |
      Init(s) && s.g.store == store && CalmRun(s, steps) :: !ReuseSeen(Exec(s, steps))
  }

  /** Nothing but token logins: nobody ever refreshes. */
  predicate TokenInv(s: State) {
    && AllTokens(s.g.store) && s.g.presented == []
    && (forall i | 0 <= i < |s.runs| ::
          var run := s.runs[i];
          && run.pc in {Start, FirstSend, ForgetReading, ForgetWriting, Done}
          && (run.credential.Some? ==> run.credential.value.PersonalToken?)
          && (run.pc.ForgetWriting? ==> AllTokens(run.seen)))
  }

  lemma TokenInvStep(s: State, step: Step)
    requires TokenInv(s)
    ensures TokenInv(Apply(s, step))
  {
  }

  lemma {:induction false} TokenInvHolds(s: State, steps: seq<Step>)
    requires TokenInv(s)
    ensures TokenInv(Exec(s, steps))
    decreases |steps|
  {
    if steps != [] {
      TokenInvStep(s, steps[0]);
      TokenInvHolds(Apply(s, steps[0]), steps[1..]);
    }
  }

  lemma UniformIsSafe(store: Store)
    requires AllOAuth(store) || AllTokens(store)
    ensures SafeStore(store)
  {
    forall s: State, steps: seq<Step> | Init(s) && s.g.store == store && CalmRun(s, steps)
      ensures !ReuseSeen(Exec(s, steps))
    {
      if AllOAuth(store) {
        InitInv(s);
        InvHolds(s, steps);
      } else {
        TokenInvHolds(s, steps);
      }
    }
  }

  /** One run's next `n` actions, its server refusing its first request. */
  function Alone(i: nat, n: nat): seq<Step>
    ensures |Alone(i, n)| == n
  {
    seq(n, _ => Go(i, Unauthorized))
  }

  /** The same, on the shared part and the one run. */
  function Repeat(g: Shared, i: nat, run: Run, n: nat): (Shared, Run)
    decreases n
  {
    if n == 0 then (g, run)
    else
      var (g', run') := Act(g, i, run, Unauthorized);
      Repeat(g', i, run', n - 1)
  }

  predicate CalmRepeat(g: Shared, i: nat, run: Run, n: nat)
    decreases n
  {
    && !Stale(g)
    && (n > 0 ==>
          && (run.pc.Locking? ==> g.now < run.deadline)
          && var (g', run') := Act(g, i, run, Unauthorized); CalmRepeat(g', i, run', n - 1))
  }

  lemma {:induction false} AloneIsRepeat(s: State, i: nat, n: nat)
    requires i < |s.runs|
    ensures var (g, run) := Repeat(s.g, i, s.runs[i], n);
      Exec(s, Alone(i, n)) == State(g, s.runs[i := run])
    ensures CalmRun(s, Alone(i, n)) <==> CalmRepeat(s.g, i, s.runs[i], n)
    decreases n
  {
    if n == 0 {
      assert s.runs[i := s.runs[i]] == s.runs;
    } else {
      var t := Apply(s, Go(i, Unauthorized));
      assert Alone(i, n)[0] == Go(i, Unauthorized) && Alone(i, n)[1..] == Alone(i, n - 1);
      AloneIsRepeat(t, i, n - 1);
      var run := Repeat(t.g, i, t.runs[i], n - 1).1;
      assert t.runs[i := run] == s.runs[i := run];
    }
  }

  function FreshRun(v: Server): Run {
    Run(v, Start, None, 0, false, map[], OAuth(0, 0), Pending)
  }

  /** The state from which the lost update starts: run 0 has a token login at `a`,
      runs 1 and 2 share a refreshable login at `b`. */
  function Overlap(store: Store, a: Server, b: Server): State {
    State(
      Shared(0, None, store, map v | v in store && store[v].OAuth? :: Session(store[v].access, true), []),
      [FreshRun(a), FreshRun(b), FreshRun(b)])
  }

  /** One more action in front of a known continuation. */
  lemma Prepend(g: Shared, i: nat, run: Run, n: nat, end: (Shared, Run))
    requires !Stale(g) && (run.pc.Locking? ==> g.now < run.deadline)
    requires var (g', run') := Act(g, i, run, Unauthorized); CalmRepeat(g', i, run', n) && Repeat(g', i, run', n) == end
    ensures CalmRepeat(g, i, run, n + 1) && Repeat(g, i, run, n + 1) == end
  {
  }

  lemma ReadsToForget(g: Shared, v: Server)
    requires g.lock.None? && v in g.store && g.store[v].PersonalToken?
    ensures CalmRepeat(g, 0, FreshRun(v), 3)
    ensures Repeat(g, 0, FreshRun(v), 3)
         == (g, FreshRun(v).(pc := ForgetWriting, credential := Some(g.store[v]), seen := g.store))
  {
    var r1 := Act(g, 0, FreshRun(v), Unauthorized).1;
    var r2 := Act(g, 0, r1, Unauthorized).1;
    var end := Act(g, 0, r2, Unauthorized);
    Prepend(g, 0, r2, 0, end);
    Prepend(g, 0, r1, 1, end);
    Prepend(g, 0, FreshRun(v), 2, end);
  }

  /** A refused run with nobody in its way: it holds the lock, its pc at `Refreshing`. */
  function AboutToRefresh(g: Shared, i: nat, v: Server): (Shared, Run)
    requires v in g.store
  {
    (g.(lock := Some(Lock(i, g.now))),
     FreshRun(v).(pc := Refreshing, credential := Some(g.store[v]), deadline := g.now + LOCK_WAIT_MS, held := true))
  }

  lemma ReachesRefresh(g: Shared, i: nat, v: Server, n: nat, end: (Shared, Run))
    requires g.lock.None? && v in g.store && g.store[v].OAuth?
    requires var (g', run') := AboutToRefresh(g, i, v); CalmRepeat(g', i, run', n) && Repeat(g', i, run', n) == end
    ensures CalmRepeat(g, i, FreshRun(v), n + 5) && Repeat(g, i, FreshRun(v), n + 5) == end
  {
    var r1 := Act(g, i, FreshRun(v), Unauthorized).1;
    var r2 := Act(g, i, r1, Unauthorized).1;
    var r3 := Act(g, i, r2, Unauthorized).1;
    var (g4, r4) := Act(g, i, r3, Unauthorized);
    Prepend(g4, i, r4, n, end);
    Prepend(g, i, r3, n + 1, end);
    Prepend(g, i, r2, n + 2, end);
    Prepend(g, i, r1, n + 3, end);
    Prepend(g, i, FreshRun(v), n + 4, end);
  }

  lemma RefreshesAndSaves(g: Shared, i: nat, v: Server) returns (end: (Shared, Run))
    requires g.lock.None? && v in g.store && v in g.sessions && g.sessions[v].alive
    requires g.store[v] == OAuth(g.sessions[v].current, g.sessions[v].current)
    ensures CalmRepeat(g, i, FreshRun(v), 9) && Repeat(g, i, FreshRun(v), 9) == end
    ensures end.0.lock.None? && end.0.now == g.now
    ensures v in end.0.sessions && end.0.sessions[v] == Session(g.sessions[v].current + 1, true)
  {
    var (g5, r5) := AboutToRefresh(g, i, v);
    var (g6, r6) := Act(g5, i, r5, Unauthorized);
    var (g7, r7) := Act(g6, i, r6, Unauthorized);
    var (g8, r8) := Act(g7, i, r7, Unauthorized);
    end := Act(g8, i, r8, Unauthorized);
    assert CalmRepeat(end.0, i, end.1, 0) && Repeat(end.0, i, end.1, 0) == end;
    Prepend(g8, i, r8, 0, end);
    Prepend(g7, i, r7, 1, end);
    Prepend(g6, i, r6, 2, end);
    Prepend(g5, i, r5, 3, end);
    ReachesRefresh(g, i, v, 4, end);
  }

  lemma PresentsUsedToken(g: Shared, i: nat, v: Server) returns (end: (Shared, Run))
    requires g.lock.None? && v in g.store && v in g.sessions && g.sessions[v].alive
    requires g.store[v].OAuth? && g.store[v].refresh < g.sessions[v].current
    ensures CalmRepeat(g, i, FreshRun(v), 6) && Repeat(g, i, FreshRun(v), 6) == end
    ensures |end.0.presented| > 0 && end.0.presented[|end.0.presented| - 1].verdict == Reused
  {
    var (g5, r5) := AboutToRefresh(g, i, v);
    end := Act(g5, i, r5, Unauthorized);
    assert CalmRepeat(end.0, i, end.1, 0) && Repeat(end.0, i, end.1, 0) == end;
    Prepend(g5, i, r5, 0, end);
    ReachesRefresh(g, i, v, 1, end);
  }

  /** Run 0 reads the file to drop its rejected token; run 1 refreshes and saves; run 0
      writes back what it had read; run 2 loads the used token and presents it. */
  function LostUpdate(): seq<Step> {
    Alone(0, 3) + (Alone(1, 9) + (Alone(0, 1) + Alone(2, 6)))
  }

  /** A calm execution from `s` in which a used token reaches a live session. */
  ghost predicate Exposes(s: State, steps: seq<Step>) {
    CalmRun(s, steps) && ReuseSeen(Exec(s, steps))
  }

  lemma ThenExposes(s: State, i: nat, n: nat, end: (Shared, Run), rest: seq<Step>)
    requires i < |s.runs| && CalmRepeat(s.g, i, s.runs[i], n) && Repeat(s.g, i, s.runs[i], n) == end
    requires Exposes(State(end.0, s.runs[i := end.1]), rest)
    ensures Exposes(s, Alone(i, n) + rest)
  {
    AloneIsRepeat(s, i, n);
    ExecSplit(s, Alone(i, n), rest);
  }

  lemma PresentingExposes(s: State, v: Server)
    requires |s.runs| == 3 && s.runs[2] == FreshRun(v)
    requires s.g.lock.None? && v in s.g.store && v in s.g.sessions && s.g.sessions[v].alive
    requires s.g.store[v].OAuth? && s.g.store[v].refresh < s.g.sessions[v].current
    ensures Exposes(s, Alone(2, 6))
  {
    var end := PresentsUsedToken(s.g, 2, v);
    AloneIsRepeat(s, 2, 6);
  }

  lemma WritingBackExposes(s: State, v: Server)
    requires |s.runs| == 3 && s.runs[2] == FreshRun(v)
    requires s.runs[0].pc.ForgetWriting? && s.runs[0].server != v && v in s.runs[0].seen
    requires s.g.lock.None? && v in s.g.sessions && s.g.sessions[v].alive
    requires s.runs[0].seen[v].OAuth? && s.runs[0].seen[v].refresh < s.g.sessions[v].current
    ensures Exposes(s, Alone(0, 1) + Alone(2, 6))
  {
    var written := Act(s.g, 0, s.runs[0], Unauthorized);
    assert CalmRepeat(written.0, 0, written.1, 0) && Repeat(written.0, 0, written.1, 0) == written;
    Prepend(s.g, 0, s.runs[0], 0, written);
    PresentingExposes(State(written.0, s.runs[0 := written.1]), v);
    ThenExposes(s, 0, 1, written, Alone(2, 6));
  }

  lemma TokenRemovalUndoesARefresh(store: Store, a: Server, b: Server)
    requires a in store && store[a].PersonalToken?
    requires b in store && store[b].OAuth? && store[b].access == store[b].refresh
    ensures Exposes(Overlap(store, a, b), LostUpdate())
  {
    var s0 := Overlap(store, a, b);
    ReadsToForget(s0.g, a);
    var end0 := Repeat(s0.g, 0, s0.runs[0], 3);
    var s1 := State(end0.0, s0.runs[0 := end0.1]);
    var end1 := RefreshesAndSaves(s1.g, 1, b);
    WritingBackExposes(State(end1.0, s1.runs[1 := end1.1]), b);
    ThenExposes(s1, 1, 9, end1, Alone(0, 1) + Alone(2, 6));
    ThenExposes(s0, 0, 3, end0, Alone(1, 9) + (Alone(0, 1) + Alone(2, 6)));
  }

  /** The lock protects a store exactly when its logins are all refreshable or all
      tokens: a rejected token is removed without the lock, and that removal can write
      back a session another run has meanwhile refreshed. */
  lemma SafeExactlyWhenUniform(store: Store)
    requires forall v | v in store && store[v].OAuth? :: store[v].access == store[v].refresh
    ensures SafeStore(store) <==> AllOAuth(store) || AllTokens(store)
  {
    if AllOAuth(store) || AllTokens(store) {
      UniformIsSafe(store);
    } else {
      var a :| a in store && store[a].PersonalToken?;
      var b :| b in store && store[b].OAuth?;
      TokenRemovalUndoesARefresh(store, a, b);
      OverlapIsInit(store, a, b);
      MixedIsUnsafe(Overlap(store, a, b), LostUpdate());
    }
  }

  lemma OverlapIsInit(store: Store, a: Server, b: Server)
    requires forall v | v in store && store[v].OAuth? :: store[v].access == store[v].refresh
    ensures Init(Overlap(store, a, b)) && Overlap(store, a, b).g.store == store
  {
    var s := Overlap(store, a, b);
    forall v | v in s.g.store ensures LoginOk(s.g, v) {
    }
  }

  lemma MixedIsUnsafe(s: State, steps: seq<Step>)
    requires Init(s) && Exposes(s, steps)
    ensures !SafeStore(s.g.store)
  {
  }
}
