/** What becomes of a stored login: it is removed when its server refuses its refresh, and
    never otherwise; and how a lock is waited for, broken and gone without. */
module CredentialRemoval {
  import opened Wrappers
  import opened CredentialProtocol
  import opened CredentialSafety
  import opened CredentialTheorems

  predicate Removing(pc: Pc) {
    pc in {RemoveReading, RemoveWriting}
  }

  /** An entry for a refresh that was not granted. */
  predicate Denied(p: Presented) {
    !p.verdict.Rotated?
  }

  ghost predicate DeniedFor(g: Shared, v: Server) {
    exists k | 0 <= k < |g.presented| :: g.presented[k].server == v && Denied(g.presented[k])
  }

  ghost predicate DeniedTo(g: Shared, i: nat, v: Server) {
    exists k | 0 <= k < |g.presented| :: g.presented[k].server == v && g.presented[k].run == i && Denied(g.presented[k])
  }

  /** A denied entry is its own run's, for a session that is over: the login is gone, or
      that run is about to remove it; and nobody is saving one for that server. */
  ghost predicate EntryOk(s: State, p: Presented) {
    Denied(p) ==>
      && p.run < |s.runs| && s.runs[p.run].server == p.server
      && p.server in s.g.sessions && !s.g.sessions[p.server].alive
      && (p.server !in s.g.store || Removing(s.runs[p.run].pc))
      && (forall j | 0 <= j < |s.runs| :: Saving(s.runs[j].pc) ==> s.runs[j].server != p.server)
  }

  ghost predicate RemovalInv(start: Store, s: State) {
    && Inv(s)
    && (forall k | 0 <= k < |s.g.presented| :: EntryOk(s, s.g.presented[k]))
    && (forall j | 0 <= j < |s.runs| && Removing(s.runs[j].pc) :: DeniedTo(s.g, j, s.runs[j].server))
    && (forall v | v in start && v !in s.g.store :: DeniedFor(s.g, v))
  }

  lemma {:induction false} RemovalHolds(start: Store, s: State, steps: seq<Step>)
    requires RemovalInv(start, s) && CalmRun(s, steps)
    ensures RemovalInv(start, Exec(s, steps))
    decreases |steps|
  {
    if steps != [] {
      hide RemovalInv;
      RemovalStep(start, s, steps[0]);
      RemovalHolds(start, Apply(s, steps[0]), steps[1..]);
    }
  }

  lemma RemovalStep(start: Store, s: State, step: Step)
    requires RemovalInv(start, s) && !Stale(s.g) && CalmStep(s, step)
    ensures RemovalInv(start, Apply(s, step))
  {
    InvStep(s, step);
    var t := Apply(s, step);
    if step.Go? && step.run < |s.runs| {
      GoRemoval(start, s, step.run, step.choice);
    } else {
      assert t.runs == s.runs && t.g.presented == s.g.presented && t.g.store == s.g.store;
      forall k | 0 <= k < |t.g.presented| ensures EntryOk(t, t.g.presented[k]) {
        assert EntryOk(s, s.g.presented[k]);
      }
      forall j | 0 <= j < |t.runs| && Removing(t.runs[j].pc) ensures DeniedTo(t.g, j, t.runs[j].server) {
        assert DeniedTo(s.g, j, s.runs[j].server);
      }
      forall v | v in start && v !in t.g.store ensures DeniedFor(t.g, v) {
        assert DeniedFor(s.g, v);
      }
    }
  }

  /** What one run's action can do that matters here. */
  datatype Effect =
    | NoEffect
    | Answers(verdict: Verdict)
    | Saves
    | Removes

  /** The action as the others see it. */
  ghost predicate Acts(g: Shared, g': Shared, i: nat, run: Run, run': Run, effect: Effect) {
    && run'.server == run.server
    && (forall v | v in g.sessions :: v in g'.sessions && (g'.sessions[v].alive ==> g.sessions[v].alive))
    && match effect
       case NoEffect =>
         && g'.presented == g.presented && g'.store == g.store
         && (Saving(run'.pc) ==> Saving(run.pc)) && (Removing(run.pc) <==> Removing(run'.pc))
       case Answers(verdict) =>
         && (exists token :: g'.presented == g.presented + [Presented(run.server, i, token, verdict)])
         && g'.store == g.store && run.held && !Saving(run.pc) && !Removing(run.pc) && run.server in g.sessions
         && (verdict.Rotated? ==> g.sessions[run.server].alive && Saving(run'.pc))
         && (!verdict.Rotated? ==> !g.sessions[run.server].alive && Removing(run'.pc))
       case Saves =>
         && g'.presented == g.presented && g'.store.Keys == g.store.Keys + {run.server}
         && Saving(run.pc) && !Saving(run'.pc) && !Removing(run'.pc)
       case Removes =>
         && g'.presented == g.presented && g'.store == g.store - {run.server}
         && Removing(run.pc) && !Saving(run'.pc) && !Removing(run'.pc)
  }

  function EffectOf(g: Shared, i: nat, run: Run, choice: Choice): Effect {
    if run.pc.Refreshing? && SendRefresh(g, i, run, choice).0 != g then Answers(if run.credential.Some? && run.credential.value.OAuth? then Judge(Lookup(g.sessions, run.server), run.credential.value.refresh) else Refused)
    else if run.pc.SaveWriting? then Saves
    else if run.pc.RemoveWriting? then Removes
    else NoEffect
  }

  lemma ActHasEffect(g: Shared, i: nat, run: Run, choice: Choice)
    requires MayAct(g, i, run, choice)
    ensures var (g', run') := Act(g, i, run, choice);
      Acts(g, g', i, run, run', EffectOf(g, i, run, choice))
  {
    if run.pc.Refreshing? {
      RefreshHasEffect(g, i, run, choice);
    } else {
      OtherHasEffect(g, i, run, choice);
    }
  }

  lemma RefreshHasEffect(g: Shared, i: nat, run: Run, choice: Choice)
    requires MayAct(g, i, run, choice) && run.pc.Refreshing?
    ensures var (g', run') := Act(g, i, run, choice);
      Acts(g, g', i, run, run', EffectOf(g, i, run, choice))
  {
    hide OutcomeOk, Stale;
    var g' := SendRefresh(g, i, run, choice).0;
    if g' != g {
      var token := run.credential.value.refresh;
      assert g'.presented == g.presented + [Presented(run.server, i, token, Judge(Lookup(g.sessions, run.server), token))];
    }
  }

  lemma OtherHasEffect(g: Shared, i: nat, run: Run, choice: Choice)
    requires MayAct(g, i, run, choice) && !run.pc.Refreshing?
    ensures var (g', run') := Act(g, i, run, choice);
      Acts(g, g', i, run, run', EffectOf(g, i, run, choice))
  {
    hide OutcomeOk, Stale, SendRefresh, SavedFor;
  }

  /** Run `i` has acted, alone. */
  ghost predicate Moved(s: State, t: State, i: nat, effect: Effect) {
    && i < |s.runs| == |t.runs| && t.runs == s.runs[i := t.runs[i]]
    && Acts(s.g, t.g, i, s.runs[i], t.runs[i], effect)
    && (s.runs[i].held ==> forall j | 0 <= j < |s.runs| && j != i :: !Saving(s.runs[j].pc))
  }

  lemma HolderIsAlone(s: State, i: nat)
    requires Inv(s) && i < |s.runs| && s.runs[i].held
    ensures forall j | 0 <= j < |s.runs| && j != i :: !Saving(s.runs[j].pc)
  {
    forall j | 0 <= j < |s.runs| && j != i ensures !Saving(s.runs[j].pc) {
      assert RunOk(s.g, j, s.runs[j]);
    }
  }

  lemma OldEntryKept(s: State, t: State, i: nat, effect: Effect, p: Presented)
    requires Moved(s, t, i, effect) && EntryOk(s, p)
    ensures EntryOk(t, p)
  {
  }

  lemma NewEntryOk(s: State, t: State, i: nat, effect: Effect, k: nat)
    requires Moved(s, t, i, effect) && |s.g.presented| <= k < |t.g.presented|
    ensures EntryOk(t, t.g.presented[k])
  {
  }

  lemma StillDeniedTo(s: State, t: State, i: nat, effect: Effect, j: nat)
    requires Moved(s, t, i, effect) && j < |t.runs| && Removing(t.runs[j].pc)
    requires Removing(s.runs[j].pc) ==> DeniedTo(s.g, j, s.runs[j].server)
    ensures DeniedTo(t.g, j, t.runs[j].server)
  {
    if Removing(s.runs[j].pc) {
      var k :| 0 <= k < |s.g.presented| && s.g.presented[k].server == s.runs[j].server && s.g.presented[k].run == j && Denied(s.g.presented[k]);
      assert t.g.presented[k] == s.g.presented[k];
    } else {
      assert effect.Answers? && j == i;
      assert t.g.presented[|s.g.presented|].run == i;
    }
  }

  lemma StillDeniedFor(s: State, t: State, i: nat, effect: Effect, v: Server)
    requires Moved(s, t, i, effect) && v !in t.g.store
    requires v !in s.g.store ==> DeniedFor(s.g, v)
    requires Removing(s.runs[i].pc) ==> DeniedTo(s.g, i, s.runs[i].server)
    ensures DeniedFor(t.g, v)
  {
    if v !in s.g.store {
      var k :| 0 <= k < |s.g.presented| && s.g.presented[k].server == v && Denied(s.g.presented[k]);
      assert t.g.presented[k] == s.g.presented[k];
    } else {
      assert effect.Removes? && v == s.runs[i].server;
      var k :| 0 <= k < |s.g.presented| && s.g.presented[k].server == v && s.g.presented[k].run == i && Denied(s.g.presented[k]);
      assert t.g.presented[k] == s.g.presented[k];
    }
  }

  lemma GoRemoval(start: Store, s: State, i: nat, choice: Choice)
    requires RemovalInv(start, s) && !Stale(s.g) && i < |s.runs| && CalmStep(s, Go(i, choice))
    requires Inv(Apply(s, Go(i, choice)))
    ensures RemovalInv(start, Apply(s, Go(i, choice)))
  {
    SavedForActor(s, i);
    ActHasEffect(s.g, i, s.runs[i], choice);
    if s.runs[i].held {
      HolderIsAlone(s, i);
    }
    var t := Apply(s, Go(i, choice));
    var effect := EffectOf(s.g, i, s.runs[i], choice);
    hide Act, Inv, MayAct, RunOk, SavedFor, EffectOf, Acts;
    assert Moved(s, t, i, effect);
    hide Moved, EntryOk, DeniedTo, DeniedFor;
    forall k | 0 <= k < |t.g.presented| ensures EntryOk(t, t.g.presented[k]) {
      if k < |s.g.presented| {
        OnlyGrows(s, t, i, effect);
        OldEntryKept(s, t, i, effect, s.g.presented[k]);
      } else {
        NewEntryOk(s, t, i, effect, k);
      }
    }
    forall j | 0 <= j < |t.runs| && Removing(t.runs[j].pc) ensures DeniedTo(t.g, j, t.runs[j].server) {
      StillDeniedTo(s, t, i, effect, j);
    }
    forall v | v in start && v !in t.g.store ensures DeniedFor(t.g, v) {
      StillDeniedFor(s, t, i, effect, v);
    }
  }

  lemma OnlyGrows(s: State, t: State, i: nat, effect: Effect)
    requires Moved(s, t, i, effect)
    ensures s.g.presented <= t.g.presented
  {
  }

  /** In every calm execution from a store of refreshable logins: a run whose refresh the
      server did not grant leaves, when it is done, no login for its server; and a login that
      is gone was refused its refresh. */
  lemma RemovedExactlyWhenDenied(s: State, steps: seq<Step>)
    requires Init(s) && AllOAuth(s.g.store) && CalmRun(s, steps)
    ensures var t := Exec(s, steps);
      && (forall k | 0 <= k < |t.g.presented| && Denied(t.g.presented[k]) ::
            var i := t.g.presented[k].run;
            && i < |t.runs| && t.runs[i].server == t.g.presented[k].server
            && (t.runs[i].pc.Done? ==> t.runs[i].server !in t.g.store))
      && (forall v | v in s.g.store && v !in t.g.store :: DeniedFor(t.g, v))
  {
    InitInv(s);
    RemovalHolds(s.g.store, s, steps);
    var t := Exec(s, steps);
    hide Exec, CalmRun, Inv;
    forall k | 0 <= k < |t.g.presented| && Denied(t.g.presented[k])
      ensures var i := t.g.presented[k].run;
        && i < |t.runs| && t.runs[i].server == t.g.presented[k].server
        && (t.runs[i].pc.Done? ==> t.runs[i].server !in t.g.store)
    {
      assert EntryOk(t, t.g.presented[k]);
    }
  }

  // ----- One run with nobody in its way ---------------------------------------

  /** A token login that the server rejects is dropped from the file, and only it. */
  lemma RejectedTokenIsForgotten(g: Shared, i: nat, v: Server)
    requires v in g.store && g.store[v].PersonalToken?
    ensures var (g', run) := Repeat(g, i, FreshRun(v), 4);
      g' == g.(store := g.store - {v}) && run.pc.Done? && run.outcome.Failed?
  {
    var r1 := Act(g, i, FreshRun(v), Unauthorized).1;
    var r2 := Act(g, i, r1, Unauthorized).1;
    var r3 := Act(g, i, r2, Unauthorized).1;
    var (g4, r4) := Act(g, i, r3, Unauthorized);
    assert Repeat(g4, i, r4, 0) == (g4, r4);
    assert Repeat(g, i, r3, 1) == (g4, r4);
    assert Repeat(g, i, r2, 2) == (g4, r4);
    assert Repeat(g, i, r1, 3) == (g4, r4);
  }

  /** A stale lock file is broken, and the lock taken, by a waiter before its deadline; a
      fresh one is left alone, whatever the clock says of the waiter. */
  lemma StaleLockIsBroken(g: Shared, i: nat, run: Run)
    requires run.pc.Opening? && g.lock.Some? && g.now < run.deadline
    ensures Stale(g) ==> Repeat(g, i, run, 5) == (g.(lock := Some(Lock(i, g.now))), run.(held := true, pc := Loading))
    ensures !Stale(g) ==> Repeat(g, i, run, 3) == (g, run)
  {
    var r1 := Act(g, i, run, Unauthorized).1;
    var (g2, r2) := Act(g, i, r1, Unauthorized);
    var (g3, r3) := Act(g2, i, r2, Unauthorized);
    assert Repeat(g, i, run, 3) == Repeat(g, i, r1, 2) == Repeat(g2, i, r2, 1) == Repeat(g3, i, r3, 0);
    if Stale(g) {
      var (g4, r4) := Act(g3, i, r3, Unauthorized);
      var (g5, r5) := Act(g4, i, r4, Unauthorized);
      assert Repeat(g, i, run, 5) == Repeat(g, i, r1, 4) == Repeat(g2, i, r2, 3) == Repeat(g3, i, r3, 2);
      assert Repeat(g3, i, r3, 2) == Repeat(g4, i, r4, 1) == Repeat(g5, i, r5, 0);
    }
  }

  /** Past its deadline a waiter goes on without the lock: it presents its token, and leaves
      the lock file of another alone. */
  lemma TimedOutGoesOn(g: Shared, i: nat, run: Run)
    requires run.pc.Locking? && g.now >= run.deadline && !run.held && run.credential.Some? && run.credential.value.OAuth?
    requires run.server in g.store ==> g.store[run.server].access == run.credential.value.access
    ensures var (g', _) := Repeat(g, i, run, 3);
      && g'.lock == g.lock
      && g'.presented == g.presented + [Presented(run.server, i, run.credential.value.refresh, Judge(Lookup(g.sessions, run.server), run.credential.value.refresh))]
  {
    hide Act, SendRefresh, Judge, Lookup;
    PastDeadline(g, i, run);
    SendsItsToken(g, i, run.(pc := Refreshing));
    Thrice(g, i, run, run.(pc := Loading), run.(pc := Refreshing), SendRefresh(g, i, run.(pc := Refreshing), Unauthorized));
  }

  lemma PastDeadline(g: Shared, i: nat, run: Run)
    requires run.pc.Locking? && g.now >= run.deadline
    requires run.credential.Some? && (run.server in g.store ==> g.store[run.server].access == run.credential.value.access)
    ensures Act(g, i, run, Unauthorized) == (g, run.(pc := Loading))
    ensures Act(g, i, run.(pc := Loading), Unauthorized) == (g, run.(pc := Refreshing))
    ensures Act(g, i, run.(pc := Refreshing), Unauthorized) == SendRefresh(g, i, run.(pc := Refreshing), Unauthorized)
  {
    hide SendRefresh;
  }

  lemma SendsItsToken(g: Shared, i: nat, run: Run)
    requires run.credential.Some? && run.credential.value.OAuth?
    ensures var g' := SendRefresh(g, i, run, Unauthorized).0;
      && g'.lock == g.lock
      && g'.presented == g.presented + [Presented(run.server, i, run.credential.value.refresh, Judge(Lookup(g.sessions, run.server), run.credential.value.refresh))]
  {
  }

  lemma Thrice(g: Shared, i: nat, run: Run, r1: Run, r2: Run, end: (Shared, Run))
    requires Act(g, i, run, Unauthorized) == (g, r1) && Act(g, i, r1, Unauthorized) == (g, r2) && Act(g, i, r2, Unauthorized) == end
    ensures Repeat(g, i, run, 3) == end
  {
    hide Act;
    assert Repeat(end.0, i, end.1, 0) == end;
    assert Repeat(g, i, r2, 1) == end;
    assert Repeat(g, i, r1, 2) == end;
  }

  /** A run whose request is accepted, or that has no login to send, touches nothing. */
  lemma AcceptedTouchesNothing(s: State, i: nat, choice: Choice)
    requires i < |s.runs| && Fresh(s.runs[i])
    requires s.runs[i].server in s.g.store ==> !choice.Unauthorized?
    ensures var t := Exec(s, [Go(i, choice), Go(i, choice)]);
      t.g == s.g && i < |t.runs| && t.runs[i].pc.Done? && t.runs[i].outcome.Pending?
  {
    var t1 := Apply(s, Go(i, choice));
    var t2 := Apply(t1, Go(i, choice));
    assert [Go(i, choice), Go(i, choice)][1..] == [Go(i, choice)] && [Go(i, choice)][1..] == [];
    assert Exec(t1, [Go(i, choice)]) == Exec(t2, []);
  }
}
