/** A restore that nothing disturbs: it gets to its end, and leaves what it is for. */
module RestoreSmoothly {
  import opened Wrappers
  import opened FlyWorld
  import opened RestoreRecipes
  import opened RestoreTheorems
  import opened RestoreFlow

  /** Every action succeeds, the machine awake for it. */
  function Undisturbed(f: Flow, newId: string): Choice {
    Choice([Wakes(f.record.machine)], Fully, true, newId)
  }

  /** So many of them. */
  function Undisturbedly(f: Flow, newId: string, n: nat): seq<Choice> {
    seq(n, _ => Undisturbed(f, newId))
  }

  /** Under way over a good backup, the snapshot's id not yet given. */
  ghost predicate Smooth(counts: Counts, previous: Autostop, f: Flow, newId: string) {
    && FlowInv(counts, previous, f) && f.going && counts.dump == counts.backup
    && (f.pos <= 7 ==> newId !in f.world.snapshots)
  }

  lemma Woken(counts: Counts, previous: Autostop, f: Flow, newId: string)
    requires Smooth(counts, previous, f, newId)
    ensures HappenAll(f.world, [Wakes(f.record.machine)]) == SetRunning(f.world, f.record.machine, true)
    ensures var moved := f.(world := SetRunning(f.world, f.record.machine, true));
      Smooth(counts, previous, moved, newId) && Running(moved.world, f.record.machine)
  {
    BackgroundKeeps(counts, previous, f, [Wakes(f.record.machine)]);
    assert HappenAll(f.world, [Wakes(f.record.machine)]) == Happen(f.world, Wakes(f.record.machine));
  }

  ghost predicate Onward(f: Flow, t: Flow) {
    t.going && t.pos > f.pos && t.record.machine == f.record.machine && (t.pos <= 7 ==> t.world.snapshots == f.world.snapshots)
  }

  lemma ActGoesOn(counts: Counts, previous: Autostop, f: Flow, newId: string)
    requires Smooth(counts, previous, f, newId) && Running(f.world, f.record.machine) && f.pos < END
    ensures Onward(f, Act(counts, previous, f, Undisturbed(f, newId)))
  {
    if f.pos <= 7 { EarlyGoesOn(counts, previous, f, newId); }
    else if f.pos <= 14 { RestoringGoesOn(counts, previous, f, newId); }
    else { LateGoesOn(counts, previous, f, newId); }
  }

  lemma EarlyGoesOn(counts: Counts, previous: Autostop, f: Flow, newId: string)
    requires Smooth(counts, previous, f, newId) && Running(f.world, f.record.machine) && f.pos <= 7
    ensures Onward(f, Act(counts, previous, f, Undisturbed(f, newId)))
  {
  }

  lemma RestoringGoesOn(counts: Counts, previous: Autostop, f: Flow, newId: string)
    requires Smooth(counts, previous, f, newId) && Running(f.world, f.record.machine) && 8 <= f.pos <= 14
    ensures Onward(f, Act(counts, previous, f, Undisturbed(f, newId)))
  {
  }

  lemma LateGoesOn(counts: Counts, previous: Autostop, f: Flow, newId: string)
    requires Smooth(counts, previous, f, newId) && Running(f.world, f.record.machine) && 15 <= f.pos < END
    ensures Onward(f, Act(counts, previous, f, Undisturbed(f, newId)))
  {
  }

  lemma TurnGoesOn(counts: Counts, previous: Autostop, f: Flow, newId: string)
    requires Smooth(counts, previous, f, newId) && f.pos < END
    ensures var t := Turn(counts, previous, f, Undisturbed(f, newId));
      Smooth(counts, previous, t, newId) && Onward(f, t)
  {
    hide Act, FlowInv, Onward;
    var moved := f.(world := SetRunning(f.world, f.record.machine, true));
    Woken(counts, previous, f, newId);
    ActGoesOn(counts, previous, moved, newId);
    ActKeeps(counts, previous, moved, Undisturbed(f, newId));
    OnwardFrom(f, moved, Act(counts, previous, moved, Undisturbed(f, newId)));
  }

  lemma OnwardFrom(f: Flow, moved: Flow, t: Flow)
    requires moved == f.(world := SetRunning(f.world, f.record.machine, true)) && Onward(moved, t)
    ensures Onward(f, t) && t.going && t.record.machine == f.record.machine && (t.pos <= 7 ==> t.world.snapshots == f.world.snapshots)
    ensures t.pos > f.pos
  {
  }

  /** At the end, with everything as it should be. */
  ghost predicate Arrived(counts: Counts, previous: Autostop, f: Flow) {
    && f.going && f.pos == END && f.record.phase.Completed? && RestoreRecipesFor(f.record).sleep.None?
    && Goal(counts, f.world, f.record, Restored(true)) && f.world.machines[f.record.machine].autostop == previous
  }

  lemma {:induction false} GoesOn(counts: Counts, previous: Autostop, f: Flow, newId: string)
    requires Smooth(counts, previous, f, newId) && f.pos <= END
    ensures exists n: nat | n <= END - f.pos :: Arrived(counts, previous, Turns(counts, previous, f, Undisturbedly(f, newId, n)))
    decreases END - f.pos
  {
    if f.pos == END {
      assert Undisturbedly(f, newId, 0) == [];
      AtTheEnd(counts, previous, f, newId);
      assert Arrived(counts, previous, Turns(counts, previous, f, Undisturbedly(f, newId, 0)));
    } else {
      hide Smooth, Arrived, Turn, Onward;
      TurnGoesOn(counts, previous, f, newId);
      var t := Turn(counts, previous, f, Undisturbed(f, newId));
      NotPastTheEnd(counts, previous, f, t, newId);
      GoesOn(counts, previous, t, newId);
      var n: nat :| n <= END - t.pos && Arrived(counts, previous, Turns(counts, previous, t, Undisturbedly(t, newId, n)));
      assert Undisturbedly(f, newId, n + 1)[1..] == Undisturbedly(t, newId, n);
      assert Turns(counts, previous, f, Undisturbedly(f, newId, n + 1)) == Turns(counts, previous, t, Undisturbedly(t, newId, n));
    }
  }

  lemma NotPastTheEnd(counts: Counts, previous: Autostop, f: Flow, t: Flow, newId: string)
    requires Smooth(counts, previous, t, newId) && Onward(f, t)
    ensures f.pos < t.pos <= END && t.record.machine == f.record.machine
  {
  }

  lemma AtTheEnd(counts: Counts, previous: Autostop, f: Flow, newId: string)
    requires Smooth(counts, previous, f, newId) && f.pos == END
    ensures Arrived(counts, previous, f)
  {
  }

  /** A restore of a good backup that nothing disturbs takes at most its twenty-three
      actions: Patch answers on the validated database, on the image it ran before, and the
      machine's autostop is what the preflight found. */
  lemma UndisturbedRestoreCompletes(counts: Counts, previous: Autostop, f: Flow, newId: string)
    requires Starts(counts, previous, f) && counts.dump == counts.backup && newId !in f.world.snapshots
    ensures exists n: nat | n <= END :: Arrived(counts, previous, Turns(counts, previous, f, Undisturbedly(f, newId, n)))
  {
    GoesOn(counts, previous, f, newId);
  }
}
