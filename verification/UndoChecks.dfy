/** Undoing a restore when the snapshot may hold anything: what its steps check before they
    destroy or release; and the step that lets the database machine sleep again. */
module UndoChecks {
  import opened Wrappers
  import opened FlyWorld
  import opened RestoreRecipes
  import opened RestoreTheorems
  import opened RestoreAttempts

  /** Every machine's volume is there, and a `pg_restore` runs at most in the recorded machine. */
  ghost predicate Sound(w: World, r: Record) {
    (forall m | m in w.machines :: w.machines[m].volume in w.volumes) && w.restoring <= {r.machine}
  }

  /** Another machine holds a database with the rows counted before the restore. */
  ghost predicate CloneHolds(counts: Counts, w: World, r: Record) {
    exists clone | clone in w.machines :: clone != r.machine && Rows(counts, DbOf(w, clone)) == Some(r.countBefore)
  }

  /** No volume goes away, and none changes its rows. */
  ghost predicate VolumesKept(counts: Counts, here: World, after: World) {
    forall v | v in here.volumes :: v in after.volumes && Rows(counts, Some(after.volumes[v])) == Rows(counts, Some(here.volumes[v]))
  }

  /** A step removes no machine but the recorded one, and that only beside a clone that
      holds the old rows; it brings Patch up only on such a clone alone; and it adds or removes
      machines only while Patch is held and no `pg_restore` runs. */
  ghost predicate StepWatched(counts: Counts, here: World, after: World, r: Record) {
    && (forall m | m in here.machines && m !in after.machines :: m == r.machine && CloneHolds(counts, after, r))
    && (after.patch != here.patch && after.patch.Some? ==> CloneHolds(counts, after, r) && r.machine !in after.machines)
    && (after.machines.Keys != here.machines.Keys ==> here.patch.None? && here.restoring == {})
    && VolumesKept(counts, here, after)
  }

  ghost predicate Watched(counts: Counts, w: World, notes: Notes, r: Record, recipe: seq<Command>, choices: seq<Choice>)
    requires |choices| == |recipe|
    decreases |recipe|
  {
    recipe == [] ||
    var here := HappenAll(w, choices[0].background);
    var done := Perform(counts, here, notes, recipe[0], choices[0].how, choices[0].newId);
    && StepWatched(counts, here, done.world, r)
    && (done.ok && choices[0].seen ==> Watched(counts, done.world, done.notes, r, recipe[1..], choices[1..]))
  }

  /** What an undo that was carried through leaves. */
  ghost predicate Undone(counts: Counts, w: World, r: Record) {
    CloneHolds(counts, w, r) && r.machine !in w.machines && w.patch == Some(r.liveImage) && w.ready
  }

  ghost predicate Tells(counts: Counts, w: World, notes: Notes, r: Record, recipe: seq<Command>, choices: seq<Choice>)
    requires |choices| == |recipe|
  {
    && Watched(counts, w, notes, r, recipe, choices)
    && (Follow(counts, w, notes, recipe, choices).1 ==> Undone(counts, Follow(counts, w, notes, recipe, choices).0, r))
  }

  lemma ConsTells(counts: Counts, w: World, notes: Notes, r: Record, command: Command, rest: seq<Command>, choices: seq<Choice>)
    requires |choices| == 1 + |rest|
    requires var done := Step(counts, w, notes, command, choices);
      && StepWatched(counts, Here(w, choices), done.world, r)
      && (done.ok && choices[0].seen ==> Tells(counts, done.world, done.notes, r, rest, choices[1..]))
    ensures Tells(counts, w, notes, r, [command] + rest, choices)
  {
    hide StepWatched, Undone;
    assert ([command] + rest)[1..] == rest;
  }

  // ----- Events ---------------------------------------------------------------

  lemma EventSame(w: World, event: Event)
    ensures SameButRunning(w, Happen(w, event))
  {
  }

  lemma {:induction false} EventsSame(w: World, events: seq<Event>)
    ensures SameButRunning(w, HappenAll(w, events))
    ensures w.patch.Some? && w.ready ==> HappenAll(w, events).ready
    decreases |events|
  {
    if events != [] {
      EventSame(w, events[0]);
      EventsSame(Happen(w, events[0]), events[1..]);
    }
  }

  lemma SameIsSound(w: World, t: World, r: Record)
    requires SameButRunning(w, t) && Sound(w, r)
    ensures Sound(t, r)
  {
  }

  // ----- Where an undo can stand ----------------------------------------------

  ghost predicate Held(w: World, r: Record) {
    Sound(w, r) && w.patch.None?
  }

  ghost predicate Quieted(w: World, r: Record) {
    Held(w, r) && w.restoring == {}
  }

  ghost predicate Volume(w: World, r: Record, v: string) {
    Quieted(w, r) && v in w.volumes
  }

  ghost predicate Beside(w: World, r: Record, clone: string) {
    Quieted(w, r) && clone in w.machines && clone != r.machine
  }

  ghost predicate Checked(counts: Counts, w: World, r: Record, clone: string) {
    Beside(w, r, clone) && Rows(counts, DbOf(w, clone)) == Some(r.countBefore)
  }

  lemma QuietedSame(counts: Counts, w: World, t: World, r: Record)
    requires SameButRunning(w, t) && Quieted(w, r)
    ensures Quieted(t, r) && t.volumes == w.volumes && t.machines.Keys == w.machines.Keys
    ensures forall m :: DbOf(t, m) == DbOf(w, m)
  {
  }

  // ----- The steps, last one first ---------------------------------------------

  lemma TailTells(counts: Counts, w: World, notes: Notes, r: Record, tail: seq<Command>, choices: seq<Choice>)
    requires |choices| == |tail| && IsTail(tail) && Undone(counts, w, r) && w.restoring == {}
    ensures Tells(counts, w, notes, r, tail, choices)
  {
    if tail != [] {
      EventsSame(w, choices[0].background);
      var here := Here(w, choices);
      var done := Step(counts, w, notes, tail[0], choices);
      UndoneSame(counts, w, here, r);
      SleepWatched(counts, here, notes, r, tail[0], choices[0].how, choices[0].newId);
      assert tail == [tail[0]] + [] && choices[1..] == [];
      ConsTells(counts, w, notes, r, tail[0], [], choices);
    }
  }

  lemma UndoneSame(counts: Counts, w: World, t: World, r: Record)
    requires SameButRunning(w, t) && Undone(counts, w, r) && w.restoring == {} && t.ready
    ensures Undone(counts, t, r)
  {
    var clone :| clone in w.machines && clone != r.machine && Rows(counts, DbOf(w, clone)) == Some(r.countBefore);
    assert clone in t.machines && DbOf(t, clone) == DbOf(w, clone);
  }

  lemma SleepWatched(counts: Counts, here: World, notes: Notes, r: Record, command: Command, how: How, newId: string)
    requires command.SetAutostop? && Undone(counts, here, r)
    ensures var after := Perform(counts, here, notes, command, how, newId).world;
      StepWatched(counts, here, after, r) && Undone(counts, after, r)
  {
    var after := Perform(counts, here, notes, command, how, newId).world;
    var clone :| clone in here.machines && clone != r.machine && Rows(counts, DbOf(here, clone)) == Some(r.countBefore);
    assert clone in after.machines && DbOf(after, clone) == DbOf(here, clone);
  }

  lemma DeployTells(counts: Counts, w: World, notes: Notes, r: Record, clone: string, tail: seq<Command>, choices: seq<Choice>)
    requires |choices| == 1 + |tail| && IsTail(tail) && Checked(counts, w, r, clone) && r.machine !in w.machines
    ensures Tells(counts, w, notes, r, [Deploy(r.liveImage)] + tail, choices)
  {
    EventsSame(w, choices[0].background);
    QuietedSame(counts, w, Here(w, choices), r);
    var done := Step(counts, w, notes, Deploy(r.liveImage), choices);
    assert clone in done.world.machines && DbOf(done.world, clone) == DbOf(w, clone);
    if done.ok && choices[0].seen {
      TailTells(counts, done.world, done.notes, r, tail, choices[1..]);
    }
    ConsTells(counts, w, notes, r, Deploy(r.liveImage), tail, choices);
  }

  lemma DestroyTells(counts: Counts, w: World, notes: Notes, r: Record, clone: string, choices: seq<Choice>)
    requires |choices| == 2 + |UndoTail(r)| && Checked(counts, w, r, clone)
    ensures Tells(counts, w, notes, r, FromDestroy(r), choices)
  {
    EventsSame(w, choices[0].background);
    QuietedSame(counts, w, Here(w, choices), r);
    var done := Step(counts, w, notes, DestroyMachine(r.machine), choices);
    assert clone in done.world.machines && DbOf(done.world, clone) == DbOf(w, clone);
    if done.ok && choices[0].seen {
      DeployTells(counts, done.world, done.notes, r, clone, UndoTail(r), choices[1..]);
    }
    ConsTells(counts, w, notes, r, DestroyMachine(r.machine), [Deploy(r.liveImage)] + UndoTail(r), choices);
  }

  lemma CheckTells(counts: Counts, w: World, notes: Notes, r: Record, clone: string, choices: seq<Choice>)
    requires |choices| == 3 + |UndoTail(r)| && Beside(w, r, clone) && notes.clone == Some(clone)
    ensures Tells(counts, w, notes, r, FromCheck(r), choices)
  {
    EventsSame(w, choices[0].background);
    QuietedSame(counts, w, Here(w, choices), r);
    var check := CountMigrations(CloneId, r.countBefore);
    var done := Step(counts, w, notes, check, choices);
    CheckChecks(counts, Here(w, choices), notes, r, clone, choices[0].how, choices[0].newId);
    if done.ok && choices[0].seen {
      DestroyTells(counts, done.world, done.notes, r, clone, choices[1..]);
    }
    ConsTells(counts, w, notes, r, check, FromDestroy(r), choices);
  }

  lemma CheckChecks(counts: Counts, here: World, notes: Notes, r: Record, clone: string, how: How, newId: string)
    requires Beside(here, r, clone) && notes.clone == Some(clone)
    ensures var done := Perform(counts, here, notes, CountMigrations(CloneId, r.countBefore), how, newId);
      && StepWatched(counts, here, done.world, r) && done.notes == notes
      && (done.ok ==> Checked(counts, done.world, r, clone))
  {
  }

  lemma CloneTells(counts: Counts, w: World, notes: Notes, r: Record, v: string, choices: seq<Choice>)
    requires |choices| == 4 + |UndoTail(r)| && Volume(w, r, v) && notes.volume == Some(v)
    ensures Tells(counts, w, notes, r, FromClone(r), choices)
  {
    EventsSame(w, choices[0].background);
    QuietedSame(counts, w, Here(w, choices), r);
    var done := Step(counts, w, notes, CloneOnto(r.machine), choices);
    if done.ok && choices[0].seen {
      CheckTells(counts, done.world, done.notes, r, done.notes.clone.value, choices[1..]);
    }
    ConsTells(counts, w, notes, r, CloneOnto(r.machine), FromCheck(r), choices);
  }

  lemma VolumeTells(counts: Counts, w: World, notes: Notes, r: Record, choices: seq<Choice>)
    requires |choices| == 5 + |UndoTail(r)| && r.snapshot.Some? && Quieted(w, r)
    ensures Tells(counts, w, notes, r, FromVolume(r), choices)
  {
    EventsSame(w, choices[0].background);
    QuietedSame(counts, w, Here(w, choices), r);
    var make := VolumeFromSnapshot(r.snapshot.value);
    var done := Step(counts, w, notes, make, choices);
    if done.ok && choices[0].seen {
      CloneTells(counts, done.world, done.notes, r, done.notes.volume.value, choices[1..]);
    }
    ConsTells(counts, w, notes, r, make, FromClone(r), choices);
  }

  lemma StopTells(counts: Counts, w: World, notes: Notes, r: Record, choices: seq<Choice>)
    requires |choices| == 6 + |UndoTail(r)| && r.snapshot.Some? && Held(w, r)
    ensures Tells(counts, w, notes, r, [StopMachine(r.machine)] + FromVolume(r), choices)
  {
    EventsSame(w, choices[0].background);
    SameIsSound(w, Here(w, choices), r);
    var done := Step(counts, w, notes, StopMachine(r.machine), choices);
    if done.ok && choices[0].seen {
      VolumeTells(counts, done.world, done.notes, r, choices[1..]);
    }
    ConsTells(counts, w, notes, r, StopMachine(r.machine), FromVolume(r), choices);
  }

  /** Whatever the snapshot, the databases and the clock of events: an attempt at the undo
      recipe is watched at every step; carried through, it leaves Patch answering on a clone
      that holds the rows counted before the restore. */
  lemma UndoIsWatched(counts: Counts, r: Record, w: World, notes: Notes, choices: seq<Choice>)
    requires Sound(w, r)
    requires RestoreRecipesFor(r).undo.Some? && |choices| == |RestoreRecipesFor(r).undo.value|
    ensures Tells(counts, w, notes, r, RestoreRecipesFor(r).undo.value, choices)
  {
    var rest := [StopMachine(r.machine)] + FromVolume(r);
    assert RestoreRecipesFor(r).undo.value == [HoldPatch] + rest;
    EventsSame(w, choices[0].background);
    SameIsSound(w, Here(w, choices), r);
    var done := Step(counts, w, notes, HoldPatch, choices);
    if done.ok && choices[0].seen {
      StopTells(counts, done.world, done.notes, r, choices[1..]);
    }
    ConsTells(counts, w, notes, r, HoldPatch, rest, choices);
  }

  // ----- Letting the machine sleep ----------------------------------------------

  /** The sleep step is there exactly while the autostop is owed. Sent after a completed
      restore it leaves everything as it should be; and without it everything is, already. */
  lemma SleepIsOwed(counts: Counts, r: Record, w: World, notes: Notes, newId: string)
    requires Consistent(counts, r, w)
    ensures RestoreRecipesFor(r).sleep.Some? <==> Owed(r)
    ensures r.phase.Completed? ==>
      match RestoreRecipesFor(r).sleep
      case None => Goal(counts, w, r, Restored(true))
      case Some(step) =>
        var done := Perform(counts, w, notes, step, Fully, newId);
        done.ok && Goal(counts, done.world, r, Restored(true))
  {
  }
}
