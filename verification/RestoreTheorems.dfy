/** What following a restore's recipes achieves, from every world its record can stand for. */
module RestoreTheorems {
  import opened Wrappers
  import opened FlyWorld
  import opened RestoreRecipes

  const AllDbs: set<Db> := {PreRestore, NoDatabase, EmptyDatabase, Restored(false), Restored(true)}
  const GoodDbs: set<Db> := {PreRestore, Restored(true)}

  /** What a finished recipe must leave: Patch live on the recorded image and answering, one
      database machine with that database, its autostop as it was. */
  ghost predicate Goal(counts: Counts, w: World, r: Record, db: Db) {
    Within(counts, w, r, {db}, Live, false, {AutostopBefore(r)}) && w.ready
  }

  /** The recipe's last step: nothing, or the autostop back on. */
  ghost predicate TailOk(notes: Notes, r: Record, autostops: set<Autostop>, tail: seq<Command>) {
    || (tail == [] && autostops == {AutostopBefore(r)})
    || (|tail| == 1 && tail[0].SetAutostop? && Resolve(notes, tail[0].ref) == Some(r.machine) && tail[0].value == AutostopBefore(r))
  }

  /** Safe all the way; and if every step showed what it should, the goal. */
  ghost predicate Ends(counts: Counts, w: World, notes: Notes, r: Record, db: Db, recipe: seq<Command>, choices: seq<Choice>)
    requires |recipe| == |choices|
  {
    && SafelyFollowed(counts, w, notes, recipe, choices)
    && (Follow(counts, w, notes, recipe, choices).1 ==> Goal(counts, Follow(counts, w, notes, recipe, choices).0, r, db))
  }

  function Here(w: World, choices: seq<Choice>): World
    requires |choices| > 0
  {
    HappenAll(w, choices[0].background)
  }

  function Step(counts: Counts, w: World, notes: Notes, command: Command, choices: seq<Choice>): Performed
    requires |choices| > 0
  {
    Perform(counts, Here(w, choices), notes, command, choices[0].how, choices[0].newId)
  }

  lemma Cons(counts: Counts, w: World, notes: Notes, r: Record, db: Db, command: Command, rest: seq<Command>, choices: seq<Choice>)
    requires |choices| == 1 + |rest| && SafeWhile(w, choices[0].background)
    requires command.DropCreate? ==> command.id !in Here(w, choices).restoring
    requires var done := Step(counts, w, notes, command, choices);
      Safe(done.world) && (done.ok && choices[0].seen ==> Ends(counts, done.world, done.notes, r, db, rest, choices[1..]))
    ensures Ends(counts, w, notes, r, db, [command] + rest, choices)
  {
    assert ([command] + rest)[1..] == rest;
  }

  lemma {:induction false} Quiet(counts: Counts, w: World, r: Record, dbs: set<Db>, view: PatchView, autostops: set<Autostop>, events: seq<Event>)
    requires Within(counts, w, r, dbs, view, false, autostops) && (dbs <= GoodDbs || view.Down?)
    ensures Within(counts, HappenAll(w, events), r, dbs, view, false, autostops) && SafeWhile(w, events)
    ensures w.ready && w.patch.Some? ==> HappenAll(w, events).ready
    decreases |events|
  {
    if events != [] {
      Quiet(counts, Happen(w, events[0]), r, dbs, view, autostops, events[1..]);
    }
  }

  /** While a `pg_restore` may still be running, the database can become a restored one at any time. */
  lemma {:induction false} Noisy(counts: Counts, w: World, r: Record, autostops: set<Autostop>, events: seq<Event>)
    requires Within(counts, w, r, AllDbs, Down, true, autostops)
    ensures Within(counts, HappenAll(w, events), r, AllDbs, Down, true, autostops) && SafeWhile(w, events)
    decreases |events|
  {
    if events != [] {
      Noisy(counts, Happen(w, events[0]), r, autostops, events[1..]);
    }
  }

  lemma TailEnds(counts: Counts, w: World, notes: Notes, r: Record, db: Db, autostops: set<Autostop>,
                 tail: seq<Command>, choices: seq<Choice>)
    requires |tail| == |choices| && db in GoodDbs
    requires Within(counts, w, r, {db}, Live, false, autostops) && TailOk(notes, r, autostops, tail) && w.ready
    ensures Ends(counts, w, notes, r, db, tail, choices)
  {
    if tail != [] {
      Quiet(counts, w, r, {db}, Live, autostops, choices[0].background);
    }
  }

  lemma ReleaseEnds(counts: Counts, w: World, notes: Notes, r: Record, db: Db, view: PatchView, autostops: set<Autostop>,
                    tail: seq<Command>, choices: seq<Choice>)
    requires |choices| == 1 + |tail| && db in GoodDbs
    requires Within(counts, w, r, {db}, view, false, autostops) && TailOk(notes, r, autostops, tail)
    ensures Ends(counts, w, notes, r, db, [Deploy(r.liveImage)] + tail, choices)
  {
    Quiet(counts, w, r, {db}, view, autostops, choices[0].background);
    var done := Step(counts, w, notes, Deploy(r.liveImage), choices);
    if done.ok && choices[0].seen {
      TailEnds(counts, done.world, done.notes, r, db, autostops, tail, choices[1..]);
    }
    Cons(counts, w, notes, r, db, Deploy(r.liveImage), tail, choices);
  }

  /** The count step lets the recipe go on only over a restored database with the backup's count. */
  lemma ValidateEnds(counts: Counts, w: World, notes: Notes, r: Record, autostops: set<Autostop>,
                     tail: seq<Command>, choices: seq<Choice>)
    requires |choices| == 2 + |tail| && counts.backup == r.backupCount
    requires Within(counts, w, r, {Restored(false), Restored(true)}, Down, false, autostops) && TailOk(notes, r, autostops, tail)
    ensures Ends(counts, w, notes, r, Restored(true),
                 [CountMigrations(Named(r.machine), r.backupCount)] + ([Deploy(r.liveImage)] + tail), choices)
  {
    var validate := CountMigrations(Named(r.machine), r.backupCount);
    Quiet(counts, w, r, {Restored(false), Restored(true)}, Down, autostops, choices[0].background);
    var done := Step(counts, w, notes, validate, choices);
    if done.ok && choices[0].seen {
      ReleaseEnds(counts, done.world, done.notes, r, Restored(true), Down, autostops, tail, choices[1..]);
    }
    Cons(counts, w, notes, r, Restored(true), validate, [Deploy(r.liveImage)] + tail, choices);
  }

  function FromValidate(r: Record, tail: seq<Command>): seq<Command> {
    [CountMigrations(Named(r.machine), r.backupCount)] + ([Deploy(r.liveImage)] + tail)
  }

  lemma RestoreEndsWell(counts: Counts, w: World, notes: Notes, r: Record, autostops: set<Autostop>,
                        tail: seq<Command>, choices: seq<Choice>)
    requires |choices| == 3 + |tail| && counts.backup == r.backupCount
    requires Within(counts, w, r, {EmptyDatabase}, Down, false, autostops) && TailOk(notes, r, autostops, tail)
    ensures Ends(counts, w, notes, r, Restored(true), [PgRestore(r.machine)] + FromValidate(r, tail), choices)
  {
    Quiet(counts, w, r, {EmptyDatabase}, Down, autostops, choices[0].background);
    var done := Step(counts, w, notes, PgRestore(r.machine), choices);
    if done.ok && choices[0].seen {
      ValidateEnds(counts, done.world, done.notes, r, autostops, tail, choices[1..]);
    }
    Cons(counts, w, notes, r, Restored(true), PgRestore(r.machine), FromValidate(r, tail), choices);
  }

  function FromRestore(r: Record, tail: seq<Command>): seq<Command> {
    [PgRestore(r.machine)] + FromValidate(r, tail)
  }

  lemma DropEnds(counts: Counts, w: World, notes: Notes, r: Record, autostops: set<Autostop>,
                 tail: seq<Command>, choices: seq<Choice>)
    requires |choices| == 4 + |tail| && counts.backup == r.backupCount
    requires Within(counts, w, r, AllDbs, Down, false, autostops) && TailOk(notes, r, autostops, tail)
    ensures Ends(counts, w, notes, r, Restored(true), [DropCreate(r.machine)] + FromRestore(r, tail), choices)
  {
    Quiet(counts, w, r, AllDbs, Down, autostops, choices[0].background);
    var done := Step(counts, w, notes, DropCreate(r.machine), choices);
    if done.ok && choices[0].seen {
      RestoreEndsWell(counts, done.world, done.notes, r, autostops, tail, choices[1..]);
    }
    Cons(counts, w, notes, r, Restored(true), DropCreate(r.machine), FromRestore(r, tail), choices);
  }

  function FromDrop(r: Record, tail: seq<Command>): seq<Command> {
    [DropCreate(r.machine)] + FromRestore(r, tail)
  }

  /** The step that keeps the drop from being sent under a `pg_restore` that outlived its own command. */
  lemma CheckIdleEnds(counts: Counts, w: World, notes: Notes, r: Record, autostops: set<Autostop>,
                      tail: seq<Command>, choices: seq<Choice>)
    requires |choices| == 5 + |tail| && counts.backup == r.backupCount
    requires Within(counts, w, r, AllDbs, Down, true, autostops) && TailOk(notes, r, autostops, tail)
    ensures Ends(counts, w, notes, r, Restored(true), [CountRestores(r.machine)] + FromDrop(r, tail), choices)
  {
    Noisy(counts, w, r, autostops, choices[0].background);
    var done := Step(counts, w, notes, CountRestores(r.machine), choices);
    if done.ok && choices[0].seen {
      DropEnds(counts, done.world, done.notes, r, autostops, tail, choices[1..]);
    }
    Cons(counts, w, notes, r, Restored(true), CountRestores(r.machine), FromDrop(r, tail), choices);
  }

  lemma StartThenCheckEnds(counts: Counts, w: World, notes: Notes, r: Record, autostops: set<Autostop>,
                           tail: seq<Command>, choices: seq<Choice>)
    requires |choices| == 6 + |tail| && counts.backup == r.backupCount
    requires Within(counts, w, r, AllDbs, Down, true, autostops) && TailOk(notes, r, autostops, tail)
    ensures Ends(counts, w, notes, r, Restored(true),
                 [StartMachine(r.machine)] + ([CountRestores(r.machine)] + FromDrop(r, tail)), choices)
  {
    Noisy(counts, w, r, autostops, choices[0].background);
    var done := Step(counts, w, notes, StartMachine(r.machine), choices);
    if done.ok && choices[0].seen {
      CheckIdleEnds(counts, done.world, done.notes, r, autostops, tail, choices[1..]);
    }
    Cons(counts, w, notes, r, Restored(true), StartMachine(r.machine), [CountRestores(r.machine)] + FromDrop(r, tail), choices);
  }

  lemma StartThenValidateEnds(counts: Counts, w: World, notes: Notes, r: Record, autostops: set<Autostop>,
                              tail: seq<Command>, choices: seq<Choice>)
    requires |choices| == 3 + |tail| && counts.backup == r.backupCount
    requires Within(counts, w, r, {Restored(false), Restored(true)}, Down, false, autostops) && TailOk(notes, r, autostops, tail)
    ensures Ends(counts, w, notes, r, Restored(true), [StartMachine(r.machine)] + FromValidate(r, tail), choices)
  {
    Quiet(counts, w, r, {Restored(false), Restored(true)}, Down, autostops, choices[0].background);
    var done := Step(counts, w, notes, StartMachine(r.machine), choices);
    if done.ok && choices[0].seen {
      ValidateEnds(counts, done.world, done.notes, r, autostops, tail, choices[1..]);
    }
    Cons(counts, w, notes, r, Restored(true), StartMachine(r.machine), FromValidate(r, tail), choices);
  }

  lemma ReadyEnds(counts: Counts, w: World, notes: Notes, r: Record, autostops: set<Autostop>,
                  tail: seq<Command>, choices: seq<Choice>)
    requires |choices| == 1 + |tail|
    requires Within(counts, w, r, {Restored(true)}, Live, false, autostops) && TailOk(notes, r, autostops, tail)
    ensures Ends(counts, w, notes, r, Restored(true), [CheckReady] + tail, choices)
  {
    Quiet(counts, w, r, {Restored(true)}, Live, autostops, choices[0].background);
    var done := Step(counts, w, notes, CheckReady, choices);
    if done.ok && choices[0].seen {
      TailEnds(counts, done.world, done.notes, r, Restored(true), autostops, tail, choices[1..]);
    }
    Cons(counts, w, notes, r, Restored(true), CheckReady, tail, choices);
  }

  /** The database a finish recipe ends with: untouched if the drop was never sent, else the validated restore. */
  function FinishedDb(r: Record): Db {
    if Reached(r.phase, DropSent) then Restored(true) else PreRestore
  }

  function TailOf(r: Record): seq<Command> {
    if r.keepAwake.Some? && !r.keepAwake.value.restored
    then [SetAutostop(Named(r.machine), r.keepAwake.value.previous)] else []
  }

  lemma FinishRecipeIsSound(counts: Counts, r: Record, w: World, notes: Notes, choices: seq<Choice>)
    requires Consistent(counts, r, w)
    requires RestoreRecipesFor(r).finish.Some? && |choices| == |RestoreRecipesFor(r).finish.value|
    ensures Ends(counts, w, notes, r, FinishedDb(r), RestoreRecipesFor(r).finish.value, choices)
  {
    var tail := TailOf(r);
    var autostops := AutostopsNow(r);
    var recipe := RestoreRecipesFor(r).finish.value;
    if !Reached(r.phase, DropSent) {
      assert recipe == [Deploy(r.liveImage)] + tail;
      ReleaseEnds(counts, w, notes, r, PreRestore, PatchAt(r.phase), autostops, tail, choices);
    } else if !Reached(r.phase, RestoredPhase) {
      assert recipe == [StartMachine(r.machine)] + ([CountRestores(r.machine)] + FromDrop(r, tail));
      StartThenCheckEnds(counts, w, notes, r, autostops, tail, choices);
    } else if !Reached(r.phase, Validated) {
      assert recipe == [StartMachine(r.machine)] + FromValidate(r, tail);
      StartThenValidateEnds(counts, w, notes, r, autostops, tail, choices);
    } else if !Reached(r.phase, Released) {
      assert recipe == [Deploy(r.liveImage)] + tail;
      ReleaseEnds(counts, w, notes, r, Restored(true), PatchAt(r.phase), autostops, tail, choices);
    } else {
      assert recipe == [CheckReady] + tail;
      ReadyEnds(counts, w, notes, r, autostops, tail, choices);
    }
  }

  // ----- Undoing --------------------------------------------------------------

  /** The same for a recipe that replaces the database machine: whichever clone it ends with. */
  ghost predicate EndsOnClone(counts: Counts, w: World, notes: Notes, r: Record, recipe: seq<Command>, choices: seq<Choice>)
    requires |recipe| == |choices|
  {
    && SafelyFollowed(counts, w, notes, recipe, choices)
    && (Follow(counts, w, notes, recipe, choices).1 ==>
          exists clone :: Goal(counts, Follow(counts, w, notes, recipe, choices).0, r.(machine := clone), PreRestore))
  }

  lemma ConsOnClone(counts: Counts, w: World, notes: Notes, r: Record, command: Command, rest: seq<Command>, choices: seq<Choice>)
    requires |choices| == 1 + |rest| && SafeWhile(w, choices[0].background) && !command.DropCreate?
    requires var done := Step(counts, w, notes, command, choices);
      Safe(done.world) && (done.ok && choices[0].seen ==> EndsOnClone(counts, done.world, done.notes, r, rest, choices[1..]))
    ensures EndsOnClone(counts, w, notes, r, [command] + rest, choices)
  {
    assert ([command] + rest)[1..] == rest;
  }

  /** The old machine stopped, a volume with the pre-restore database made. */
  ghost predicate VolumeMade(counts: Counts, w: World, r: Record, volume: string, autostops: set<Autostop>) {
    && Within(counts, w, r, AllDbs, Down, false, autostops)
    && volume in w.volumes && w.volumes[volume] == PreRestore
  }

  lemma {:induction false} QuietVolume(counts: Counts, w: World, r: Record, volume: string, autostops: set<Autostop>, events: seq<Event>)
    requires VolumeMade(counts, w, r, volume, autostops)
    ensures VolumeMade(counts, HappenAll(w, events), r, volume, autostops) && SafeWhile(w, events)
    decreases |events|
  {
    if events != [] {
      QuietVolume(counts, Happen(w, events[0]), r, volume, autostops, events[1..]);
    }
  }

  /** The old machine and its clone, which holds the pre-restore database. */
  ghost predicate Cloned(w: World, r: Record, clone: string, autostops: set<Autostop>) {
    && w.patch.None? && w.restoring == {}
    && clone != r.machine && w.machines.Keys == {r.machine, clone}
    && DbOf(w, clone) == Some(PreRestore) && w.machines[clone].autostop in autostops
    && (r.snapshot.Some? ==> r.snapshot.value in w.snapshots && w.snapshots[r.snapshot.value] == PreRestore)
  }

  lemma {:induction false} QuietClone(w: World, r: Record, clone: string, autostops: set<Autostop>, events: seq<Event>)
    requires Cloned(w, r, clone, autostops)
    ensures Cloned(HappenAll(w, events), r, clone, autostops) && SafeWhile(w, events)
    decreases |events|
  {
    if events != [] {
      QuietClone(Happen(w, events[0]), r, clone, autostops, events[1..]);
    }
  }

  function UndoTail(r: Record): seq<Command> {
    if r.keepAwake.Some? && !r.keepAwake.value.restored
    then [SetAutostop(CloneId, r.keepAwake.value.previous)] else []
  }

  function FromDestroy(r: Record): seq<Command> {
    [DestroyMachine(r.machine)] + ([Deploy(r.liveImage)] + UndoTail(r))
  }

  lemma DestroyEnds(counts: Counts, w: World, notes: Notes, r: Record, clone: string, choices: seq<Choice>)
    requires |choices| == 2 + |UndoTail(r)| && notes.clone == Some(clone)
    requires Cloned(w, r, clone, AutostopsNow(r)) && TailOk(notes, r.(machine := clone), AutostopsNow(r), UndoTail(r))
    ensures EndsOnClone(counts, w, notes, r, FromDestroy(r), choices)
  {
    var renamed := r.(machine := clone);
    QuietClone(w, r, clone, AutostopsNow(r), choices[0].background);
    var done := Step(counts, w, notes, DestroyMachine(r.machine), choices);
    if done.ok && choices[0].seen {
      ReleaseEnds(counts, done.world, notes, renamed, PreRestore, Down, AutostopsNow(r), UndoTail(r), choices[1..]);
    }
    ConsOnClone(counts, w, notes, r, DestroyMachine(r.machine), [Deploy(r.liveImage)] + UndoTail(r), choices);
  }

  lemma CheckCloneEnds(counts: Counts, w: World, notes: Notes, r: Record, clone: string, choices: seq<Choice>)
    requires |choices| == 3 + |UndoTail(r)| && notes.clone == Some(clone)
    requires Cloned(w, r, clone, AutostopsNow(r)) && TailOk(notes, r.(machine := clone), AutostopsNow(r), UndoTail(r))
    ensures EndsOnClone(counts, w, notes, r, [CountMigrations(CloneId, r.countBefore)] + FromDestroy(r), choices)
  {
    QuietClone(w, r, clone, AutostopsNow(r), choices[0].background);
    var done := Step(counts, w, notes, CountMigrations(CloneId, r.countBefore), choices);
    if done.ok && choices[0].seen {
      DestroyEnds(counts, done.world, notes, r, clone, choices[1..]);
    }
    ConsOnClone(counts, w, notes, r, CountMigrations(CloneId, r.countBefore), FromDestroy(r), choices);
  }

  function FromCheck(r: Record): seq<Command> {
    [CountMigrations(CloneId, r.countBefore)] + FromDestroy(r)
  }

  lemma CloneEnds(counts: Counts, w: World, notes: Notes, r: Record, volume: string, choices: seq<Choice>)
    requires |choices| == 4 + |UndoTail(r)| && notes.volume == Some(volume)
    requires VolumeMade(counts, w, r, volume, AutostopsNow(r))
    requires UndoTail(r) == [] ==> AutostopsNow(r) == {AutostopBefore(r)}
    ensures EndsOnClone(counts, w, notes, r, [CloneOnto(r.machine)] + FromCheck(r), choices)
  {
    QuietVolume(counts, w, r, volume, AutostopsNow(r), choices[0].background);
    var done := Step(counts, w, notes, CloneOnto(r.machine), choices);
    if done.ok && choices[0].seen {
      CheckCloneEnds(counts, done.world, done.notes, r, done.notes.clone.value, choices[1..]);
    }
    ConsOnClone(counts, w, notes, r, CloneOnto(r.machine), FromCheck(r), choices);
  }

  function FromClone(r: Record): seq<Command> {
    [CloneOnto(r.machine)] + FromCheck(r)
  }

  lemma MakeVolumeEnds(counts: Counts, w: World, notes: Notes, r: Record, choices: seq<Choice>)
    requires |choices| == 5 + |UndoTail(r)| && r.snapshot.Some?
    requires Within(counts, w, r, AllDbs, Down, false, AutostopsNow(r))
    requires UndoTail(r) == [] ==> AutostopsNow(r) == {AutostopBefore(r)}
    ensures EndsOnClone(counts, w, notes, r, [VolumeFromSnapshot(r.snapshot.value)] + FromClone(r), choices)
  {
    Quiet(counts, w, r, AllDbs, Down, AutostopsNow(r), choices[0].background);
    var done := Step(counts, w, notes, VolumeFromSnapshot(r.snapshot.value), choices);
    if done.ok && choices[0].seen {
      CloneEnds(counts, done.world, done.notes, r, done.notes.volume.value, choices[1..]);
    }
    ConsOnClone(counts, w, notes, r, VolumeFromSnapshot(r.snapshot.value), FromClone(r), choices);
  }

  function FromVolume(r: Record): seq<Command>
    requires r.snapshot.Some?
  {
    [VolumeFromSnapshot(r.snapshot.value)] + FromClone(r)
  }

  lemma StopEnds(counts: Counts, w: World, notes: Notes, r: Record, choices: seq<Choice>)
    requires |choices| == 6 + |UndoTail(r)| && r.snapshot.Some?
    requires Within(counts, w, r, AllDbs, Down, true, AutostopsNow(r))
    requires UndoTail(r) == [] ==> AutostopsNow(r) == {AutostopBefore(r)}
    ensures EndsOnClone(counts, w, notes, r, [StopMachine(r.machine)] + FromVolume(r), choices)
  {
    Noisy(counts, w, r, AutostopsNow(r), choices[0].background);
    var done := Step(counts, w, notes, StopMachine(r.machine), choices);
    if done.ok && choices[0].seen {
      MakeVolumeEnds(counts, done.world, done.notes, r, choices[1..]);
    }
    ConsOnClone(counts, w, notes, r, StopMachine(r.machine), FromVolume(r), choices);
  }

  lemma BeforeHold(counts: Counts, r: Record, w: World, events: seq<Event>)
    requires Consistent(counts, r, w) && Reached(r.phase, DropSent)
    ensures SafeWhile(w, events)
    ensures Within(counts, HappenAll(w, events), r, AllDbs, Either, true, AutostopsNow(r))
    ensures HappenAll(w, events).patch.Some? ==> Safe(HappenAll(w, events))
  {
    if r.phase.RestoreSent? {
      Noisy(counts, w, r, AutostopsNow(r), events);
    } else {
      Quiet(counts, w, r, DbsAt(r), PatchAt(r.phase), AutostopsNow(r), events);
    }
  }

  /** From every point after the drop was sent: safe all the way, and once every step
      has shown what it should, the pre-restore database is live on the recorded image. */
  lemma UndoRecipeIsSound(counts: Counts, r: Record, w: World, notes: Notes, choices: seq<Choice>)
    requires Consistent(counts, r, w)
    requires RestoreRecipesFor(r).undo.Some? && |choices| == |RestoreRecipesFor(r).undo.value|
    ensures EndsOnClone(counts, w, notes, r, RestoreRecipesFor(r).undo.value, choices)
  {
    var rest := [StopMachine(r.machine)] + FromVolume(r);
    assert RestoreRecipesFor(r).undo.value == [HoldPatch] + rest;
    BeforeHold(counts, r, w, choices[0].background);
    var done := Step(counts, w, notes, HoldPatch, choices);
    if done.ok && choices[0].seen {
      StopEnds(counts, done.world, done.notes, r, choices[1..]);
    }
    ConsOnClone(counts, w, notes, r, HoldPatch, rest, choices);
  }

  // ----- The recipes can be completed, and one always applies -----------------

  /** What a step may wait for. */
  function Waited(command: Command): seq<Event> {
    if command.CountRestores? then [RestoreEnds(command.id, true)] else if command.CheckReady? then [Answers] else []
  }

  /** Nothing goes wrong; a `pg_restore` left behind ends, and Patch answers, when the recipe
      waits for it. */
  function Smooth(recipe: seq<Command>, newId: string): (choices: seq<Choice>)
    ensures |choices| == |recipe|
    decreases |recipe|
  {
    if recipe == [] then []
    else
      [Choice(Waited(recipe[0]), Fully, true, newId)]
      + Smooth(recipe[1..], newId)
  }

  ghost predicate Completes(counts: Counts, w: World, notes: Notes, recipe: seq<Command>, newId: string) {
    Follow(counts, w, notes, recipe, Smooth(recipe, newId)).1
  }

  lemma CompletesCons(counts: Counts, w: World, notes: Notes, command: Command, rest: seq<Command>, newId: string) returns (done: Performed)
    ensures done == Perform(counts, HappenAll(w, Waited(command)), notes, command, Fully, newId)
    ensures done.ok && Completes(counts, done.world, done.notes, rest, newId) ==> Completes(counts, w, notes, [command] + rest, newId)
  {
    var recipe := [command] + rest;
    var background := Waited(command);
    done := Perform(counts, HappenAll(w, background), notes, command, Fully, newId);
    assert recipe[1..] == rest;
    var head := [Choice(background, Fully, true, newId)];
    assert Smooth(recipe, newId) == head + Smooth(rest, newId);
    assert (head + Smooth(rest, newId))[1..] == Smooth(rest, newId);
  }

  lemma CompletesNothing(counts: Counts, w: World, notes: Notes, newId: string)
    ensures Completes(counts, w, notes, [], newId)
  {
  }

  lemma TailCompletes(counts: Counts, w: World, notes: Notes, r: Record, tail: seq<Command>, newId: string)
    requires r.machine in w.machines
    requires |tail| <= 1 && (tail != [] ==> tail[0].SetAutostop? && Resolve(notes, tail[0].ref) == Some(r.machine))
    ensures Completes(counts, w, notes, [Deploy(r.liveImage)] + tail, newId)
  {
    var released := CompletesCons(counts, w, notes, Deploy(r.liveImage), tail, newId);
    if tail != [] {
      var slept := CompletesCons(counts, released.world, notes, tail[0], [], newId);
      assert [tail[0]] + [] == tail;
    }
  }

  lemma ValidateCompletes(counts: Counts, w: World, notes: Notes, r: Record, newId: string)
    requires Running(w, r.machine) && DbOf(w, r.machine) in {Some(Restored(false)), Some(Restored(true))}
    requires counts.dump == counts.backup == r.backupCount
    ensures Completes(counts, w, notes, FromValidate(r, TailOf(r)), newId)
  {
    var done := CompletesCons(counts, w, notes, CountMigrations(Named(r.machine), r.backupCount), [Deploy(r.liveImage)] + TailOf(r), newId);
    TailCompletes(counts, done.world, notes, r, TailOf(r), newId);
  }

  lemma RedoCompletes(counts: Counts, w: World, notes: Notes, r: Record, newId: string)
    requires Within(counts, w, r, AllDbs, Down, true, AutostopsNow(r))
    requires counts.dump == counts.backup == r.backupCount
    ensures Completes(counts, w, notes, [StartMachine(r.machine)] + ([CountRestores(r.machine)] + FromDrop(r, TailOf(r))), newId)
  {
    hide Completes;
    var m, tail := r.machine, TailOf(r);
    var started := CompletesCons(counts, w, notes, StartMachine(m), [CountRestores(m)] + FromDrop(r, tail), newId);
    var w1 := started.world;
    assert HappenAll(w1, [RestoreEnds(m, true)]) == Happen(w1, RestoreEnds(m, true));
    var idle := CompletesCons(counts, w1, notes, CountRestores(m), FromDrop(r, tail), newId);
    var dropped := CompletesCons(counts, idle.world, notes, DropCreate(m), FromRestore(r, tail), newId);
    var restored := CompletesCons(counts, dropped.world, notes, PgRestore(m), FromValidate(r, tail), newId);
    ValidateCompletes(counts, restored.world, notes, r, newId);
  }

  /** The finish recipe can be carried through exactly when the backup is good, or was never needed. */
  lemma FinishCompletesExactlyWhen(counts: Counts, r: Record, w: World, notes: Notes, newId: string)
    requires Consistent(counts, r, w) && RestoreRecipesFor(r).finish.Some?
    ensures var recipe := RestoreRecipesFor(r).finish.value;
      (exists choices: seq<Choice> | |choices| == |recipe| :: Follow(counts, w, notes, recipe, choices).1)
      <==> (Reached(r.phase, DropSent) ==> counts.dump == counts.backup)
  {
    var recipe := RestoreRecipesFor(r).finish.value;
    forall choices: seq<Choice> | |choices| == |recipe| && Follow(counts, w, notes, recipe, choices).1
      ensures Reached(r.phase, DropSent) ==> counts.dump == counts.backup
    {
      FinishRecipeIsSound(counts, r, w, notes, choices);
    }
    if Reached(r.phase, DropSent) ==> counts.dump == counts.backup {
      FinishCompletes(counts, r, w, notes, newId);
      assert |Smooth(recipe, newId)| == |recipe|;
    }
  }

  lemma FinishCompletes(counts: Counts, r: Record, w: World, notes: Notes, newId: string)
    requires Consistent(counts, r, w) && RestoreRecipesFor(r).finish.Some?
    requires Reached(r.phase, DropSent) ==> counts.dump == counts.backup
    ensures Completes(counts, w, notes, RestoreRecipesFor(r).finish.value, newId)
  {
    hide Completes;
    var tail := TailOf(r);
    var recipe := RestoreRecipesFor(r).finish.value;
    if !Reached(r.phase, DropSent) || (Reached(r.phase, Validated) && !Reached(r.phase, Released)) {
      assert recipe == [Deploy(r.liveImage)] + tail;
      TailCompletes(counts, w, notes, r, tail, newId);
    } else if !Reached(r.phase, RestoredPhase) {
      assert recipe == [StartMachine(r.machine)] + ([CountRestores(r.machine)] + FromDrop(r, tail));
      RedoCompletes(counts, w, notes, r, newId);
    } else if !Reached(r.phase, Validated) {
      assert recipe == [StartMachine(r.machine)] + FromValidate(r, tail);
      var started := CompletesCons(counts, w, notes, StartMachine(r.machine), FromValidate(r, tail), newId);
      ValidateCompletes(counts, started.world, notes, r, newId);
    } else {
      assert recipe == [CheckReady] + tail;
      ReadyCompletes(counts, w, notes, r, newId);
    }
  }

  lemma ReadyCompletes(counts: Counts, w: World, notes: Notes, r: Record, newId: string)
    requires Consistent(counts, r, w) && r.phase.Released?
    ensures Completes(counts, w, notes, [CheckReady] + TailOf(r), newId)
  {
    hide Completes;
    var tail := TailOf(r);
    assert HappenAll(w, [Answers]) == Happen(w, Answers);
    var ready := CompletesCons(counts, w, notes, CheckReady, tail, newId);
    CompletesNothing(counts, ready.world, notes, newId);
    if tail != [] {
      var slept := CompletesCons(counts, ready.world, notes, tail[0], [], newId);
      CompletesNothing(counts, slept.world, notes, newId);
      assert [tail[0]] + [] == tail;
    }
  }

  lemma CheckCloneCompletes(counts: Counts, w: World, notes: Notes, r: Record, clone: string, newId: string)
    requires Cloned(w, r, clone, AutostopsNow(r)) && Running(w, clone) && notes.clone == Some(clone)
    requires counts.before == r.countBefore
    ensures Completes(counts, w, notes, FromCheck(r), newId)
  {
    var checked := CompletesCons(counts, w, notes, CountMigrations(CloneId, r.countBefore), FromDestroy(r), newId);
    var destroyed := CompletesCons(counts, w, notes, DestroyMachine(r.machine), [Deploy(r.liveImage)] + UndoTail(r), newId);
    TailCompletes(counts, destroyed.world, notes, r.(machine := clone), UndoTail(r), newId);
  }

  lemma CloneCompletes(counts: Counts, w: World, notes: Notes, r: Record, volume: string, newId: string)
    requires VolumeMade(counts, w, r, volume, AutostopsNow(r)) && notes.volume == Some(volume)
    requires newId !in w.machines && counts.before == r.countBefore
    ensures Completes(counts, w, notes, FromClone(r), newId)
  {
    var cloned := CompletesCons(counts, w, notes, CloneOnto(r.machine), FromCheck(r), newId);
    CheckCloneCompletes(counts, cloned.world, cloned.notes, r, newId, newId);
  }

  /** The undo recipe can be carried through, provided Fly hands out new ids. */
  lemma UndoCompletes(counts: Counts, r: Record, w: World, notes: Notes, newId: string)
    requires Consistent(counts, r, w) && RestoreRecipesFor(r).undo.Some?
    requires newId !in w.volumes && newId !in w.machines
    ensures Completes(counts, w, notes, RestoreRecipesFor(r).undo.value, newId)
  {
    hide Completes;
    assert RestoreRecipesFor(r).undo.value == [HoldPatch] + ([StopMachine(r.machine)] + FromVolume(r));
    var held := CompletesCons(counts, w, notes, HoldPatch, [StopMachine(r.machine)] + FromVolume(r), newId);
    var stopped := CompletesCons(counts, held.world, notes, StopMachine(r.machine), FromVolume(r), newId);
    var made := CompletesCons(counts, stopped.world, notes, VolumeFromSnapshot(r.snapshot.value), FromClone(r), newId);
    CloneCompletes(counts, made.world, made.notes, r, newId, newId);
  }

  /** Wherever the restore stops: a touched database can be put back, a Patch that is down
      can be brought back, and finishing is on offer unless it is over, not begun, or the
      count was not the backup's or could not be read. */
  lemma OneRecipeAlwaysApplies(counts: Counts, r: Record, w: World)
    requires Consistent(counts, r, w)
    ensures DbOf(w, r.machine) != Some(PreRestore) ==> RestoreRecipesFor(r).undo.Some?
    ensures w.patch.None? ==> RestoreRecipesFor(r).finish.Some? || RestoreRecipesFor(r).undo.Some?
    ensures RestoreRecipesFor(r).finish.None? <==> r.mismatch.Some? || r.phase.Staged? || r.phase.Completed?
    ensures r.mismatch.Some? ==> RestoreRecipesFor(r).undo.Some?
    ensures r.mismatch.Some? && r.mismatch.value.found.Some? ==> counts.dump != counts.backup
  {
  }

  predicate ClaimHolds(counts: Counts, claim: DatabaseClaim, db: Option<Db>) {
    match claim
    case Untouched => db == Some(PreRestore)
    case MayBeEmpty => db in {Some(PreRestore), Some(NoDatabase), Some(EmptyDatabase)}
    case NotProvablyRestored => db in {Some(EmptyDatabase), Some(Restored(false))}
    case Unchecked => db in {Some(Restored(false)), Some(Restored(true))}
    case MatchesBackup => db == Some(Restored(true)) && counts.dump == counts.backup
    case WrongCount(found) => db == Some(Restored(false)) && counts.dump == found != counts.backup
    case Unreadable => db == Some(Restored(false))
  }

  /** The line on where a restore stands is true of the database, and it sends the reader
      to exactly the recipes that are there. */
  lemma StandingIsTrue(counts: Counts, r: Record, w: World)
    requires Consistent(counts, r, w)
    ensures ClaimHolds(counts, DescribeRestorePhase(r).database, DbOf(w, r.machine))
    ensures DescribeRestorePhase(r).finish <==> RestoreRecipesFor(r).finish.Some?
    ensures DescribeRestorePhase(r).undo <==> RestoreRecipesFor(r).undo.Some?
  {
  }

  /** Finishing is withheld from a good restore exactly when the count could not be read
      though it is the backup's: the same record without the note would be finished. */
  lemma WithheldFromAGoodRestore(counts: Counts, r: Record, w: World, notes: Notes, newId: string)
    requires Consistent(counts, r, w) && r.mismatch.Some?
    ensures RestoreRecipesFor(r).finish.None?
    ensures var unnoted := r.(mismatch := None);
      && Consistent(counts, unnoted, w) && RestoreRecipesFor(unnoted).finish.Some?
      && (Completes(counts, w, notes, RestoreRecipesFor(unnoted).finish.value, newId) <==> counts.dump == counts.backup)
    ensures counts.dump == counts.backup ==> r.mismatch.value.found.None?
  {
    var unnoted := r.(mismatch := None);
    assert DbOf(w, r.machine) == Some(Restored(false));
    var recipe := RestoreRecipesFor(unnoted).finish.value;
    assert |Smooth(recipe, newId)| == |recipe|;
    if counts.dump == counts.backup {
      FinishCompletes(counts, unnoted, w, notes, newId);
    } else {
      FinishCompletesExactlyWhen(counts, unnoted, w, notes, newId);
    }
  }
}
