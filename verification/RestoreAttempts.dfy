/** Following a restore's recipes more than once: attempts that stop half-way, are taken up
    again from the top, or are given up for the other recipe, with the record as it was. */
module RestoreAttempts {
  import opened Wrappers
  import opened FlyWorld
  import opened RestoreRecipes
  import opened RestoreTheorems
  import opened RestoreFlow

  // ----- A drop under a live Patch --------------------------------------------

  /** The command drops the database of a running machine while Patch has machines. */
  predicate DropsUnderPatch(command: Command, how: How, here: World) {
    command.DropCreate? && !how.Nothing? && Running(here, command.id) && here.patch.Some?
  }

  /** No step of an attempt does. */
  predicate NeverUnderPatch(counts: Counts, w: World, notes: Notes, recipe: seq<Command>, choices: seq<Choice>)
    requires |choices| == |recipe|
    decreases |recipe|
  {
    if recipe == [] then true
    else
      var here := HappenAll(w, choices[0].background);
      var done := Perform(counts, here, notes, recipe[0], choices[0].how, choices[0].newId);
      && !DropsUnderPatch(recipe[0], choices[0].how, here)
      && (done.ok && choices[0].seen ==> NeverUnderPatch(counts, done.world, done.notes, recipe[1..], choices[1..]))
  }

  // ----- The worlds attempts leave --------------------------------------------

  predicate Drops(phase: Phase) {
    phase.DropSent? || phase.RestoreSent?
  }

  /** What the recorded machine may hold: a recipe that drops can leave anything. */
  function OwnDbs(r: Record): set<Db> {
    if !Reached(r.phase, DropSent) then {PreRestore}
    else if Drops(r.phase) then AllDbs
    else if r.phase.RestoredPhase? then {Restored(false), Restored(true)}
    else {Restored(true)}
  }

  /** The other machines are clones of the snapshot, on volumes of their own. */
  ghost predicate Clones(w: World, m: string) {
    forall x | x in w.machines && x != m ::
      DbOf(w, x) == Some(PreRestore) && (m in w.machines ==> w.machines[x].volume != w.machines[m].volume)
  }

  ghost predicate Open(counts: Counts, r: Record, w: World) {
    && counts.backup == r.backupCount
    && Clones(w, r.machine)
    && (r.machine in w.machines ==> DbOf(w, r.machine).Some? && DbOf(w, r.machine).value in OwnDbs(r))
    && w.restoring <= (if Drops(r.phase) then {r.machine} else {})
    && (w.patch.Some? ==> w.restoring == {})
    && (r.snapshot.Some? ==> r.snapshot.value in w.snapshots && w.snapshots[r.snapshot.value] == PreRestore)
    && Safe(w)
  }

  lemma ConsistentIsOpen(counts: Counts, r: Record, w: World)
    requires Consistent(counts, r, w)
    ensures Open(counts, r, w)
  {
  }

  /** What background events leave as it was. */
  ghost predicate SameButRunning(w: World, t: World) {
    && t.patch == w.patch && t.machines.Keys == w.machines.Keys && t.snapshots == w.snapshots
    && (forall x | x in w.machines :: t.machines[x].volume == w.machines[x].volume)
    && t.volumes.Keys == w.volumes.Keys
    && t.restoring <= w.restoring
    && (w.restoring == {} ==> t.volumes == w.volumes)
  }

  lemma RunningKeeps(counts: Counts, r: Record, w: World, m: string, running: bool)
    requires Open(counts, r, w)
    ensures Open(counts, r, SetRunning(w, m, running)) && SameButRunning(w, SetRunning(w, m, running))
  {
  }

  lemma RestoreEndKeeps(counts: Counts, r: Record, w: World, m: string, committed: bool)
    requires Open(counts, r, w)
    ensures Open(counts, r, Happen(w, RestoreEnds(m, committed))) && SameButRunning(w, Happen(w, RestoreEnds(m, committed)))
  {
  }

  lemma AnswersKeep(counts: Counts, r: Record, w: World)
    requires Open(counts, r, w)
    ensures Open(counts, r, Happen(w, Answers)) && SameButRunning(w, Happen(w, Answers))
  {
  }

  lemma EventKeeps(counts: Counts, r: Record, w: World, event: Event)
    requires Open(counts, r, w)
    ensures Open(counts, r, Happen(w, event)) && SameButRunning(w, Happen(w, event))
  {
    hide Open;
    match event
    case RestoreEnds(m, committed) => RestoreEndKeeps(counts, r, w, m, committed);
    case Idles(m) => RunningKeeps(counts, r, w, m, false);
    case Wakes(m) => RunningKeeps(counts, r, w, m, true);
    case Answers => AnswersKeep(counts, r, w);
  }

  lemma {:induction false} EventsKeep(counts: Counts, r: Record, w: World, events: seq<Event>)
    requires Open(counts, r, w)
    ensures Open(counts, r, HappenAll(w, events)) && SameButRunning(w, HappenAll(w, events)) && SafeWhile(w, events)
    decreases |events|
  {
    if events != [] {
      EventKeeps(counts, r, w, events[0]);
      EventsKeep(counts, r, Happen(w, events[0]), events[1..]);
    }
  }

  // ----- One step -------------------------------------------------------------

  /** The attempt is safe if and only if it never drops under a live Patch; and then it
      leaves a world the next attempt can start from. */
  ghost predicate Exact(counts: Counts, r: Record, w: World, notes: Notes, recipe: seq<Command>, choices: seq<Choice>)
    requires |choices| == |recipe|
  {
    && (SafelyFollowed(counts, w, notes, recipe, choices) <==> NeverUnderPatch(counts, w, notes, recipe, choices))
    && (NeverUnderPatch(counts, w, notes, recipe, choices) ==> Open(counts, r, Follow(counts, w, notes, recipe, choices).0))
  }

  lemma ConsExact(counts: Counts, r: Record, w: World, notes: Notes, command: Command, rest: seq<Command>, choices: seq<Choice>)
    requires |choices| == 1 + |rest| && Open(counts, r, w)
    requires command.DropCreate? ==> command.id !in Here(w, choices).restoring
    requires var done := Step(counts, w, notes, command, choices);
      if DropsUnderPatch(command, choices[0].how, Here(w, choices)) then !Safe(done.world)
      else Open(counts, r, done.world) && (done.ok && choices[0].seen ==> Exact(counts, r, done.world, done.notes, rest, choices[1..]))
    ensures Exact(counts, r, w, notes, [command] + rest, choices)
  {
    EventsKeep(counts, r, w, choices[0].background);
    assert ([command] + rest)[1..] == rest;
  }

  lemma NothingExact(counts: Counts, r: Record, w: World, notes: Notes)
    requires Open(counts, r, w)
    ensures Exact(counts, r, w, notes, [], [])
  {
  }

  /** Every database is one Patch may run on. */
  ghost predicate AllGood(w: World) {
    forall x | x in w.machines :: DbOf(w, x) in {Some(PreRestore), Some(Restored(true))}
  }

  lemma GoodStays(w: World, t: World)
    requires SameButRunning(w, t) && w.restoring == {}
    ensures AllGood(w) ==> AllGood(t)
    ensures forall x :: DbOf(t, x) == DbOf(w, x)
  {
  }

  /** The last step of a recipe, if it has one. */
  predicate IsTail(tail: seq<Command>) {
    tail == [] || (|tail| == 1 && tail[0].SetAutostop?)
  }

  lemma TailExact(counts: Counts, r: Record, w: World, notes: Notes, tail: seq<Command>, choices: seq<Choice>)
    requires |choices| == |tail| && Open(counts, r, w) && IsTail(tail)
    ensures Exact(counts, r, w, notes, tail, choices)
  {
    if tail == [] {
      NothingExact(counts, r, w, notes);
    } else {
      EventsKeep(counts, r, w, choices[0].background);
      var done := Step(counts, w, notes, tail[0], choices);
      AutostopKeeps(counts, r, Here(w, choices), notes, tail[0], choices[0].how, choices[0].newId);
      NothingExact(counts, r, done.world, done.notes);
      ConsExact(counts, r, w, notes, tail[0], [], choices);
      assert [tail[0]] + [] == tail;
    }
  }

  lemma AutostopKeeps(counts: Counts, r: Record, here: World, notes: Notes, command: Command, how: How, newId: string)
    requires Open(counts, r, here) && command.SetAutostop?
    ensures Open(counts, r, Perform(counts, here, notes, command, how, newId).world)
  {
  }

  lemma DeployKeeps(counts: Counts, r: Record, here: World, notes: Notes, how: How, newId: string)
    requires Open(counts, r, here) && AllGood(here) && here.restoring == {}
    ensures Open(counts, r, Perform(counts, here, notes, Deploy(r.liveImage), how, newId).world)
  {
  }

  lemma DeployExact(counts: Counts, r: Record, w: World, notes: Notes, tail: seq<Command>, choices: seq<Choice>)
    requires |choices| == 1 + |tail| && Open(counts, r, w) && AllGood(w) && w.restoring == {} && IsTail(tail)
    ensures Exact(counts, r, w, notes, [Deploy(r.liveImage)] + tail, choices)
  {
    hide Open, Perform, SafeWhile, AllGood, SameButRunning;
    EventsKeep(counts, r, w, choices[0].background);
    GoodStays(w, Here(w, choices));
    NoneRestoring(w, Here(w, choices));
    DeployKeeps(counts, r, Here(w, choices), notes, choices[0].how, choices[0].newId);
    var done := Step(counts, w, notes, Deploy(r.liveImage), choices);
    TailExact(counts, r, done.world, done.notes, tail, choices[1..]);
    ConsExact(counts, r, w, notes, Deploy(r.liveImage), tail, choices);
  }

  lemma NoneRestoring(w: World, t: World)
    requires SameButRunning(w, t) && w.restoring == {}
    ensures t.restoring == {}
  {
  }

  // ----- Finishing ------------------------------------------------------------

  lemma ValidateKeeps(counts: Counts, r: Record, here: World, notes: Notes, how: How, newId: string)
    requires Open(counts, r, here) && here.restoring == {} && (Drops(r.phase) || r.phase.RestoredPhase?)
    requires r.machine in here.machines ==> DbOf(here, r.machine).value.Restored?
    ensures var done := Perform(counts, here, notes, CountMigrations(Named(r.machine), r.backupCount), how, newId);
      && Open(counts, r, done.world) && done.world.restoring == {} && (done.ok ==> AllGood(done.world))
  {
  }

  lemma ValidateExact(counts: Counts, r: Record, w: World, notes: Notes, tail: seq<Command>, choices: seq<Choice>)
    requires |choices| == 2 + |tail| && Open(counts, r, w) && w.restoring == {} && IsTail(tail)
    requires Drops(r.phase) || r.phase.RestoredPhase?
    requires r.machine in w.machines ==> DbOf(w, r.machine).value.Restored?
    ensures Exact(counts, r, w, notes, FromValidate(r, tail), choices)
  {
    hide Open, Perform, SafeWhile, AllGood, SameButRunning, Drops;
    var here := Here(w, choices);
    EventsKeep(counts, r, w, choices[0].background);
    GoodStays(w, here);
    NoneRestoring(w, here);
    SameMachines(w, here);
    ValidateKeeps(counts, r, here, notes, choices[0].how, choices[0].newId);
    var validate := CountMigrations(Named(r.machine), r.backupCount);
    var done := Step(counts, w, notes, validate, choices);
    if done.ok {
      DeployExact(counts, r, done.world, done.notes, tail, choices[1..]);
    }
    ConsExact(counts, r, w, notes, validate, [Deploy(r.liveImage)] + tail, choices);
  }

  lemma SameMachines(w: World, t: World)
    requires SameButRunning(w, t)
    ensures t.machines.Keys == w.machines.Keys && t.patch == w.patch && t.restoring <= w.restoring
  {
  }

  lemma PgRestoreKeeps(counts: Counts, r: Record, here: World, notes: Notes, how: How, newId: string)
    requires Open(counts, r, here) && here.restoring == {} && here.patch.None? && Drops(r.phase)
    ensures var done := Perform(counts, here, notes, PgRestore(r.machine), how, newId);
      && Open(counts, r, done.world)
      && (done.ok ==> done.world.restoring == {} && DbOf(done.world, r.machine) == Some(Restored(false)))
  {
  }

  lemma PgRestoreExact(counts: Counts, r: Record, w: World, notes: Notes, tail: seq<Command>, choices: seq<Choice>)
    requires |choices| == 3 + |tail| && Open(counts, r, w) && w.restoring == {} && w.patch.None? && IsTail(tail) && Drops(r.phase)
    ensures Exact(counts, r, w, notes, FromRestore(r, tail), choices)
  {
    hide Open, Perform, SafeWhile, AllGood, SameButRunning, Drops;
    var here := Here(w, choices);
    EventsKeep(counts, r, w, choices[0].background);
    NoneRestoring(w, here);
    SameMachines(w, here);
    PgRestoreKeeps(counts, r, here, notes, choices[0].how, choices[0].newId);
    var done := Step(counts, w, notes, PgRestore(r.machine), choices);
    if done.ok {
      ValidateExact(counts, r, done.world, done.notes, tail, choices[1..]);
    }
    ConsExact(counts, r, w, notes, PgRestore(r.machine), FromValidate(r, tail), choices);
  }

  /** The one command that can do harm: under a live Patch it does, otherwise it does not. */
  lemma DropKeeps(counts: Counts, r: Record, here: World, notes: Notes, how: How, newId: string)
    requires Open(counts, r, here) && here.restoring == {} && Drops(r.phase)
    ensures var done := Perform(counts, here, notes, DropCreate(r.machine), how, newId);
      if DropsUnderPatch(DropCreate(r.machine), how, here) then !Safe(done.world)
      else Open(counts, r, done.world) && (done.ok ==> done.world.restoring == {} && done.world.patch.None?)
  {
  }

  lemma DropExact(counts: Counts, r: Record, w: World, notes: Notes, tail: seq<Command>, choices: seq<Choice>)
    requires |choices| == 4 + |tail| && Open(counts, r, w) && w.restoring == {} && IsTail(tail) && Drops(r.phase)
    ensures Exact(counts, r, w, notes, FromDrop(r, tail), choices)
  {
    hide Open, Perform, SafeWhile, AllGood, SameButRunning, Drops, DropsUnderPatch, Safe;
    var here := Here(w, choices);
    EventsKeep(counts, r, w, choices[0].background);
    NoneRestoring(w, here);
    DropKeeps(counts, r, here, notes, choices[0].how, choices[0].newId);
    var done := Step(counts, w, notes, DropCreate(r.machine), choices);
    if done.ok && !DropsUnderPatch(DropCreate(r.machine), choices[0].how, here) {
      PgRestoreExact(counts, r, done.world, done.notes, tail, choices[1..]);
    }
    ConsExact(counts, r, w, notes, DropCreate(r.machine), FromRestore(r, tail), choices);
  }

  lemma CountKeeps(counts: Counts, r: Record, here: World, notes: Notes, how: How, newId: string)
    requires Open(counts, r, here)
    ensures var done := Perform(counts, here, notes, CountRestores(r.machine), how, newId);
      done.world == here && (done.ok ==> here.restoring == {})
  {
  }

  lemma CountExact(counts: Counts, r: Record, w: World, notes: Notes, tail: seq<Command>, choices: seq<Choice>)
    requires |choices| == 5 + |tail| && Open(counts, r, w) && IsTail(tail) && Drops(r.phase)
    ensures Exact(counts, r, w, notes, [CountRestores(r.machine)] + FromDrop(r, tail), choices)
  {
    hide Open, Perform, SafeWhile, AllGood, SameButRunning, Drops;
    EventsKeep(counts, r, w, choices[0].background);
    CountKeeps(counts, r, Here(w, choices), notes, choices[0].how, choices[0].newId);
    var done := Step(counts, w, notes, CountRestores(r.machine), choices);
    if done.ok {
      DropExact(counts, r, done.world, done.notes, tail, choices[1..]);
    }
    ConsExact(counts, r, w, notes, CountRestores(r.machine), FromDrop(r, tail), choices);
  }

  lemma StartKeeps(counts: Counts, r: Record, here: World, notes: Notes, how: How, newId: string)
    requires Open(counts, r, here)
    ensures var done := Perform(counts, here, notes, StartMachine(r.machine), how, newId);
      && Open(counts, r, done.world) && done.world.restoring == here.restoring
      && DbOf(done.world, r.machine) == DbOf(here, r.machine) && done.world.machines.Keys == here.machines.Keys
  {
  }

  lemma StartExact(counts: Counts, r: Record, w: World, notes: Notes, tail: seq<Command>, choices: seq<Choice>)
    requires |choices| == 6 + |tail| && Open(counts, r, w) && IsTail(tail) && Drops(r.phase)
    ensures Exact(counts, r, w, notes, [StartMachine(r.machine)] + ([CountRestores(r.machine)] + FromDrop(r, tail)), choices)
  {
    hide Open, Perform, SafeWhile, AllGood, SameButRunning, Drops;
    EventsKeep(counts, r, w, choices[0].background);
    StartKeeps(counts, r, Here(w, choices), notes, choices[0].how, choices[0].newId);
    var done := Step(counts, w, notes, StartMachine(r.machine), choices);
    if done.ok {
      CountExact(counts, r, done.world, done.notes, tail, choices[1..]);
    }
    ConsExact(counts, r, w, notes, StartMachine(r.machine), [CountRestores(r.machine)] + FromDrop(r, tail), choices);
  }

  lemma StartThenValidateExact(counts: Counts, r: Record, w: World, notes: Notes, tail: seq<Command>, choices: seq<Choice>)
    requires |choices| == 3 + |tail| && Open(counts, r, w) && IsTail(tail) && r.phase.RestoredPhase?
    ensures Exact(counts, r, w, notes, [StartMachine(r.machine)] + FromValidate(r, tail), choices)
  {
    hide Perform, SafeWhile, AllGood, Safe, Clones;
    var here := Here(w, choices);
    EventsKeep(counts, r, w, choices[0].background);
    StartKeeps(counts, r, here, notes, choices[0].how, choices[0].newId);
    var done := Step(counts, w, notes, StartMachine(r.machine), choices);
    if done.ok {
      ValidateExact(counts, r, done.world, done.notes, tail, choices[1..]);
    }
    ConsExact(counts, r, w, notes, StartMachine(r.machine), FromValidate(r, tail), choices);
  }

  lemma ReadyExact(counts: Counts, r: Record, w: World, notes: Notes, tail: seq<Command>, choices: seq<Choice>)
    requires |choices| == 1 + |tail| && Open(counts, r, w) && IsTail(tail)
    ensures Exact(counts, r, w, notes, [CheckReady] + tail, choices)
  {
    hide Open, SafeWhile;
    EventsKeep(counts, r, w, choices[0].background);
    var done := Step(counts, w, notes, CheckReady, choices);
    assert done.world == Here(w, choices);
    TailExact(counts, r, done.world, done.notes, tail, choices[1..]);
    ConsExact(counts, r, w, notes, CheckReady, tail, choices);
  }

  /** Outside the phases that drop, the recorded machine holds what Patch may run on. */
  lemma OwnIsGood(counts: Counts, r: Record, w: World)
    requires Open(counts, r, w) && !Drops(r.phase) && !r.phase.RestoredPhase?
    ensures AllGood(w) && w.restoring == {}
  {
  }

  lemma FinishExact(counts: Counts, r: Record, w: World, notes: Notes, choices: seq<Choice>)
    requires Open(counts, r, w) && RestoreRecipesFor(r).finish.Some? && |choices| == |RestoreRecipesFor(r).finish.value|
    ensures Exact(counts, r, w, notes, RestoreRecipesFor(r).finish.value, choices)
  {
    hide Open, Exact;
    var tail := TailOf(r);
    var recipe := RestoreRecipesFor(r).finish.value;
    if Drops(r.phase) {
      assert recipe == [StartMachine(r.machine)] + ([CountRestores(r.machine)] + FromDrop(r, tail));
      StartExact(counts, r, w, notes, tail, choices);
    } else if r.phase.RestoredPhase? {
      assert recipe == [StartMachine(r.machine)] + FromValidate(r, tail);
      StartThenValidateExact(counts, r, w, notes, tail, choices);
    } else if r.phase.Released? {
      assert recipe == [CheckReady] + tail;
      ReadyExact(counts, r, w, notes, tail, choices);
    } else {
      assert recipe == [Deploy(r.liveImage)] + tail;
      OwnIsGood(counts, r, w);
      DeployExact(counts, r, w, notes, tail, choices);
    }
  }

  // ----- Undoing --------------------------------------------------------------

  lemma LastDeployExact(counts: Counts, r: Record, w: World, notes: Notes, choices: seq<Choice>)
    requires |choices| == 1 + |UndoTail(r)| && Open(counts, r, w) && w.restoring == {} && r.machine !in w.machines
    ensures Exact(counts, r, w, notes, [Deploy(r.liveImage)] + UndoTail(r), choices)
  {
    DeployExact(counts, r, w, notes, UndoTail(r), choices);
  }

  lemma DestroyKeeps(counts: Counts, r: Record, here: World, notes: Notes, how: How, newId: string)
    requires Open(counts, r, here) && here.restoring == {} && here.patch.None?
    ensures var done := Perform(counts, here, notes, DestroyMachine(r.machine), how, newId);
      && Open(counts, r, done.world) && done.world.restoring == {} && (done.ok ==> r.machine !in done.world.machines)
  {
  }

  lemma DestroyExact(counts: Counts, r: Record, w: World, notes: Notes, choices: seq<Choice>)
    requires |choices| == 2 + |UndoTail(r)| && Open(counts, r, w) && w.restoring == {} && w.patch.None?
    ensures Exact(counts, r, w, notes, FromDestroy(r), choices)
  {
    hide Open, Perform, SafeWhile, AllGood, SameButRunning;
    var here := Here(w, choices);
    EventsKeep(counts, r, w, choices[0].background);
    NoneRestoring(w, here);
    SameMachines(w, here);
    DestroyKeeps(counts, r, here, notes, choices[0].how, choices[0].newId);
    var done := Step(counts, w, notes, DestroyMachine(r.machine), choices);
    if done.ok {
      LastDeployExact(counts, r, done.world, done.notes, choices[1..]);
    }
    ConsExact(counts, r, w, notes, DestroyMachine(r.machine), [Deploy(r.liveImage)] + UndoTail(r), choices);
  }

  lemma CheckKeeps(counts: Counts, r: Record, here: World, notes: Notes, how: How, newId: string)
    requires Open(counts, r, here) && notes.clone.Some? && notes.clone.value != r.machine
    ensures Perform(counts, here, notes, CountMigrations(CloneId, r.countBefore), how, newId).world == here
  {
  }

  lemma CheckExact(counts: Counts, r: Record, w: World, notes: Notes, choices: seq<Choice>)
    requires |choices| == 3 + |UndoTail(r)| && Open(counts, r, w) && w.restoring == {} && w.patch.None?
    requires notes.clone.Some? && notes.clone.value != r.machine
    ensures Exact(counts, r, w, notes, FromCheck(r), choices)
  {
    hide Open, Perform, SafeWhile, AllGood, SameButRunning;
    var here := Here(w, choices);
    EventsKeep(counts, r, w, choices[0].background);
    NoneRestoring(w, here);
    SameMachines(w, here);
    CheckKeeps(counts, r, here, notes, choices[0].how, choices[0].newId);
    var done := Step(counts, w, notes, CountMigrations(CloneId, r.countBefore), choices);
    DestroyExact(counts, r, done.world, done.notes, choices[1..]);
    ConsExact(counts, r, w, notes, CountMigrations(CloneId, r.countBefore), FromDestroy(r), choices);
  }

  /** The volume just made holds the snapshot and is nobody's yet. */
  ghost predicate VolumeReady(r: Record, w: World, notes: Notes) {
    && notes.volume.Some? && notes.volume.value in w.volumes && w.volumes[notes.volume.value] == PreRestore
    && (r.machine in w.machines ==> w.machines[r.machine].volume != notes.volume.value)
  }

  lemma CloneKeeps(counts: Counts, r: Record, here: World, notes: Notes, how: How, newId: string)
    requires Open(counts, r, here) && here.restoring == {} && here.patch.None? && VolumeReady(r, here, notes)
    ensures var done := Perform(counts, here, notes, CloneOnto(r.machine), how, newId);
      && Open(counts, r, done.world) && done.world.restoring == {} && done.world.patch.None?
      && (done.ok ==> done.notes.clone.Some? && done.notes.clone.value != r.machine)
  {
  }

  lemma CloneExact(counts: Counts, r: Record, w: World, notes: Notes, choices: seq<Choice>)
    requires |choices| == 4 + |UndoTail(r)| && Open(counts, r, w) && w.restoring == {} && w.patch.None? && VolumeReady(r, w, notes)
    ensures Exact(counts, r, w, notes, FromClone(r), choices)
  {
    hide Open, Perform, SafeWhile, AllGood;
    var here := Here(w, choices);
    EventsKeep(counts, r, w, choices[0].background);
    CloneKeeps(counts, r, here, notes, choices[0].how, choices[0].newId);
    var done := Step(counts, w, notes, CloneOnto(r.machine), choices);
    if done.ok {
      CheckExact(counts, r, done.world, done.notes, choices[1..]);
    }
    ConsExact(counts, r, w, notes, CloneOnto(r.machine), FromCheck(r), choices);
  }

  lemma VolumeKeeps(counts: Counts, r: Record, here: World, notes: Notes, how: How, newId: string)
    requires Open(counts, r, here) && here.restoring == {} && here.patch.None? && r.snapshot.Some?
    ensures var done := Perform(counts, here, notes, VolumeFromSnapshot(r.snapshot.value), how, newId);
      && Open(counts, r, done.world) && done.world.restoring == {} && done.world.patch.None?
      && (done.ok ==> VolumeReady(r, done.world, done.notes))
  {
  }

  lemma VolumeExact(counts: Counts, r: Record, w: World, notes: Notes, choices: seq<Choice>)
    requires |choices| == 5 + |UndoTail(r)| && Open(counts, r, w) && w.restoring == {} && w.patch.None? && r.snapshot.Some?
    ensures Exact(counts, r, w, notes, FromVolume(r), choices)
  {
    hide Open, Perform, SafeWhile, AllGood, SameButRunning, VolumeReady;
    var here := Here(w, choices);
    EventsKeep(counts, r, w, choices[0].background);
    NoneRestoring(w, here);
    SameMachines(w, here);
    VolumeKeeps(counts, r, here, notes, choices[0].how, choices[0].newId);
    var done := Step(counts, w, notes, VolumeFromSnapshot(r.snapshot.value), choices);
    if done.ok {
      CloneExact(counts, r, done.world, done.notes, choices[1..]);
    }
    ConsExact(counts, r, w, notes, VolumeFromSnapshot(r.snapshot.value), FromClone(r), choices);
  }

  lemma StopKeeps(counts: Counts, r: Record, here: World, notes: Notes, how: How, newId: string)
    requires Open(counts, r, here) && here.patch.None?
    ensures var done := Perform(counts, here, notes, StopMachine(r.machine), how, newId);
      Open(counts, r, done.world) && done.world.patch.None? && (done.ok ==> done.world.restoring == {})
  {
  }

  lemma StopExact(counts: Counts, r: Record, w: World, notes: Notes, choices: seq<Choice>)
    requires |choices| == 6 + |UndoTail(r)| && Open(counts, r, w) && w.patch.None? && r.snapshot.Some?
    ensures Exact(counts, r, w, notes, [StopMachine(r.machine)] + FromVolume(r), choices)
  {
    hide Open, Perform, SafeWhile, AllGood, SameButRunning;
    var here := Here(w, choices);
    EventsKeep(counts, r, w, choices[0].background);
    SameMachines(w, here);
    StopKeeps(counts, r, here, notes, choices[0].how, choices[0].newId);
    var done := Step(counts, w, notes, StopMachine(r.machine), choices);
    if done.ok {
      VolumeExact(counts, r, done.world, done.notes, choices[1..]);
    }
    ConsExact(counts, r, w, notes, StopMachine(r.machine), FromVolume(r), choices);
  }

  lemma HoldKeeps(counts: Counts, r: Record, here: World, notes: Notes, how: How, newId: string)
    requires Open(counts, r, here)
    ensures var done := Perform(counts, here, notes, HoldPatch, how, newId);
      Open(counts, r, done.world) && (done.ok ==> done.world.patch.None?)
  {
  }

  lemma UndoExact(counts: Counts, r: Record, w: World, notes: Notes, choices: seq<Choice>)
    requires Open(counts, r, w) && RestoreRecipesFor(r).undo.Some? && |choices| == |RestoreRecipesFor(r).undo.value|
    ensures Exact(counts, r, w, notes, RestoreRecipesFor(r).undo.value, choices)
  {
    hide Open, Perform, SafeWhile, AllGood, SameButRunning;
    var rest := [StopMachine(r.machine)] + FromVolume(r);
    assert RestoreRecipesFor(r).undo.value == [HoldPatch] + rest;
    var here := Here(w, choices);
    EventsKeep(counts, r, w, choices[0].background);
    HoldKeeps(counts, r, here, notes, choices[0].how, choices[0].newId);
    var done := Step(counts, w, notes, HoldPatch, choices);
    if done.ok {
      StopExact(counts, r, done.world, done.notes, choices[1..]);
    }
    ConsExact(counts, r, w, notes, HoldPatch, rest, choices);
  }

  // ----- Any attempts, in any order -------------------------------------------

  /** One attempt at one of the two recipes; `notes` are whatever ids the reader still has. */
  datatype Attempt = Attempt(undo: bool, notes: Notes, choices: seq<Choice>)

  function RecipeOf(r: Record, a: Attempt): Option<seq<Command>> {
    if a.undo then RestoreRecipesFor(r).undo else RestoreRecipesFor(r).finish
  }

  /** The recipe is there, and the attempt says what happens at each of its steps. */
  predicate Fits(r: Record, a: Attempt) {
    RecipeOf(r, a).Some? && |a.choices| == |RecipeOf(r, a).value|
  }

  predicate AllFit(r: Record, attempts: seq<Attempt>) {
    forall k | 0 <= k < |attempts| :: Fits(r, attempts[k])
  }

  function WorldAfter(counts: Counts, r: Record, w: World, a: Attempt): World
    requires Fits(r, a)
  {
    Follow(counts, w, a.notes, RecipeOf(r, a).value, a.choices).0
  }

  /** Every attempt is followed safely from the world the one before left. */
  predicate AllSafe(counts: Counts, r: Record, w: World, attempts: seq<Attempt>)
    requires AllFit(r, attempts)
    decreases |attempts|
  {
    attempts == [] ||
    (SafelyFollowed(counts, w, attempts[0].notes, RecipeOf(r, attempts[0]).value, attempts[0].choices)
     && AllSafe(counts, r, WorldAfter(counts, r, w, attempts[0]), attempts[1..]))
  }

  /** In none of them the database is dropped while Patch has machines. */
  predicate NoneUnderPatch(counts: Counts, r: Record, w: World, attempts: seq<Attempt>)
    requires AllFit(r, attempts)
    decreases |attempts|
  {
    attempts == [] ||
    (NeverUnderPatch(counts, w, attempts[0].notes, RecipeOf(r, attempts[0]).value, attempts[0].choices)
     && NoneUnderPatch(counts, r, WorldAfter(counts, r, w, attempts[0]), attempts[1..]))
  }

  lemma AttemptExact(counts: Counts, r: Record, w: World, a: Attempt)
    requires Open(counts, r, w) && Fits(r, a)
    ensures Exact(counts, r, w, a.notes, RecipeOf(r, a).value, a.choices)
  {
    if a.undo {
      UndoExact(counts, r, w, a.notes, a.choices);
    } else {
      FinishExact(counts, r, w, a.notes, a.choices);
    }
  }

  lemma {:induction false} AttemptsExact(counts: Counts, r: Record, w: World, attempts: seq<Attempt>)
    requires Open(counts, r, w) && AllFit(r, attempts)
    ensures AllSafe(counts, r, w, attempts) <==> NoneUnderPatch(counts, r, w, attempts)
    decreases |attempts|
  {
    hide Open, SafelyFollowed, NeverUnderPatch, Follow, RestoreRecipesFor;
    if attempts != [] {
      AttemptExact(counts, r, w, attempts[0]);
      if NeverUnderPatch(counts, w, attempts[0].notes, RecipeOf(r, attempts[0]).value, attempts[0].choices) {
        AttemptsExact(counts, r, WorldAfter(counts, r, w, attempts[0]), attempts[1..]);
      }
    }
  }

  /** Any number of attempts at either recipe, each cut off or failing anywhere, given up or
      taken up again from the top: all of it is safe if and only if the database is never
      dropped while Patch has machines. */
  lemma AttemptsAreSafeExactlyWhen(counts: Counts, r: Record, w: World, attempts: seq<Attempt>)
    requires Consistent(counts, r, w) && AllFit(r, attempts)
    ensures AllSafe(counts, r, w, attempts) <==> NoneUnderPatch(counts, r, w, attempts)
  {
    ConsistentIsOpen(counts, r, w);
    AttemptsExact(counts, r, w, attempts);
  }

  // ----- What to check before an attempt --------------------------------------

  lemma {:induction false} WithoutADrop(counts: Counts, w: World, notes: Notes, recipe: seq<Command>, choices: seq<Choice>)
    requires |choices| == |recipe| && forall k | 0 <= k < |recipe| :: !recipe[k].DropCreate?
    ensures NeverUnderPatch(counts, w, notes, recipe, choices)
    decreases |recipe|
  {
    hide Perform;
    if recipe != [] {
      var done := Perform(counts, HappenAll(w, choices[0].background), notes, recipe[0], choices[0].how, choices[0].newId);
      WithoutADrop(counts, done.world, done.notes, recipe[1..], choices[1..]);
    }
  }

  /** A finish attempt from the top of its steps with Patch held: it cannot be live at the
      drop, since the release comes after it. */
  lemma HeldAtTheDrop(counts: Counts, r: Record, w: World, a: Attempt)
    requires Open(counts, r, w) && Fits(r, a) && !a.undo && Drops(r.phase) && w.patch.None?
    ensures NeverUnderPatch(counts, w, a.notes, RecipeOf(r, a).value, a.choices)
  {
    var recipe, tail := RecipeOf(r, a).value, TailOf(r);
    assert recipe == [StartMachine(r.machine), CountRestores(r.machine), DropCreate(r.machine)] + FromRestore(r, tail);
    HeldThrough(counts, w, a.notes, [StartMachine(r.machine), CountRestores(r.machine), DropCreate(r.machine)], FromRestore(r, tail), a.choices);
  }

  /** Up to and including the drop, nothing gives Patch machines. */
  lemma {:induction false} HeldThrough(counts: Counts, w: World, notes: Notes, first: seq<Command>, rest: seq<Command>, choices: seq<Choice>)
    requires |choices| == |first| + |rest| && w.patch.None?
    requires forall k | 0 <= k < |first| :: first[k].StartMachine? || first[k].CountRestores? || first[k].DropCreate?
    requires forall k | 0 <= k < |rest| :: !rest[k].DropCreate?
    ensures NeverUnderPatch(counts, w, notes, first + rest, choices)
    decreases |first|
  {
    if first == [] {
      assert first + rest == rest;
      WithoutADrop(counts, w, notes, rest, choices);
    } else {
      var here := HappenAll(w, choices[0].background);
      EventsLeavePatch(w, choices[0].background);
      var done := Perform(counts, here, notes, first[0], choices[0].how, choices[0].newId);
      assert (first + rest)[1..] == first[1..] + rest;
      HeldThrough(counts, done.world, done.notes, first[1..], rest, choices[1..]);
    }
  }

  lemma {:induction false} EventsLeavePatch(w: World, events: seq<Event>)
    ensures HappenAll(w, events).patch == w.patch
    decreases |events|
  {
    if events != [] {
      EventsLeavePatch(Happen(w, events[0]), events[1..]);
    }
  }

  /** Before each attempt to finish from a record whose recipe drops, Patch has no machines. */
  predicate HeldBeforeFinishing(counts: Counts, r: Record, w: World, attempts: seq<Attempt>)
    requires AllFit(r, attempts)
    decreases |attempts|
  {
    attempts == [] ||
    ((Drops(r.phase) && !attempts[0].undo ==> w.patch.None?)
     && HeldBeforeFinishing(counts, r, WorldAfter(counts, r, w, attempts[0]), attempts[1..]))
  }

  lemma NoDropInTheOthers(r: Record, a: Attempt)
    requires Fits(r, a) && (a.undo || !Drops(r.phase))
    ensures forall k | 0 <= k < |RecipeOf(r, a).value| :: !RecipeOf(r, a).value[k].DropCreate?
  {
  }

  lemma {:induction false} HeldIsSafe(counts: Counts, r: Record, w: World, attempts: seq<Attempt>)
    requires Open(counts, r, w) && AllFit(r, attempts) && HeldBeforeFinishing(counts, r, w, attempts)
    ensures AllSafe(counts, r, w, attempts)
    decreases |attempts|
  {
    hide Open, SafelyFollowed, NeverUnderPatch, Follow;
    if attempts != [] {
      var a := attempts[0];
      AttemptExact(counts, r, w, a);
      if a.undo || !Drops(r.phase) {
        NoDropInTheOthers(r, a);
        WithoutADrop(counts, w, a.notes, RecipeOf(r, a).value, a.choices);
      } else {
        HeldAtTheDrop(counts, r, w, a);
      }
      HeldIsSafe(counts, r, WorldAfter(counts, r, w, a), attempts[1..]);
    }
  }

  /** So undoing is safe at any time; finishing is, whenever the record is past the drop and
      the restore; and finishing from the top is, as long as Patch is held first. */
  lemma HeldAttemptsAreSafe(counts: Counts, r: Record, w: World, attempts: seq<Attempt>)
    requires Consistent(counts, r, w) && AllFit(r, attempts)
    requires HeldBeforeFinishing(counts, r, w, attempts)
    ensures AllSafe(counts, r, w, attempts)
  {
    ConsistentIsOpen(counts, r, w);
    HeldIsSafe(counts, r, w, attempts);
  }

  /** Without that check it goes wrong: a finish recipe of a record at the drop, followed to
      its end and then again from the top, drops the database under the live Patch. */
  lemma FinishingTwice(counts: Counts, r: Record, w: World, newId: string)
    requires Consistent(counts, r, w) && Drops(r.phase) && counts.dump == counts.backup
    ensures var a := Attempt(false, Notes(None, None), Smooth(RestoreRecipesFor(r).finish.value, newId));
      RestoreRecipesFor(r).finish.Some? && AllFit(r, [a, a]) && !AllSafe(counts, r, w, [a, a])
  {
    var recipe := RestoreRecipesFor(r).finish.value;
    var a := Attempt(false, Notes(None, None), Smooth(recipe, newId));
    FinishCompletes(counts, r, w, Notes(None, None), newId);
    FinishRecipeIsSound(counts, r, w, Notes(None, None), Smooth(recipe, newId));
    var finished := WorldAfter(counts, r, w, a);
    assert Goal(counts, finished, r, Restored(true));
    AgainFromTheTop(counts, r, finished, newId);
    assert [a, a][1..] == [a] && [a][1..] == [];
    assert !AllSafe(counts, r, finished, [a]);
  }

  lemma AgainFromTheTop(counts: Counts, r: Record, w: World, newId: string)
    requires Drops(r.phase) && r.mismatch.None? && Goal(counts, w, r, Restored(true))
    ensures !SafelyFollowed(counts, w, Notes(None, None), RestoreRecipesFor(r).finish.value, Smooth(RestoreRecipesFor(r).finish.value, newId))
  {
    var m, tail := r.machine, TailOf(r);
    var recipe := RestoreRecipesFor(r).finish.value;
    assert recipe == [StartMachine(m)] + ([CountRestores(m)] + FromDrop(r, tail));
    var started := SetRunning(w, m, true);
    StartStep(counts, w, m, newId);
    CountStep(counts, started, m, newId);
    hide FromRestore, SafelyFollowed, Perform;
    DropGoesWrong(counts, started, m, newId);
    StepOn(counts, started, Notes(None, None), DropCreate(m), FromRestore(r, tail), newId);
    StepOn(counts, started, Notes(None, None), CountRestores(m), FromDrop(r, tail), newId);
    StepOn(counts, w, Notes(None, None), StartMachine(m), [CountRestores(m)] + FromDrop(r, tail), newId);
  }

  lemma StartStep(counts: Counts, w: World, m: string, newId: string)
    requires m in w.machines
    ensures Perform(counts, w, Notes(None, None), StartMachine(m), Fully, newId) == Performed(SetRunning(w, m, true), Notes(None, None), true)
  {
  }

  lemma CountStep(counts: Counts, w: World, m: string, newId: string)
    requires Running(w, m) && w.restoring == {}
    ensures HappenAll(w, [RestoreEnds(m, true)]) == w
    ensures Perform(counts, w, Notes(None, None), CountRestores(m), Fully, newId) == Performed(w, Notes(None, None), true)
  {
    assert HappenAll(w, [RestoreEnds(m, true)]) == Happen(w, RestoreEnds(m, true));
  }

  lemma SmoothCons(command: Command, rest: seq<Command>, newId: string)
    ensures Smooth([command] + rest, newId) ==
      [Choice(Waited(command), Fully, true, newId)] + Smooth(rest, newId)
  {
    assert ([command] + rest)[1..] == rest;
  }

  lemma DropGoesWrong(counts: Counts, w: World, m: string, newId: string)
    requires Running(w, m) && w.patch.Some? && m in w.machines && DbOf(w, m).Some?
    ensures !Safe(Perform(counts, w, Notes(None, None), DropCreate(m), Fully, newId).world)
  {
    var t := Perform(counts, w, Notes(None, None), DropCreate(m), Fully, newId).world;
    assert m in t.machines && DbOf(t, m) == Some(EmptyDatabase);
  }

  /** One smooth step of an attempt: unsafe itself, or as unsafe as what follows. */
  lemma StepOn(counts: Counts, w: World, notes: Notes, command: Command, rest: seq<Command>, newId: string)
    requires var background := Waited(command);
      var done := Perform(counts, HappenAll(w, background), notes, command, Fully, newId);
      !Safe(done.world) || (done.ok && !SafelyFollowed(counts, done.world, done.notes, rest, Smooth(rest, newId)))
    ensures !SafelyFollowed(counts, w, notes, [command] + rest, Smooth([command] + rest, newId))
  {
    SmoothCons(command, rest, newId);
    var choices := Smooth([command] + rest, newId);
    assert ([command] + rest)[1..] == rest && choices[1..] == Smooth(rest, newId);
  }

  /** After a restore that stopped anywhere: the same, from the record and the world it left. */
  lemma StopAnywhereThenAttempt(counts: Counts, previous: Autostop, f: Flow, choices: seq<Choice>, attempts: seq<Attempt>)
    requires Starts(counts, previous, f) && AllFit(Turns(counts, previous, f, choices).record, attempts)
    ensures var stopped := Turns(counts, previous, f, choices);
      && (AllSafe(counts, stopped.record, stopped.world, attempts)
          <==> NoneUnderPatch(counts, stopped.record, stopped.world, attempts))
      && (HeldBeforeFinishing(counts, stopped.record, stopped.world, attempts)
          ==> AllSafe(counts, stopped.record, stopped.world, attempts))
  {
    RecordAlwaysConsistent(counts, previous, f, choices);
    var stopped := Turns(counts, previous, f, choices);
    AttemptsAreSafeExactlyWhen(counts, stopped.record, stopped.world, attempts);
    if HeldBeforeFinishing(counts, stopped.record, stopped.world, attempts) {
      HeldAttemptsAreSafe(counts, stopped.record, stopped.world, attempts);
    }
  }
}
