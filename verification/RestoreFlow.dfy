/** The restore itself: what it records and what it sends, in that order, up to the
    point where it stops (cli/src/commands/flyBackup.ts). */
module RestoreFlow {
  import opened Wrappers
  import opened FlyWorld
  import opened RestoreRecipes
  import opened RestoreTheorems

  /** `pos` is the action the restore is about to take; `taken` the safety snapshot before it is noted. */
  datatype Flow = Flow(pos: nat, going: bool, record: Record, world: World, taken: Option<string>)

  const END: nat := 23

  function Note(f: Flow, record: Record, choice: Choice): Flow {
    if choice.how.Fully? then f.(pos := f.pos + 1, record := record) else f.(going := false)
  }

  /** A fact that is kept in memory even when it could not be written. */
  function NoteFact(f: Flow, record: Record, choice: Choice): Flow {
    f.(pos := f.pos + 1, record := record, going := choice.how.Fully?)
  }

  function Send(counts: Counts, f: Flow, command: Command, choice: Choice): Flow {
    var done := Perform(counts, f.world, Notes(None, None), command, choice.how, choice.newId);
    if done.ok && choice.seen then f.(pos := f.pos + 1, world := done.world) else f.(going := false, world := done.world)
  }

  function TakeSnapshot(f: Flow, choice: Choice): Flow {
    var db := DbOf(f.world, f.record.machine);
    if choice.how.Nothing? || choice.newId in f.world.snapshots || db.None? then f.(going := false)
    else
      var taken := f.world.(snapshots := f.world.snapshots[choice.newId := db.value]);
      if choice.how.Fully?
      then f.(pos := f.pos + 1, world := taken, taken := Some(choice.newId))
      else f.(going := false, world := taken)
  }

  /** The next action. `previous` is the autostop the preflight found. */
  function Act(counts: Counts, previous: Autostop, f: Flow, choice: Choice): Flow {
    var r := f.record;
    var awake := r.keepAwake.Some? && !r.keepAwake.value.restored;
    match f.pos
    case 0 =>
      if previous == Off then f.(pos := 3) else Note(f, r.(keepAwake := Some(KeepAwake(previous, false))), choice)
    case 1 => Send(counts, f, SetAutostop(Named(r.machine), Off), choice)
    case 2 => Note(f, r, choice)
    case 3 => if choice.how.Fully? then f.(pos := 4) else f.(going := false)
    case 4 => Note(f, r.(phase := HoldSent), choice)
    case 5 => Send(counts, f, HoldPatch, choice)
    case 6 => Note(f, r.(phase := Held), choice)
    case 7 => TakeSnapshot(f, choice)
    case 8 => NoteFact(f, r.(phase := Snapshotted, snapshot := f.taken), choice)
    case 9 => Note(f, r.(phase := DropSent), choice)
    case 10 => Send(counts, f, DropCreate(r.machine), choice)
    case 11 => Note(f, r.(phase := RestoreSent), choice)
    case 12 => Send(counts, f, PgRestore(r.machine), choice)
    case 13 => Note(f, r.(phase := RestoredPhase), choice)
    case 14 =>
      // `seen` false: the output holds no line of digits alone, whatever the count is.
      var rows := Rows(counts, DbOf(f.world, r.machine));
      if choice.how.Fully? && Running(f.world, r.machine) && rows.Some? && (!choice.seen || rows != Some(r.backupCount))
      then f.(going := false, record := r.(mismatch := Some(Mismatch(if choice.seen then rows else None))))
      else Send(counts, f, CountMigrations(Named(r.machine), r.backupCount), choice)
    case 15 => Note(f, r.(phase := Validated), choice)
    case 16 => Note(f, r.(phase := ReleaseSent), choice)
    case 17 => Send(counts, f, Deploy(r.liveImage), choice)
    case 18 => Note(f, r.(phase := Released), choice)
    case 19 => Send(counts, f, CheckReady, choice)
    case 20 => Note(f, r.(phase := Completed), choice)
    case 21 =>
      if awake then Send(counts, f, SetAutostop(Named(r.machine), r.keepAwake.value.previous), choice) else f.(pos := END)
    case 22 => if awake then NoteFact(f, r.(keepAwake := Some(r.keepAwake.value.(restored := true))), choice) else f.(pos := END)
    case _ => f.(going := false)
  }

  /** One turn: the world moves on by itself, then the restore acts, unless it has stopped.
      Ctrl-C can stop it anywhere (`seen` false while nothing is sent). */
  function Turn(counts: Counts, previous: Autostop, f: Flow, choice: Choice): Flow {
    var moved := f.(world := HappenAll(f.world, choice.background));
    if !f.going then moved
    else if choice.how.Nothing? then moved.(going := false)
    else Act(counts, previous, moved, choice)
  }

  function Turns(counts: Counts, previous: Autostop, f: Flow, choices: seq<Choice>): Flow
    decreases |choices|
  {
    if choices == [] then f else Turns(counts, previous, Turn(counts, previous, f, choices[0]), choices[1..])
  }

  /** A restore about to note its first change: Patch live on its own database. */
  ghost predicate Starts(counts: Counts, previous: Autostop, f: Flow) {
    && f.pos == 0 && f.going
    && f.record.phase.Staged? && f.record.keepAwake.None? && f.record.mismatch.None? && f.record.snapshot.None?
    && counts.before == f.record.countBefore && counts.backup == f.record.backupCount
    && Within(counts, f.world, f.record, {PreRestore}, Live, false, {previous})
  }

  // ----- What every prefix of the restore keeps --------------------------------

  function PhaseAt(pos: nat): Phase {
    if pos <= 4 then Staged
    else if pos <= 6 then HoldSent
    else if pos <= 8 then Held
    else if pos <= 9 then Snapshotted
    else if pos <= 11 then DropSent
    else if pos <= 13 then RestoreSent
    else if pos <= 15 then RestoredPhase
    else if pos <= 16 then Validated
    else if pos <= 18 then ReleaseSent
    else if pos <= 20 then Released
    else Completed
  }

  /** What a restore that is still going knows beyond its record. */
  ghost predicate GoingOk(previous: Autostop, f: Flow) {
    var db := DbOf(f.world, f.record.machine);
    && f.record.phase == PhaseAt(f.pos) && f.record.mismatch.None?
    && f.record.machine in f.world.machines
    && f.world.restoring == {}
    && (f.record.keepAwake.Some? ==> f.record.keepAwake.value.previous == previous)
    && (f.pos == 0 ==> f.record.keepAwake.None? && f.world.machines[f.record.machine].autostop == previous)
    && (1 <= f.pos <= 2 ==> previous != Off && f.record.keepAwake == Some(KeepAwake(previous, false)))
    && (3 <= f.pos <= 21 ==> f.record.keepAwake == if previous == Off then None else Some(KeepAwake(previous, false)))
    && (2 <= f.pos <= 21 ==> f.world.machines[f.record.machine].autostop == Off)
    && (f.pos == 22 ==> f.record.keepAwake == Some(KeepAwake(previous, false)) && f.world.machines[f.record.machine].autostop == previous)
    && (f.pos == 6 ==> f.world.patch.None?)
    && (f.pos == 8 ==> f.taken.Some? && f.taken.value in f.world.snapshots && f.world.snapshots[f.taken.value] == PreRestore)
    && (f.pos == 10 ==> db == Some(PreRestore))
    && (f.pos in {11, 12} ==> db == Some(EmptyDatabase))
    && (f.pos in {13, 14} ==> db == Some(Restored(false)))
    && (f.pos == 15 ==> db == Some(Restored(true)))
    && (f.pos == 18 ==> f.world.patch.Some?)
    && (18 <= f.pos <= 20 ==> f.world.ready)
    && (f.pos >= END ==> f.pos == END && !Owed(f.record) && (f.record.keepAwake.None? ==> previous == Off))
  }

  ghost predicate FlowInv(counts: Counts, previous: Autostop, f: Flow) {
    Consistent(counts, f.record, f.world) && (f.going ==> GoingOk(previous, f))
  }

  lemma HappenKeeps(counts: Counts, previous: Autostop, f: Flow, event: Event)
    requires FlowInv(counts, previous, f)
    ensures FlowInv(counts, previous, f.(world := Happen(f.world, event)))
  {
  }

  lemma FlowIsSafe(counts: Counts, previous: Autostop, f: Flow)
    requires FlowInv(counts, previous, f)
    ensures Safe(f.world)
  {
  }

  lemma BackgroundKeeps(counts: Counts, previous: Autostop, f: Flow, events: seq<Event>)
    requires FlowInv(counts, previous, f)
    ensures FlowInv(counts, previous, f.(world := HappenAll(f.world, events))) && SafeWhile(f.world, events)
    decreases |events|
  {
    hide FlowInv, Happen, Safe;
    FlowIsSafe(counts, previous, f);
    if events != [] {
      HappenKeeps(counts, previous, f, events[0]);
      BackgroundKeeps(counts, previous, f.(world := Happen(f.world, events[0])), events[1..]);
    }
  }

  lemma NoteAwakeKeeps(counts: Counts, previous: Autostop, f: Flow, choice: Choice)
    requires FlowInv(counts, previous, f) && f.going && f.pos < 2
    ensures FlowInv(counts, previous, Act(counts, previous, f, choice))
  {
  }

  lemma KeepAwakeKeeps(counts: Counts, previous: Autostop, f: Flow, choice: Choice)
    requires FlowInv(counts, previous, f) && f.going && 2 <= f.pos < 4
    ensures FlowInv(counts, previous, Act(counts, previous, f, choice))
  {
  }

  lemma HoldKeeps(counts: Counts, previous: Autostop, f: Flow, choice: Choice)
    requires FlowInv(counts, previous, f) && f.going && 4 <= f.pos < 6
    ensures FlowInv(counts, previous, Act(counts, previous, f, choice))
  {
  }

  lemma HeldKeeps(counts: Counts, previous: Autostop, f: Flow, choice: Choice)
    requires FlowInv(counts, previous, f) && f.going && 6 <= f.pos < 7
    ensures FlowInv(counts, previous, Act(counts, previous, f, choice))
  {
  }

  lemma SnapshotKeeps(counts: Counts, previous: Autostop, f: Flow, choice: Choice)
    requires FlowInv(counts, previous, f) && f.going && 7 <= f.pos < 9
    ensures FlowInv(counts, previous, Act(counts, previous, f, choice))
  {
  }

  lemma SnapshottedKeeps(counts: Counts, previous: Autostop, f: Flow, choice: Choice)
    requires FlowInv(counts, previous, f) && f.going && 9 <= f.pos < 10
    ensures FlowInv(counts, previous, Act(counts, previous, f, choice))
  {
  }

  lemma DropKeeps(counts: Counts, previous: Autostop, f: Flow, choice: Choice)
    requires FlowInv(counts, previous, f) && f.going && 10 <= f.pos < 12
    ensures FlowInv(counts, previous, Act(counts, previous, f, choice))
  {
  }

  lemma RestoreKeeps(counts: Counts, previous: Autostop, f: Flow, choice: Choice)
    requires FlowInv(counts, previous, f) && f.going && 12 <= f.pos < 14
    ensures FlowInv(counts, previous, Act(counts, previous, f, choice))
  {
  }

  lemma RestoredKeeps(counts: Counts, previous: Autostop, f: Flow, choice: Choice)
    requires FlowInv(counts, previous, f) && f.going && 14 <= f.pos < 15
    ensures FlowInv(counts, previous, Act(counts, previous, f, choice))
  {
  }

  lemma ValidateKeeps(counts: Counts, previous: Autostop, f: Flow, choice: Choice)
    requires FlowInv(counts, previous, f) && f.going && 15 <= f.pos < 17
    ensures FlowInv(counts, previous, Act(counts, previous, f, choice))
  {
  }

  lemma ReleaseKeeps(counts: Counts, previous: Autostop, f: Flow, choice: Choice)
    requires FlowInv(counts, previous, f) && f.going && 17 <= f.pos < 19
    ensures FlowInv(counts, previous, Act(counts, previous, f, choice))
  {
  }

  lemma ReleasedKeeps(counts: Counts, previous: Autostop, f: Flow, choice: Choice)
    requires FlowInv(counts, previous, f) && f.going && 19 <= f.pos < 20
    ensures FlowInv(counts, previous, Act(counts, previous, f, choice))
  {
  }

  lemma CompletedKeeps(counts: Counts, previous: Autostop, f: Flow, choice: Choice)
    requires FlowInv(counts, previous, f) && f.going && 20 <= f.pos < 21
    ensures FlowInv(counts, previous, Act(counts, previous, f, choice))
  {
  }

  lemma SleepKeeps(counts: Counts, previous: Autostop, f: Flow, choice: Choice)
    requires FlowInv(counts, previous, f) && f.going && f.pos == 21
    ensures FlowInv(counts, previous, Act(counts, previous, f, choice))
  {
  }

  lemma SleptKeeps(counts: Counts, previous: Autostop, f: Flow, choice: Choice)
    requires FlowInv(counts, previous, f) && f.going && f.pos > 21
    ensures FlowInv(counts, previous, Act(counts, previous, f, choice))
  {
  }

  lemma ActKeeps(counts: Counts, previous: Autostop, f: Flow, choice: Choice)
    requires FlowInv(counts, previous, f) && f.going
    ensures FlowInv(counts, previous, Act(counts, previous, f, choice))
  {
    hide FlowInv, Act;
    if f.pos < 2 { NoteAwakeKeeps(counts, previous, f, choice); }
    else if f.pos < 4 { KeepAwakeKeeps(counts, previous, f, choice); }
    else if f.pos < 6 { HoldKeeps(counts, previous, f, choice); }
    else if f.pos < 7 { HeldKeeps(counts, previous, f, choice); }
    else if f.pos < 9 { SnapshotKeeps(counts, previous, f, choice); }
    else if f.pos < 10 { SnapshottedKeeps(counts, previous, f, choice); }
    else if f.pos < 12 { DropKeeps(counts, previous, f, choice); }
    else if f.pos < 14 { RestoreKeeps(counts, previous, f, choice); }
    else if f.pos < 15 { RestoredKeeps(counts, previous, f, choice); }
    else if f.pos < 17 { ValidateKeeps(counts, previous, f, choice); }
    else if f.pos < 19 { ReleaseKeeps(counts, previous, f, choice); }
    else if f.pos < 20 { ReleasedKeeps(counts, previous, f, choice); }
    else if f.pos < 21 { CompletedKeeps(counts, previous, f, choice); }
    else if f.pos < 22 { SleepKeeps(counts, previous, f, choice); }
    else { SleptKeeps(counts, previous, f, choice); }
  }

  /** Every world on the way is safe, and the drop goes out with no `pg_restore` running. */
  predicate TurnsSafe(counts: Counts, previous: Autostop, f: Flow, choices: seq<Choice>)
    decreases |choices|
  {
    if choices == [] then Safe(f.world)
    else
      var moved := HappenAll(f.world, choices[0].background);
      && SafeWhile(f.world, choices[0].background)
      && (f.going && f.pos == 10 && !choices[0].how.Nothing? ==> f.record.machine !in moved.restoring)
      && TurnsSafe(counts, previous, Turn(counts, previous, f, choices[0]), choices[1..])
  }

  lemma {:induction false} TurnsKeep(counts: Counts, previous: Autostop, f: Flow, choices: seq<Choice>)
    requires FlowInv(counts, previous, f)
    ensures FlowInv(counts, previous, Turns(counts, previous, f, choices)) && TurnsSafe(counts, previous, f, choices)
    decreases |choices|
  {
    if choices == [] {
      BackgroundKeeps(counts, previous, f, []);
    } else {
      var moved := f.(world := HappenAll(f.world, choices[0].background));
      BackgroundKeeps(counts, previous, f, choices[0].background);
      if f.going && !choices[0].how.Nothing? {
        ActKeeps(counts, previous, moved, choices[0]);
      }
      TurnsKeep(counts, previous, Turn(counts, previous, f, choices[0]), choices[1..]);
    }
  }

  /** Wherever a restore stops, whatever failed or was cut off on the way: it was safe so
      far, and the record it leaves stands for the world it leaves, so its recipes apply. */
  lemma RecordAlwaysConsistent(counts: Counts, previous: Autostop, f: Flow, choices: seq<Choice>)
    requires Starts(counts, previous, f)
    ensures TurnsSafe(counts, previous, f, choices)
    ensures var stopped := Turns(counts, previous, f, choices); Consistent(counts, stopped.record, stopped.world)
  {
    TurnsKeep(counts, previous, f, choices);
  }

  /** It does happen: over a good restore, a count whose output cannot be read stops the
      restore with a record that no longer offers to finish it. */
  lemma UnreadableCountStops(counts: Counts, previous: Autostop, f: Flow)
    requires FlowInv(counts, previous, f) && f.going && f.pos == 14
    requires Running(f.world, f.record.machine) && counts.dump == counts.backup
    ensures var t := Turn(counts, previous, f, Choice([], Fully, false, ""));
      && !t.going && t.world == f.world && t.record == f.record.(mismatch := Some(Mismatch(None)))
      && Consistent(counts, t.record, t.world)
      && RestoreRecipesFor(t.record).finish.None? && RestoreRecipesFor(f.record).finish.Some?
  {
    ActKeeps(counts, previous, f, Choice([], Fully, false, ""));
  }

  /** The whole promise: stop a restore anywhere, then follow either recipe as far as its
      checks allow. Nothing unsafe happens, and a recipe carried through reaches its goal. */
  lemma StopAnywhereThenRecover(counts: Counts, previous: Autostop, f: Flow, choices: seq<Choice>,
                                notes: Notes, finishing: seq<Choice>, undoing: seq<Choice>)
    requires Starts(counts, previous, f)
    ensures var stopped := Turns(counts, previous, f, choices);
      var recipes := RestoreRecipesFor(stopped.record);
      && (recipes.finish.Some? && |finishing| == |recipes.finish.value| ==>
            Ends(counts, stopped.world, notes, stopped.record, FinishedDb(stopped.record), recipes.finish.value, finishing))
      && (recipes.undo.Some? && |undoing| == |recipes.undo.value| ==>
            EndsOnClone(counts, stopped.world, notes, stopped.record, recipes.undo.value, undoing))
      && (DbOf(stopped.world, stopped.record.machine) != Some(PreRestore) ==> recipes.undo.Some?)
      && (stopped.world.patch.None? ==> recipes.finish.Some? || recipes.undo.Some?)
  {
    RecordAlwaysConsistent(counts, previous, f, choices);
    var stopped := Turns(counts, previous, f, choices);
    var recipes := RestoreRecipesFor(stopped.record);
    if recipes.finish.Some? && |finishing| == |recipes.finish.value| {
      FinishRecipeIsSound(counts, stopped.record, stopped.world, notes, finishing);
    }
    if recipes.undo.Some? && |undoing| == |recipes.undo.value| {
      UndoRecipeIsSound(counts, stopped.record, stopped.world, notes, undoing);
    }
    OneRecipeAlwaysApplies(counts, stopped.record, stopped.world);
  }
}
