/** The finish and undo recipes for every point at which a Fly restore can stop
    (cli/src/flySetup.ts). */
module RestoreRecipes {
  import opened Wrappers
  import opened FlyWorld

  datatype Phase =
    | Staged | HoldSent | Held | Snapshotted | DropSent | RestoreSent
    | RestoredPhase | Validated | ReleaseSent | Released | Completed

  function Index(phase: Phase): nat {
    match phase
    case Staged => 0
    case HoldSent => 1
    case Held => 2
    case Snapshotted => 3
    case DropSent => 4
    case RestoreSent => 5
    case RestoredPhase => 6
    case Validated => 7
    case ReleaseSent => 8
    case Released => 9
    case Completed => 10
  }

  predicate Reached(phase: Phase, step: Phase) {
    Index(phase) >= Index(step)
  }

  datatype KeepAwake = KeepAwake(previous: Autostop, restored: bool)

  /** Set when validation read another count than the backup's, or none it could read. */
  datatype Mismatch = Mismatch(found: Option<nat>)

  /** The record a restore keeps on disk, reduced to what its recipes depend on. */
  datatype Record = Record(
    phase: Phase,
    machine: string,
    countBefore: nat,
    backupCount: nat,
    liveImage: string,
    keepAwake: Option<KeepAwake>,
    mismatch: Option<Mismatch>,
    snapshot: Option<string>)

  datatype Recipes = Recipes(finish: Option<seq<Command>>, sleep: Option<Command>, undo: Option<seq<Command>>)

  function CutoverSteps(machine: string, count: nat, snapshot: string): seq<Command> {
    [ StopMachine(machine),
      VolumeFromSnapshot(snapshot),
      CloneOnto(machine),
      CountMigrations(CloneId, count),
      DestroyMachine(machine) ]
  }

  function FinishSteps(r: Record): Option<seq<Command>> {
    var release := Deploy(r.liveImage);
    var start := StartMachine(r.machine);
    var validate := CountMigrations(Named(r.machine), r.backupCount);
    if r.mismatch.Some? || r.phase.Staged? || r.phase.Completed? then None
    else if !Reached(r.phase, DropSent) then Some([release])
    else if !Reached(r.phase, RestoredPhase) then
      Some([start, CountRestores(r.machine), DropCreate(r.machine), PgRestore(r.machine), validate, release])
    else if !Reached(r.phase, Validated) then Some([start, validate, release])
    else if !Reached(r.phase, Released) then Some([release])
    else Some([CheckReady])
  }

  function UndoSteps(r: Record): Option<seq<Command>> {
    if Reached(r.phase, DropSent) && r.snapshot.Some?
    then Some([HoldPatch] + CutoverSteps(r.machine, r.countBefore, r.snapshot.value) + [Deploy(r.liveImage)])
    else None
  }

  function Append(steps: Option<seq<Command>>, last: Command): Option<seq<Command>> {
    if steps.None? then None else Some(steps.value + [last])
  }

  function RestoreRecipesFor(r: Record): Recipes {
    if r.keepAwake.Some? && !r.keepAwake.value.restored then
      var previous := r.keepAwake.value.previous;
      var sleep := SetAutostop(Named(r.machine), previous);
      Recipes(Append(FinishSteps(r), sleep), Some(sleep), Append(UndoSteps(r), SetAutostop(CloneId, previous)))
    else
      Recipes(FinishSteps(r), None, UndoSteps(r))
  }

  /** The autostop was turned off for the restore, and is not back. */
  predicate Owed(r: Record) {
    r.keepAwake.Some? && !r.keepAwake.value.restored
  }

  /** What the one line on where a restore stands says: of the database, and whether it
      tells the reader to finish or to undo. */
  datatype DatabaseClaim = Untouched | MayBeEmpty | NotProvablyRestored | Unchecked | MatchesBackup | WrongCount(found: nat) | Unreadable

  datatype Standing = Standing(database: DatabaseClaim, finish: bool, undo: bool)

  function DescribeRestorePhase(r: Record): Standing {
    if r.mismatch.Some? then
      Standing(if r.mismatch.value.found.Some? then WrongCount(r.mismatch.value.found.value) else Unreadable, false, true)
    else
      match r.phase
      case Staged => Standing(Untouched, false, false)
      case HoldSent => Standing(Untouched, true, false)
      case Held => Standing(Untouched, true, false)
      case Snapshotted => Standing(Untouched, true, false)
      case DropSent => Standing(MayBeEmpty, true, true)
      case RestoreSent => Standing(NotProvablyRestored, true, true)
      case RestoredPhase => Standing(Unchecked, true, true)
      case Validated => Standing(MatchesBackup, true, true)
      case ReleaseSent => Standing(MatchesBackup, true, true)
      case Released => Standing(MatchesBackup, true, true)
      case Completed => Standing(MatchesBackup, false, true)
  }

  // ----- The worlds a record can stand for ------------------------------------

  datatype PatchView = Down | Live | Either

  predicate Shows(view: PatchView, patch: Option<string>, image: string) {
    && (patch == None || patch == Some(image))
    && (view.Down? ==> patch.None?)
    && (view.Live? ==> patch.Some?)
  }

  /** One database machine, whose database is one of `dbs`. */
  ghost predicate Within(counts: Counts, w: World, r: Record, dbs: set<Db>, view: PatchView, restoring: bool, autostops: set<Autostop>) {
    && w.machines.Keys == {r.machine}
    && DbOf(w, r.machine).Some? && DbOf(w, r.machine).value in dbs
    && w.machines[r.machine].autostop in autostops
    && (DbOf(w, r.machine).value == Restored(true) ==> counts.dump == counts.backup)
    && Shows(view, w.patch, r.liveImage)
    && w.restoring <= (if restoring then {r.machine} else {})
    && (r.snapshot.Some? ==> r.snapshot.value in w.snapshots && w.snapshots[r.snapshot.value] == PreRestore)
  }

  /** The autostop the database machine had before the restore. */
  function AutostopBefore(r: Record): Autostop {
    if r.keepAwake.None? then Off else r.keepAwake.value.previous
  }

  /** The autostop it may have now: kept awake from the record's first note of it until the record says it is back. */
  function AutostopsNow(r: Record): set<Autostop> {
    if r.keepAwake.None? then (if r.phase.Staged? then {Off, Stop, Suspend} else {Off})
    else if r.keepAwake.value.restored then {r.keepAwake.value.previous}
    else if r.phase.Staged? || r.phase.Completed? then {Off, r.keepAwake.value.previous}
    else {Off}
  }

  function DbsAt(r: Record): set<Db> {
    match r.phase
    case Staged => {PreRestore}
    case HoldSent => {PreRestore}
    case Held => {PreRestore}
    case Snapshotted => {PreRestore}
    case DropSent => {PreRestore, NoDatabase, EmptyDatabase}
    case RestoreSent => {EmptyDatabase, Restored(false)}
    case RestoredPhase => if r.mismatch.Some? then {Restored(false)} else {Restored(false), Restored(true)}
    case _ => {Restored(true)}
  }

  function PatchAt(phase: Phase): PatchView {
    match phase
    case Staged => Live
    case HoldSent => Either
    case ReleaseSent => Either
    case Released => Live
    case Completed => Live
    case _ => Down
  }

  ghost predicate Consistent(counts: Counts, r: Record, w: World) {
    && Within(counts, w, r, DbsAt(r), PatchAt(r.phase), r.phase.RestoreSent?, AutostopsNow(r))
    && counts.before == r.countBefore && counts.backup == r.backupCount
    && (Reached(r.phase, Snapshotted) ==> r.snapshot.Some?)
    && (r.phase.Completed? ==> w.ready)
    && (r.mismatch.Some? ==>
          r.phase.RestoredPhase? && (r.mismatch.value.found.Some? ==> r.mismatch.value.found.value == counts.dump != r.backupCount))
  }
}
