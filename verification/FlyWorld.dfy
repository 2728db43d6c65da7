/** What the Fly commands of a restore do to Patch, its database machines and their
    volumes, and what a person following a recipe can see of it. */
module FlyWorld {
  import opened Wrappers

  /** The `patch` database on one volume. `validated` once its count was read and was the backup's. */
  datatype Db = PreRestore | NoDatabase | EmptyDatabase | Restored(validated: bool)

  datatype Autostop = Off | Stop | Suspend

  datatype Machine = Machine(volume: string, running: bool, autostop: Autostop)

  /** `patch` is the image Patch's machines run, if it has any, and `ready` whether it
      answers; `restoring` are the database machines in which a `pg_restore` still runs. */
  datatype World = World(
    patch: Option<string>,
    ready: bool,
    machines: map<string, Machine>,
    volumes: map<string, Db>,
    snapshots: map<string, Db>,
    restoring: set<string>)

  /** `schema_migration` rows: in the database before the restore, in the dump, and in
      the backup's manifest. */
  datatype Counts = Counts(before: nat, dump: nat, backup: nat)

  /** `<clone id>` in a recipe stands for what an earlier step printed. */
  datatype MachineRef = Named(id: string) | CloneId

  datatype Command =
    | Deploy(image: string)
    | StartMachine(id: string)
    | CountRestores(id: string)
    | DropCreate(id: string)
    | PgRestore(id: string)
    | CountMigrations(ref: MachineRef, expected: nat)
    | CheckReady
    | HoldPatch
    | StopMachine(id: string)
    | VolumeFromSnapshot(snapshot: string)
    | CloneOnto(id: string)
    | DestroyMachine(id: string)
    | SetAutostop(ref: MachineRef, value: Autostop)

  /** The ids a recipe's placeholders stand for, once printed. */
  datatype Notes = Notes(volume: Option<string>, clone: Option<string>)

  /** How far a command got before it returned, failed, or was cut off. */
  datatype How = Nothing | Partly | Fully

  datatype Performed = Performed(world: World, notes: Notes, ok: bool)

  function DbOf(w: World, m: string): Option<Db> {
    if m in w.machines && w.machines[m].volume in w.volumes then Some(w.volumes[w.machines[m].volume]) else None
  }

  function SetDb(w: World, m: string, db: Db): World {
    if m in w.machines then w.(volumes := w.volumes[w.machines[m].volume := db]) else w
  }

  predicate Running(w: World, m: string) {
    m in w.machines && w.machines[m].running
  }

  function SetRunning(w: World, m: string, running: bool): World {
    if m in w.machines then w.(machines := w.machines[m := w.machines[m].(running := running)]) else w
  }

  function Rows(counts: Counts, db: Option<Db>): Option<nat> {
    match db
    case Some(PreRestore) => Some(counts.before)
    case Some(Restored(_)) => Some(counts.dump)
    case _ => None
  }

  function Resolve(notes: Notes, ref: MachineRef): Option<string> {
    match ref
    case Named(id) => Some(id)
    case CloneId => notes.clone
  }

  /** One command: the world it leaves, and whether it shows what its step says to see. */
  function Perform(counts: Counts, w: World, notes: Notes, command: Command, how: How, newId: string): Performed {
    if how.Nothing? then Performed(w, notes, false) else
    match command
    case Deploy(image) => Performed(w.(patch := Some(image), ready := how.Fully?), notes, how.Fully?)
    case StartMachine(m) => Performed(SetRunning(w, m, true), notes, how.Fully? && m in w.machines)
    case CountRestores(m) => Performed(w, notes, how.Fully? && Running(w, m) && m !in w.restoring)
    case DropCreate(m) =>
      if !Running(w, m) then Performed(w, notes, false)
      else
        var dropped := SetDb(w, m, if how.Fully? then EmptyDatabase else NoDatabase);
        Performed(dropped.(restoring := w.restoring - {m}), notes, how.Fully?)
    case PgRestore(m) =>
      if !Running(w, m) || DbOf(w, m) != Some(EmptyDatabase) then Performed(w, notes, false)
      else if how.Partly? then Performed(w.(restoring := w.restoring + {m}), notes, false)
      else Performed(SetDb(w, m, Restored(false)), notes, true)
    case CountMigrations(ref, expected) =>
      var m := Resolve(notes, ref);
      if how.Partly? || m.None? || !Running(w, m.value) || Rows(counts, DbOf(w, m.value)) != Some(expected)
      then Performed(w, notes, false)
      else if DbOf(w, m.value).value.Restored? && expected == counts.backup
      then Performed(SetDb(w, m.value, Restored(true)), notes, true)
      else Performed(w, notes, true)
    case CheckReady => Performed(w, notes, how.Fully? && w.patch.Some? && w.ready)
    case HoldPatch => Performed(w.(patch := None, ready := false), notes, how.Fully?)
    case StopMachine(m) =>
      Performed(SetRunning(w, m, false).(restoring := w.restoring - {m}), notes, how.Fully?)
    case VolumeFromSnapshot(s) =>
      if s !in w.snapshots || newId in w.volumes then Performed(w, notes, false)
      else Performed(w.(volumes := w.volumes[newId := w.snapshots[s]]), notes.(volume := Some(newId)), how.Fully?)
    case CloneOnto(m) =>
      if m !in w.machines || newId in w.machines || notes.volume.None? || notes.volume.value !in w.volumes
      then Performed(w, notes, false)
      else
        Performed(w.(machines := w.machines[newId := Machine(notes.volume.value, true, w.machines[m].autostop)]),
                  notes.(clone := Some(newId)), how.Fully?)
    case DestroyMachine(m) =>
      Performed(w.(machines := w.machines - {m}, restoring := w.restoring - {m}), notes, how.Fully?)
    case SetAutostop(ref, value) =>
      var m := Resolve(notes, ref);
      if m.None? || m.value !in w.machines then Performed(w, notes, false)
      else
        Performed(w.(machines := w.machines[m.value := w.machines[m.value].(autostop := value)]), notes, how.Fully?)
  }

  // ----- What happens by itself -----------------------------------------------

  /** A `pg_restore` that was cut off locally ends, all or nothing; the proxy stops an
      idle machine that may stop, and starts one it has traffic for; Patch begins to answer. */
  datatype Event = RestoreEnds(id: string, committed: bool) | Idles(id: string) | Wakes(id: string) | Answers

  function Happen(w: World, event: Event): World {
    match event
    case RestoreEnds(m, committed) =>
      if m !in w.restoring || !Running(w, m) then w
      else
        var ended := w.(restoring := w.restoring - {m});
        if committed && DbOf(w, m) == Some(EmptyDatabase) then SetDb(ended, m, Restored(false)) else ended
    case Idles(m) => if m in w.machines && w.machines[m].autostop != Off then SetRunning(w, m, false) else w
    case Wakes(m) => SetRunning(w, m, true)
    case Answers => w.(ready := w.patch.Some?)
  }

  function HappenAll(w: World, events: seq<Event>): World
    decreases |events|
  {
    if events == [] then w else HappenAll(Happen(w, events[0]), events[1..])
  }

  // ----- Following a recipe ---------------------------------------------------

  /** What goes on around one step of a recipe, and whether its output was as promised. */
  datatype Choice = Choice(background: seq<Event>, how: How, seen: bool, newId: string)

  /** Step by step; the first step that does not show what it should ends the attempt. */
  function Follow(counts: Counts, w: World, notes: Notes, recipe: seq<Command>, choices: seq<Choice>): (World, bool)
    requires |choices| == |recipe|
    decreases |recipe|
  {
    if recipe == [] then (w, true)
    else
      var done := Perform(counts, HappenAll(w, choices[0].background), notes, recipe[0], choices[0].how, choices[0].newId);
      if done.ok && choices[0].seen
      then Follow(counts, done.world, done.notes, recipe[1..], choices[1..])
      else (done.world, false)
  }

  /** Patch has machines only while every database machine holds the untouched database
      or one whose count was checked. */
  predicate Safe(w: World) {
    w.patch.Some? ==> forall m | m in w.machines :: DbOf(w, m) in {Some(PreRestore), Some(Restored(true))}
  }

  predicate SafeWhile(w: World, events: seq<Event>)
    decreases |events|
  {
    Safe(w) && (events == [] || SafeWhile(Happen(w, events[0]), events[1..]))
  }

  /** Every world on the way is safe, and no drop is sent under a running `pg_restore`. */
  predicate SafelyFollowed(counts: Counts, w: World, notes: Notes, recipe: seq<Command>, choices: seq<Choice>)
    requires |choices| == |recipe|
    decreases |recipe|
  {
    if recipe == [] then Safe(w)
    else
      var here := HappenAll(w, choices[0].background);
      var done := Perform(counts, here, notes, recipe[0], choices[0].how, choices[0].newId);
      && SafeWhile(w, choices[0].background)
      && (recipe[0].DropCreate? && !choices[0].how.Nothing? ==> recipe[0].id !in here.restoring)
      && Safe(done.world)
      && (done.ok && choices[0].seen ==>
            SafelyFollowed(counts, done.world, done.notes, recipe[1..], choices[1..]))
  }
}
