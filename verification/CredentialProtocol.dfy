/** Overlapping runs that share one credential file, one lock file and one server
    per URL, as interleaved atomic steps (cli/src/authenticatedRequest.ts,
    cli/src/credentialStore.ts). */
module CredentialProtocol {
  import opened Wrappers

  const LOCK_WAIT_MS: nat := 15_000
  const LOCK_STALE_MS: nat := 30_000
  const LOCK_RETRY_MS: nat := 50

  type Server = string

  /** A server issues access and refresh tokens in pairs; a pair is numbered by its
      generation, so two generations never share a token. */
  datatype Credential =
    | OAuth(access: nat, refresh: nat)
    | PersonalToken(access: nat)

  type Store = map<Server, Credential>

  /** The server's side of one login: the generation it would accept next. */
  datatype Session = Session(current: nat, alive: bool)

  /** The lock file is empty; `owner` only says whose it is. */
  datatype Lock = Lock(owner: nat, at: nat)

  datatype Pc =
    | Start | FirstSend
    | Locking | Opening | Stating | Breaking
    | Loading | Refreshing | SaveReading | SaveWriting | RemoveReading | RemoveWriting | Releasing
    | ForgetReading | ForgetWriting
    | Done

  datatype Outcome = Pending | Adopted(session: Credential) | Refreshed(session: Credential) | Failed

  datatype Run = Run(
    server: Server,
    pc: Pc,
    credential: Option<Credential>,  // what `resolveAuthSource` loaded
    deadline: nat,
    held: bool,
    seen: Store,                     // what a save or a removal read before writing
    reply: Credential,               // the refreshed session about to be saved
    outcome: Outcome)

  /** What the server made of a refresh token that reached it. */
  datatype Verdict = Rotated | Reused | Refused

  datatype Presented = Presented(server: Server, run: nat, token: nat, verdict: Verdict)

  /** Everything the runs share: the clock, the two files and the servers. */
  datatype Shared = Shared(
    now: nat,
    lock: Option<Lock>,
    store: Store,
    sessions: map<Server, Session>,
    presented: seq<Presented>)

  datatype State = State(g: Shared, runs: seq<Run>)

  /** What the network or the server decides at a step that waits for one of them. */
  datatype Choice = Normal | Unauthorized | LostBefore | LostAfter

  datatype Step = Tick(ms: nat) | Expire(server: Server) | Go(run: nat, choice: Choice)

  // ----- The server -----------------------------------------------------------

  function Judge(session: Option<Session>, token: nat): Verdict {
    if session.None? || !session.value.alive || token > session.value.current then Refused
    else if token == session.value.current then Rotated
    else Reused
  }

  /** Rotation moves to the next generation; a used token revokes the whole session. */
  function Settle(session: Session, verdict: Verdict): Session {
    match verdict
    case Rotated => session.(current := session.current + 1)
    case Reused => session.(alive := false)
    case Refused => session
  }

  // ----- One run --------------------------------------------------------------

  function Lookup<K, V>(m: map<K, V>, k: K): Option<V> {
    if k in m then Some(m[k]) else None
  }

  predicate Stale(g: Shared) {
    g.lock.Some? && g.now - g.lock.value.at > LOCK_STALE_MS
  }

  /** The refresh request, sent with the credential the run loaded first. */
  function SendRefresh(g: Shared, i: nat, run: Run, choice: Choice): (Shared, Run) {
    if choice.LostBefore? || run.credential.None? || !run.credential.value.OAuth? then
      (g, run.(pc := Releasing, outcome := Failed))
    else
      var token := run.credential.value.refresh;
      var verdict := Judge(Lookup(g.sessions, run.server), token);
      var answered := g.(
        presented := g.presented + [Presented(run.server, i, token, verdict)],
        sessions := if run.server in g.sessions
                    then g.sessions[run.server := Settle(g.sessions[run.server], verdict)]
                    else g.sessions);
      if choice.LostAfter? then (answered, run.(pc := Releasing, outcome := Failed))
      else if verdict.Rotated? then (answered, run.(pc := SaveReading, reply := OAuth(token + 1, token + 1)))
      else (answered, run.(pc := RemoveReading))
  }

  /** Run `i`'s next atomic action on what it shares with the others. */
  function Act(g: Shared, i: nat, run: Run, choice: Choice): (Shared, Run) {
    match run.pc
    case Start =>
      var stored := Lookup(g.store, run.server);
      (g, run.(credential := stored, pc := if stored.None? then Done else FirstSend))
    case FirstSend =>
      if !choice.Unauthorized? || run.credential.None? then (g, run.(pc := Done))
      else if run.credential.value.PersonalToken? then (g, run.(pc := ForgetReading))
      else (g, run.(pc := Locking, deadline := g.now + LOCK_WAIT_MS))
    case Locking => (g, run.(pc := if g.now < run.deadline then Opening else Loading))
    case Opening =>
      if g.lock.None? then (g.(lock := Some(Lock(i, g.now))), run.(held := true, pc := Loading))
      else (g, run.(pc := Stating))
    case Stating => (g, run.(pc := if Stale(g) then Breaking else Locking))
    case Breaking => (g.(lock := None), run.(pc := Locking))
    case Loading =>
      var current := Lookup(g.store, run.server);
      if current.Some? && run.credential.Some? && current.value.access != run.credential.value.access
      then (g, run.(pc := Releasing, outcome := Adopted(current.value)))
      else (g, run.(pc := Refreshing))
    case Refreshing => SendRefresh(g, i, run, choice)
    case SaveReading => (g, run.(seen := g.store, pc := SaveWriting))
    case SaveWriting =>
      (g.(store := run.seen[run.server := run.reply]), run.(pc := Releasing, outcome := Refreshed(run.reply)))
    case RemoveReading => (g, run.(seen := g.store, pc := RemoveWriting))
    case RemoveWriting =>
      (g.(store := run.seen - {run.server}), run.(pc := Releasing, outcome := Failed))
    case Releasing =>
      (if run.held then g.(lock := None) else g, run.(held := false, pc := Done))
    case ForgetReading => (g, run.(seen := g.store, pc := ForgetWriting))
    case ForgetWriting =>
      (g.(store := run.seen - {run.server}), run.(pc := Done, outcome := Failed))
    case Done => (g, run)
  }

  /** One atomic step of the whole system; a step that names no run changes nothing. */
  function Apply(s: State, step: Step): State {
    match step
    case Tick(ms) => s.(g := s.g.(now := s.g.now + ms))
    case Expire(v) =>
      if v in s.g.sessions
      then s.(g := s.g.(sessions := s.g.sessions[v := s.g.sessions[v].(alive := false)]))
      else s
    case Go(i, choice) =>
      if i < |s.runs| then
        var (g, run) := Act(s.g, i, s.runs[i], choice);
        State(g, s.runs[i := run])
      else s
  }

  function Exec(s: State, steps: seq<Step>): State
    decreases |steps|
  {
    if steps == [] then s else Exec(Apply(s, steps[0]), steps[1..])
  }

  // ----- Executions in which the lock does its work ---------------------------

  /** No state of the execution has a lock file past the stale age. */
  predicate NeverStale(s: State, steps: seq<Step>)
    decreases |steps|
  {
    !Stale(s.g) && (steps == [] || NeverStale(Apply(s, steps[0]), steps[1..]))
  }

  /** No waiter reaches its deadline at this step, and no reply is lost once the server has acted. */
  predicate CalmStep(s: State, step: Step) {
    step.Go? && step.run < |s.runs| ==>
      && (s.runs[step.run].pc.Locking? ==> s.g.now < s.runs[step.run].deadline)
      && !step.choice.LostAfter?
  }

  predicate CalmRun(s: State, steps: seq<Step>)
    decreases |steps|
  {
    && !Stale(s.g)
    && (steps == [] || (CalmStep(s, steps[0]) && CalmRun(Apply(s, steps[0]), steps[1..])))
  }

  lemma {:induction false} ExecSplit(s: State, a: seq<Step>, b: seq<Step>)
    ensures Exec(s, a + b) == Exec(Exec(s, a), b)
    ensures CalmRun(s, a + b) <==> CalmRun(s, a) && CalmRun(Exec(s, a), b)
    decreases |a|
  {
    if a == [] {
      assert a + b == b;
    } else {
      assert (a + b)[0] == a[0] && (a + b)[1..] == a[1..] + b;
      ExecSplit(Apply(s, a[0]), a[1..], b);
    }
  }
}
