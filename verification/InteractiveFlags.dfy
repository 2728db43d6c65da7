/** Asking for required flags instead of failing on them (cli/src/interactiveFlags.ts): the
    loop that parses, asks and parses again, against any parser and any answers. */
module InteractiveFlags {
  import opened Wrappers
  import opened Strings
  import opened Argv

  datatype Flag =
    | Name | NewName | BundlePath | Email | GithubHandle | Role | FromRole | ServerUrl | Team | App
    | Deployment | SourceDeployment | DestDeployment | ReleaseLabel | Platform | Bundler

  const ALL_FLAGS: set<Flag> := {Name, NewName, BundlePath, Email, GithubHandle, Role, FromRole, ServerUrl, Team, App,
    Deployment, SourceDeployment, DestDeployment, ReleaseLabel, Platform, Bundler}

  /** Every spelling that supplies the flag. */
  function Options(flag: Flag): seq<string> {
    match flag
    case Name => ["--name"]
    case NewName => ["--new-name"]
    case BundlePath => ["--bundle-path"]
    case Email => ["--email", "--user-id"]
    case GithubHandle => ["--github-handle"]
    case Role => ["--role"]
    case FromRole => ["--from-role"]
    case ServerUrl => ["--server-url"]
    case Team => ["--team", "--team-id"]
    case App => ["--app", "--app-id"]
    case Deployment => ["--deployment", "--deployment-id"]
    case SourceDeployment => ["--source-deployment", "--source-deployment-id"]
    case DestDeployment => ["--dest-deployment", "--dest-deployment-id"]
    case ReleaseLabel => ["--label"]
    case Platform => ["--platform"]
    case Bundler => ["--bundler"]
  }

  predicate HasFlagOption(argv: seq<string>, flag: Flag) {
    exists option | option in Options(flag) :: exists i | 0 <= i < |argv| :: Spells(argv[i], option)
  }

  const CONFIG_DEFAULTED_FLAGS: set<Flag> := {App, Bundler, Deployment, Platform, ServerUrl, Team}

  /** A command's `defaults`: the flags stored configuration may supply, and the ones it may
      ask for besides. */
  datatype Policy = Policy(configured: set<Flag>, prompt: set<Flag>)

  predicate MayAsk(policy: Policy, flag: Flag) {
    (flag in CONFIG_DEFAULTED_FLAGS && flag in policy.configured) || flag in policy.prompt
  }

  type Values = map<string, string>

  /** What the parser made of the values: a command, or the flags it missed. */
  datatype Parse = Parsed | Failed(missing: seq<Flag>)

  /** The command line, its policy, the parser, and whoever answers; an answerer that throws
      gives nothing back. */
  datatype Input = Input(
    argv: seq<string>,
    policy: Policy,
    defaults: Values,
    parse: Values -> Parse,
    askFor: (seq<Flag>, Values) -> Option<Values>)

  datatype Stop = Done | NothingToAsk | NoAnswers | Threw

  datatype Outcome = Outcome(answers: Values, result: Parse, stop: Stop, rounds: seq<seq<Flag>>)

  function Askable(i: Input, asked: set<Flag>, missing: seq<Flag>): (flags: seq<Flag>)
    ensures forall f :: f in flags <==> f in missing && f !in asked && !HasFlagOption(i.argv, f) && MayAsk(i.policy, f)
  {
    if missing == [] then []
    else
      var f := missing[0];
      (if f !in asked && !HasFlagOption(i.argv, f) && MayAsk(i.policy, f) then [f] else []) + Askable(i, asked, missing[1..])
  }

  function SetOf(flags: seq<Flag>): (s: set<Flag>)
    ensures forall f :: f in s <==> f in flags
  {
    set f | f in flags
  }

  lemma EveryFlag(f: Flag)
    ensures f in ALL_FLAGS
  {
  }

  lemma FewerLeft(asked: set<Flag>, flags: seq<Flag>)
    requires flags != [] && forall f | f in flags :: f !in asked
    ensures |ALL_FLAGS - (asked + SetOf(flags))| < |ALL_FLAGS - asked|
  {
    EveryFlag(flags[0]);
    assert flags[0] in flags;
    var before, after := ALL_FLAGS - asked, ALL_FLAGS - (asked + SetOf(flags));
    Smaller(after, before, flags[0]);
  }

  lemma Smaller(a: set<Flag>, b: set<Flag>, f: Flag)
    requires a <= b && f in b && f !in a
    ensures |a| < |b|
  {
    NoLarger(a, b - {f});
  }

  lemma {:induction false} NoLarger(a: set<Flag>, b: set<Flag>)
    requires a <= b
    ensures |a| <= |b|
    decreases |a|
  {
    if a != {} {
      var f :| f in a;
      NoLarger(a - {f}, b - {f});
    }
  }

  /** The loop from any point: who has been asked, what was answered, what the flags are now. */
  function Rounds(i: Input, asked: set<Flag>, answers: Values, current: Values, rounds: seq<seq<Flag>>): Outcome
    decreases |ALL_FLAGS - asked|
  {
    var result := i.parse(current);
    if result.Parsed? then Outcome(answers, result, Done, rounds)
    else
      var askable := Askable(i, asked, result.missing);
      if askable == [] then Outcome(answers, result, NothingToAsk, rounds)
      else
        match i.askFor(askable, current)
        case None => Outcome(answers, result, Threw, rounds + [askable])
        case Some(round) =>
          if round == map[] then Outcome(answers, result, NoAnswers, rounds + [askable])
          else
            FewerLeft(asked, askable);
            Rounds(i, asked + SetOf(askable), answers + round, current + round, rounds + [askable])
  }

  method ParseWithInteractiveFlags(i: Input) returns (answers: Values, result: Parse, stop: Stop, ghost rounds: seq<seq<Flag>>)
    ensures var o := Rounds(i, {}, map[], i.defaults, []); answers == o.answers && result == o.result && stop == o.stop
    ensures rounds == Rounds(i, {}, map[], i.defaults, []).rounds
  {
    answers, rounds := map[], [];
    var asked: set<Flag> := {};
    var current := i.defaults;
    result := i.parse(current);
    while !result.Parsed?
      invariant result == i.parse(current)
      invariant Rounds(i, {}, map[], i.defaults, []) == Rounds(i, asked, answers, current, rounds)
      decreases |ALL_FLAGS - asked|
    {
      var askable := Askable(i, asked, result.missing);
      if askable == [] {
        stop := NothingToAsk;
        return;
      }
      FewerLeft(asked, askable);
      asked := asked + SetOf(askable);
      rounds := rounds + [askable];
      var round := i.askFor(askable, current);
      if round.None? {
        stop := Threw;
        return;
      }
      if round.value == map[] {
        stop := NoAnswers;
        return;
      }
      answers := answers + round.value;
      current := current + round.value;
      result := i.parse(current);
    }
    stop := Done;
  }

  // ----- What every run of it keeps -------------------------------------------

  /** Every flag that was asked for could be, and in one round only. */
  ghost predicate Proper(i: Input, asked: set<Flag>, rounds: seq<seq<Flag>>) {
    && (forall r | 0 <= r < |rounds| :: rounds[r] != [])
    && (forall r, f | 0 <= r < |rounds| && f in rounds[r] :: f in asked && !HasFlagOption(i.argv, f) && MayAsk(i.policy, f))
    && (forall r, s, f | 0 <= r < s < |rounds| && f in rounds[r] :: f !in rounds[s])
    && |rounds| <= |asked|
  }

  lemma OneMore(i: Input, asked: set<Flag>, rounds: seq<seq<Flag>>, askable: seq<Flag>)
    requires Proper(i, asked, rounds) && askable != []
    requires forall f | f in askable :: f !in asked && !HasFlagOption(i.argv, f) && MayAsk(i.policy, f)
    ensures Proper(i, asked + SetOf(askable), rounds + [askable])
  {
    assert askable[0] in askable;
    Smaller(asked, asked + SetOf(askable), askable[0]);
  }

  lemma MergeMore(a: Values, b: Values, c: Values)
    ensures a + b + c == a + (b + c)
  {
  }

  lemma {:induction false} RoundsKeep(i: Input, asked: set<Flag>, answers: Values, current: Values, rounds: seq<seq<Flag>>)
    returns (all: set<Flag>)
    requires Proper(i, asked, rounds) && current == i.defaults + answers
    ensures var o := Rounds(i, asked, answers, current, rounds);
      && Proper(i, all, o.rounds)
      && o.result == i.parse(i.defaults + o.answers)
      && (o.stop.Done? <==> o.result.Parsed?)
    decreases |ALL_FLAGS - asked|
  {
    var result := i.parse(current);
    all := asked;
    if result.Parsed? || Askable(i, asked, result.missing) == [] {
      return;
    }
    var askable := Askable(i, asked, result.missing);
    OneMore(i, asked, rounds, askable);
    all := asked + SetOf(askable);
    var answer := i.askFor(askable, current);
    if answer.None? || answer.value == map[] {
      return;
    }
    MergeMore(i.defaults, answers, answer.value);
    FewerLeft(asked, askable);
    all := RoundsKeep(i, all, answers + answer.value, current + answer.value, rounds + [askable]);
  }

  lemma AtMostSixteen(all: set<Flag>)
    ensures |all| <= 16
  {
    forall f | f in all ensures f in ALL_FLAGS {
      EveryFlag(f);
    }
    NoLarger(all, ALL_FLAGS);
  }

  ghost function Outcomes(i: Input): Outcome {
    Rounds(i, {}, map[], i.defaults, [])
  }

  /** Against any parser and any answers: at most sixteen rounds, each of them a question; no
      flag is asked for twice, none that is spelled on the command line, none outside the
      command's policy; and what comes back is the parse of the defaults with the answers
      laid over them. */
  lemma PromptLoopIsProper(i: Input)
    ensures var o := Outcomes(i);
      && |o.rounds| <= 16
      && (forall r | 0 <= r < |o.rounds| :: o.rounds[r] != [])
      && (forall r, s, f | 0 <= r < s < |o.rounds| && f in o.rounds[r] :: f !in o.rounds[s])
      && (forall r, f | 0 <= r < |o.rounds| && f in o.rounds[r] :: !HasFlagOption(i.argv, f) && MayAsk(i.policy, f))
      && o.result == i.parse(i.defaults + o.answers)
      && (o.stop.Done? <==> o.result.Parsed?)
  {
    assert i.defaults == i.defaults + map[];
    var all := RoundsKeep(i, {}, map[], i.defaults, []);
    AtMostSixteen(all);
  }

  /** The flags asked for in some round. */
  ghost predicate WasAsked(rounds: seq<seq<Flag>>, f: Flag) {
    exists r | 0 <= r < |rounds| :: f in rounds[r]
  }

  /** Each flag still missing has been asked for, was spelled, or is none the command may ask for. */
  ghost predicate AllSettled(i: Input, o: Outcome) {
    o.result.Failed? && forall f | f in o.result.missing :: WasAsked(o.rounds, f) || HasFlagOption(i.argv, f) || !MayAsk(i.policy, f)
  }

  lemma {:induction false} GivesUpOnly(i: Input, asked: set<Flag>, answers: Values, current: Values, rounds: seq<seq<Flag>>)
    requires forall f :: f in asked <==> WasAsked(rounds, f)
    ensures var o := Rounds(i, asked, answers, current, rounds);
      o.stop.NothingToAsk? ==> AllSettled(i, o)
    decreases |ALL_FLAGS - asked|
  {
    var result := i.parse(current);
    if result.Failed? && Askable(i, asked, result.missing) != [] {
      var askable := Askable(i, asked, result.missing);
      var answer := i.askFor(askable, current);
      if answer.Some? && answer.value != map[] {
        FewerLeft(asked, askable);
        AskedNow(asked, rounds, askable);
        GivesUpOnly(i, asked + SetOf(askable), answers + answer.value, current + answer.value, rounds + [askable]);
      }
    }
  }

  lemma AskedNow(asked: set<Flag>, rounds: seq<seq<Flag>>, askable: seq<Flag>)
    requires forall f :: f in asked <==> WasAsked(rounds, f)
    ensures forall f :: f in asked + SetOf(askable) <==> WasAsked(rounds + [askable], f)
  {
    var more := rounds + [askable];
    forall f ensures f in asked + SetOf(askable) <==> WasAsked(more, f) {
      if f in askable {
        assert f in more[|rounds|];
      }
      if WasAsked(rounds, f) {
        var r :| 0 <= r < |rounds| && f in rounds[r];
        assert f in more[r];
      }
    }
  }

  /** The loop stops asking of its own accord only when there is nothing left it may ask. */
  lemma StopsOnlyWhenNothingIsLeft(i: Input)
    ensures var o := Outcomes(i);
      o.stop.NothingToAsk? ==> AllSettled(i, o)
  {
    GivesUpOnly(i, {}, map[], i.defaults, []);
  }
}
