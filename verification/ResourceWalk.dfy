/** The walk from team to app to deployment behind a round of questions
    (cli/src/interactiveFlags.ts): whom it asks about, and what it hands on. */
module ResourceWalk {
  import opened Wrappers
  import opened NamedResources

  datatype Selector = Team | App | Deployment

  /** What the parser missed. */
  datatype Wanted = Wanted(team: bool, app: bool, deployment: bool)

  /** A name or an id for each selector. */
  datatype Selectors = Selectors(team: Option<string>, app: Option<string>, deployment: Option<string>)

  /** What a walk starts from: the ids that are given, which no answer changes, the names
      spelled on the command line, and the names stored or answered. */
  datatype Given = Given(teamId: Option<string>, appId: Option<string>, spelled: Selectors, known: Selectors)

  /** What the server lists: the teams, a team's apps, an app's deployments. */
  datatype Lists = Lists(teams: seq<Resource>, apps: string -> seq<Resource>, deployments: string -> seq<Resource>)

  /** How far a walk got: the resources it went through, the answers it recorded, and whom
      it asked about, in order. */
  datatype Walk = Walk(team: Option<Resource>, app: Option<Resource>, deployment: Option<Resource>, answers: Selectors, asked: seq<Selector>)

  const NOWHERE := Walk(None, None, None, Selectors(None, None, None), [])

  function TeamName(given: Given): Option<string> { WalkName(given.spelled.team, given.known.team) }

  function AppName(given: Given): Option<string> { WalkName(given.spelled.app, given.known.app) }

  function DeploymentName(given: Given): Option<string> { WalkName(given.spelled.deployment, given.known.deployment) }

  function Question(selector: Selector, configuredName: Option<string>, inferSoleEntry: bool, resources: seq<Resource>): seq<Selector> {
    if Asks(configuredName, inferSoleEntry, resources) then [selector] else []
  }

  function PickTeam(wanted: Wanted, given: Given, lists: Lists, choose: Selector -> string): Result<Walk, PickError> {
    if lists.teams == [] then Err(NoneAvailable)
    else
      match PickResource(TeamName(given), true, lists.teams, choose(Team))
      case Err(e) => Err(e)
      case Ok(team) =>
        Ok(NOWHERE.(team := Some(team),
                    answers := Selectors(Recorded(wanted.team, TeamName(given), team, |lists.teams|), None, None),
                    asked := Question(Team, TeamName(given), true, lists.teams)))
  }

  function PickApp(wanted: Wanted, given: Given, infer: bool, w: Walk, teamId: string, lists: Lists, choose: Selector -> string): Result<Walk, PickError> {
    var apps := lists.apps(teamId);
    match PickResource(AppName(given), infer, apps, choose(App))
    case Err(e) => Err(e)
    case Ok(app) =>
      Ok(w.(app := Some(app),
            answers := w.answers.(app := Recorded(wanted.app, AppName(given), app, |apps|)),
            asked := w.asked + Question(App, AppName(given), infer, apps)))
  }

  function PickDeployment(given: Given, infer: bool, w: Walk, appId: string, lists: Lists, choose: Selector -> string): Result<Walk, PickError> {
    var deployments := lists.deployments(appId);
    match PickResource(DeploymentName(given), infer, deployments, choose(Deployment))
    case Err(e) => Err(e)
    case Ok(deployment) =>
      Ok(w.(deployment := Some(deployment),
            answers := w.answers.(deployment := Recorded(true, DeploymentName(given), deployment, |deployments|)),
            asked := w.asked + Question(Deployment, DeploymentName(given), infer, deployments)))
  }

  function ToTeam(wanted: Wanted, given: Given, lists: Lists, choose: Selector -> string): Result<Walk, PickError> {
    if given.teamId.Some? then Ok(NOWHERE) else PickTeam(wanted, given, lists, choose)
  }

  function TeamIdOf(given: Given, w: Walk): string
    requires given.teamId.Some? || w.team.Some?
  {
    if given.teamId.Some? then given.teamId.value else w.team.value.id
  }

  function ToApp(wanted: Wanted, given: Given, infer: bool, lists: Lists, choose: Selector -> string): Result<Walk, PickError> {
    if given.appId.Some? then Ok(NOWHERE)
    else
      match ToTeam(wanted, given, lists, choose)
      case Err(e) => Err(e)
      case Ok(w) =>
        if !wanted.app && !wanted.deployment then Ok(w) else PickApp(wanted, given, infer, w, TeamIdOf(given, w), lists, choose)
  }

  function AppIdOf(given: Given, w: Walk): string
    requires given.appId.Some? || w.app.Some?
  {
    if given.appId.Some? then given.appId.value else w.app.value.id
  }

  /** `askForServerResources`, up to the deployment. */
  function AskForServerResources(wanted: Wanted, given: Given, infer: bool, lists: Lists, choose: Selector -> string): Result<Walk, PickError> {
    match ToApp(wanted, given, infer, lists, choose)
    case Err(e) => Err(e)
    case Ok(w) =>
      if !wanted.deployment then Ok(w)
      else PickDeployment(given, infer, w, AppIdOf(given, w), lists, choose)
  }

  // ----- Whom it asks about ---------------------------------------------------

  /** The team is asked about exactly when no id already says where to look, and neither the
      configured name nor a sole team settles it; the app exactly when the walk needs one and
      has no id, and likewise: so also an app whose name was spelled, when the team it was
      looked for in lists none that answers to it; and the deployment likewise. */
  lemma AskedExactlyWhen(wanted: Wanted, given: Given, infer: bool, lists: Lists, choose: Selector -> string)
    requires AskForServerResources(wanted, given, infer, lists, choose).Ok?
    ensures var w := AskForServerResources(wanted, given, infer, lists, choose).value;
      && (Team in w.asked <==> given.appId.None? && given.teamId.None? && Asks(TeamName(given), true, lists.teams))
      && (given.appId.None? ==> given.teamId.Some? || w.team.Some?)
      && (App in w.asked <==> given.appId.None? && (wanted.app || wanted.deployment)
                              && Asks(AppName(given), infer, lists.apps(TeamIdOf(given, w))))
      && (wanted.deployment ==> given.appId.Some? || w.app.Some?)
      && (Deployment in w.asked <==> wanted.deployment && Asks(DeploymentName(given), infer, lists.deployments(AppIdOf(given, w))))
  {
    hide PickResource, Asks, Recorded;
  }

  // ----- Walking again --------------------------------------------------------

  /** What the next parse, and the next walk, are given: the words of the command line are
      the same. */
  function HandedOn(given: Given, answers: Selectors): Given {
    given.(known := Selectors(
      Over(answers.team, given.known.team),
      Over(answers.app, given.known.app),
      Over(answers.deployment, given.known.deployment)))
  }

  ghost predicate AllUnambiguous(lists: Lists) {
    && Unambiguous(lists.teams)
    && (forall id :: Unambiguous(lists.apps(id))) && (forall id :: Unambiguous(lists.deployments(id)))
  }

  predicate ReachesApp(wanted: Wanted, given: Given) {
    given.appId.None? && (wanted.app || wanted.deployment)
  }

  /** A sole app was confirmed on the way to a deployment, for a command without a
      confirmation of its own, and nothing is left of that. */
  predicate Forgets(wanted: Wanted, given: Given, infer: bool, lists: Lists, w: Walk)
    requires ReachesApp(wanted, given) ==> given.teamId.Some? || w.team.Some?
  {
    && ReachesApp(wanted, given) && !infer && !wanted.app
    && AppName(given).None? && |lists.apps(TeamIdOf(given, w))| == 1
  }

  /** With what a walk handed on, any later walk that gets as far goes through the same
      team, app and deployment and asks about none of them, whatever it is for and whatever
      would be answered then; but a sole app of which nothing was kept is asked about again.
      A later walk that wants no more than the first comes to an end, and asks nothing. */
  lemma WalkAgain(wanted: Wanted, wanted': Wanted, given: Given, infer: bool, lists: Lists, choose: Selector -> string, later: Selector -> string)
    requires AllUnambiguous(lists) && AskForServerResources(wanted, given, infer, lists, choose).Ok?
    ensures var w := AskForServerResources(wanted, given, infer, lists, choose).value;
      var r := AskForServerResources(wanted', HandedOn(given, w.answers), infer, lists, later);
      && (ReachesApp(wanted, given) ==> given.teamId.Some? || w.team.Some?)
      && (r.Ok? ==> r.value.team == w.team && Team !in r.value.asked)
      && (r.Ok? && ReachesApp(wanted, given) && ReachesApp(wanted', given) ==>
            if Forgets(wanted, given, infer, lists, w) then App in r.value.asked
            else r.value.app == w.app && App !in r.value.asked)
      && (r.Ok? && wanted.deployment && wanted'.deployment && !Forgets(wanted, given, infer, lists, w) ==>
            r.value.deployment == w.deployment && Deployment !in r.value.asked)
      && (!Forgets(wanted, given, infer, lists, w) && (wanted'.app ==> wanted.app || wanted.deployment) && (wanted'.deployment ==> wanted.deployment) ==>
            r.Ok? && r.value.asked == [])
  {
    hide PickResource, Asks, ShouldRecordPick, Unambiguous, WalkName, ToApp;
    var w := AskForServerResources(wanted, given, infer, lists, choose).value;
    var next := HandedOn(given, w.answers);
    ToAppAgain(wanted, wanted', given, next, infer, lists, choose, later);
    if wanted.deployment {
      var deployments := lists.deployments(AppIdOf(given, w));
      PickedAgain(true, given.spelled.deployment, given.known.deployment, infer, deployments, choose(Deployment), later(Deployment));
      NameIsKept(true, given.spelled.deployment, given.known.deployment, infer, deployments, choose(Deployment));
    }
  }

  /** The same as far as the app; `next` has the names the first walk left for it. */
  lemma ToAppAgain(wanted: Wanted, wanted': Wanted, given: Given, next: Given, infer: bool, lists: Lists, choose: Selector -> string, later: Selector -> string)
    requires AllUnambiguous(lists) && ToApp(wanted, given, infer, lists, choose).Ok?
    requires next.teamId == given.teamId && next.appId == given.appId && next.spelled == given.spelled
    requires var w := ToApp(wanted, given, infer, lists, choose).value;
      next.known.team == Over(w.answers.team, given.known.team) && next.known.app == Over(w.answers.app, given.known.app)
    ensures var w := ToApp(wanted, given, infer, lists, choose).value;
      var r := ToApp(wanted', next, infer, lists, later);
      && (ReachesApp(wanted, given) ==> given.teamId.Some? || w.team.Some?)
      && (wanted.deployment ==> given.appId.Some? || w.app.Some?)
      && (wanted'.deployment && r.Ok? ==> next.appId.Some? || r.value.app.Some?)
      && w.deployment == None && w.answers.deployment == None
      && (r.Ok? ==> r.value.deployment == None && r.value.team == w.team && Team !in r.value.asked && Deployment !in r.value.asked)
      && (r.Ok? && ReachesApp(wanted, given) && ReachesApp(wanted', given) ==>
            if Forgets(wanted, given, infer, lists, w) then App in r.value.asked
            else r.value.app == w.app && App !in r.value.asked)
      && (!Forgets(wanted, given, infer, lists, w) && (ReachesApp(wanted', given) ==> ReachesApp(wanted, given)) ==>
            r.Ok? && r.value.asked == [])
  {
    hide PickResource, Asks, ShouldRecordPick, Unambiguous, WalkName;
    var w := ToApp(wanted, given, infer, lists, choose).value;
    if given.appId.None? && given.teamId.None? {
      PickedAgain(wanted.team, given.spelled.team, given.known.team, true, lists.teams, choose(Team), later(Team));
    }
    if ReachesApp(wanted, given) {
      var apps := lists.apps(TeamIdOf(given, w));
      PickedAgain(wanted.app, given.spelled.app, given.known.app, infer, apps, choose(App), later(App));
      NameIsKept(wanted.app, given.spelled.app, given.known.app, infer, apps, choose(App));
    }
  }

  /** The next walk has a name to go by, unless there was only one resource and none was
      wanted or had. */
  lemma NameIsKept(wantedFlag: bool, spelled: Option<string>, known: Option<string>, infer: bool, resources: seq<Resource>, selected: string)
    requires PickResource(WalkName(spelled, known), infer, resources, selected).Ok?
    ensures var picked := PickResource(WalkName(spelled, known), infer, resources, selected).value;
      var next := WalkName(spelled, KnownAfter(wantedFlag, spelled, known, picked, |resources|));
      && (next.None? <==> !wantedFlag && WalkName(spelled, known).None? && |resources| == 1)
      && (next.None? && !infer ==> Asks(next, infer, resources))
  {
    var picked := PickResource(WalkName(spelled, known), infer, resources, selected).value;
    SelectedIsListed(resources, selected);
    AnsweringToSpelled(WalkName(spelled, known), resources);
  }

  // ----- What the parser gets to see ------------------------------------------

  /** As the loop starts: stored names are left out for what is spelled. */
  predicate NothingTwice(given: Given) {
    && (given.spelled.team.None? || given.known.team.None?)
    && (given.spelled.app.None? || given.known.app.None?)
    && (given.spelled.deployment.None? || given.known.deployment.None?)
  }

  /** The loop asks for no flag that is spelled. */
  predicate Unspelled(wanted: Wanted, given: Given) {
    && (wanted.team ==> given.spelled.team.None?)
    && (wanted.app ==> given.spelled.app.None?)
    && (wanted.deployment ==> given.spelled.deployment.None?)
  }

  /** The team a walk goes to without asking. */
  function SettledTeamId(given: Given, lists: Lists): Option<string> {
    if given.teamId.Some? then given.teamId
    else if Asks(TeamName(given), true, lists.teams) then None
    else
      match PickResource(TeamName(given), true, lists.teams, "")
      case Err(_) => None
      case Ok(team) => Some(team.id)
  }

  /** What every round keeps: a name is spelled and known only where the spelled one is no
      resource's, of the list it is looked for in. */
  predicate AllApart(given: Given, lists: Lists) {
    && Apart(given.spelled.team, given.known.team, lists.teams)
    && (given.appId.None? && given.spelled.app.Some? && given.known.app.Some? ==>
          SettledTeamId(given, lists).Some? && Apart(given.spelled.app, given.known.app, lists.apps(SettledTeamId(given, lists).value)))
    && (given.spelled.deployment.None? || given.known.deployment.None?)
  }

  /** The parser sees the resource picked exactly when its name is not spelled, or is spelled
      so that a listed resource answers to it. */
  predicate Arrives(spelled: Option<string>, known: Option<string>, picked: Resource, resources: seq<Resource>) {
    ReachesParser(spelled, known, picked, resources) <==> spelled.None? || AnsweringTo(resources, spelled.value).Some?
  }

  /** Each pick of the walk reaches the next parse exactly when its name was not spelled,
      or was spelled so that a listed resource answers to it; a deployment always does. */
  ghost predicate PicksArrive(given: Given, lists: Lists, w: Walk) {
    var next := HandedOn(given, w.answers);
    && (w.team.Some? ==> Arrives(given.spelled.team, next.known.team, w.team.value, lists.teams))
    && (w.app.Some? ==>
          && (given.teamId.Some? || w.team.Some?)
          && Arrives(given.spelled.app, next.known.app, w.app.value, lists.apps(TeamIdOf(given, w))))
    && (w.deployment.Some? ==>
          && (given.appId.Some? || w.app.Some?)
          && ReachesParser(given.spelled.deployment, next.known.deployment, w.deployment.value, lists.deployments(AppIdOf(given, w))))
  }

  lemma RoundKeeps(wanted: Wanted, given: Given, infer: bool, lists: Lists, choose: Selector -> string)
    requires Unspelled(wanted, given) && AllApart(given, lists) && Unambiguous(lists.teams)
    requires AskForServerResources(wanted, given, infer, lists, choose).Ok?
    ensures var w := AskForServerResources(wanted, given, infer, lists, choose).value;
      PicksArrive(given, lists, w) && AllApart(HandedOn(given, w.answers), lists)
  {
    var w := AskForServerResources(wanted, given, infer, lists, choose).value;
    if given.appId.None? && given.teamId.None? {
      PickSurvives(wanted.team, given.spelled.team, given.known.team, true, lists.teams, choose(Team));
      PickedAgain(wanted.team, given.spelled.team, given.known.team, true, lists.teams, choose(Team), "");
    }
    if ReachesApp(wanted, given) {
      PickSurvives(wanted.app, given.spelled.app, given.known.app, infer, lists.apps(TeamIdOf(given, w)), choose(App));
    }
    if wanted.deployment {
      PickSurvives(true, given.spelled.deployment, given.known.deployment, infer, lists.deployments(AppIdOf(given, w)), choose(Deployment));
    }
  }

  datatype Round = Round(wanted: Wanted, choose: Selector -> string)

  /** What the walks of these rounds leave known, unless one of them fails. */
  function After(given: Given, infer: bool, lists: Lists, rounds: seq<Round>): Option<Given>
    decreases |rounds|
  {
    if rounds == [] then Some(given)
    else
      match AskForServerResources(rounds[0].wanted, given, infer, lists, rounds[0].choose)
      case Err(_) => None
      case Ok(w) => After(HandedOn(given, w.answers), infer, lists, rounds[1..])
  }

  /** From what the loop starts with, through any rounds. */
  lemma {:induction false} RoundsKeep(given: Given, infer: bool, lists: Lists, rounds: seq<Round>)
    requires AllApart(given, lists) && Unambiguous(lists.teams) && After(given, infer, lists, rounds).Some?
    requires forall k | 0 <= k < |rounds| :: Unspelled(rounds[k].wanted, given)
    ensures var g := After(given, infer, lists, rounds).value;
      AllApart(g, lists) && g.spelled == given.spelled
    decreases |rounds|
  {
    if rounds != [] {
      hide AskForServerResources, AllApart;
      RoundKeeps(rounds[0].wanted, given, infer, lists, rounds[0].choose);
      var w := AskForServerResources(rounds[0].wanted, given, infer, lists, rounds[0].choose).value;
      RoundsKeep(HandedOn(given, w.answers), infer, lists, rounds[1..]);
    }
  }

  /** In whichever round: a pick reaches the parse after it if and only if its name was not
      spelled, or a listed resource answers to what was. */
  lemma PicksArriveExactlyWhen(given: Given, infer: bool, lists: Lists, rounds: seq<Round>, last: Round)
    requires NothingTwice(given) && Unambiguous(lists.teams)
    requires Unspelled(last.wanted, given) && forall k | 0 <= k < |rounds| :: Unspelled(rounds[k].wanted, given)
    requires After(given, infer, lists, rounds).Some?
    requires AskForServerResources(last.wanted, After(given, infer, lists, rounds).value, infer, lists, last.choose).Ok?
    ensures var g := After(given, infer, lists, rounds).value;
      PicksArrive(g, lists, AskForServerResources(last.wanted, g, infer, lists, last.choose).value)
  {
    hide AskForServerResources, PicksArrive;
    RoundsKeep(given, infer, lists, rounds);
    RoundKeeps(last.wanted, After(given, infer, lists, rounds).value, infer, lists, last.choose);
  }

  const SHOP := Resource("1", "shop")
  const WEB := Resource("2", "web")
  const STAGING := Resource("3", "staging")

  /** What goes wrong: `--app shp` is spelled and no deployment known. The walk asks for
      the app, and the answer is recorded; but the next parse has `shp`. */
  lemma SpelledPickIsLost()
    ensures var lists := Lists([Resource("0", "team")], _ => [SHOP, WEB], _ => [STAGING]);
      var given := Given(None, None, Selectors(None, Some("shp"), None), Selectors(None, None, None));
      var r := AskForServerResources(Wanted(false, false, true), given, true, lists, (s: Selector) => if s.App? then "1" else "3");
      && NothingTwice(given) && AllUnambiguous(lists)
      && r.Ok? && r.value.app == Some(SHOP) && r.value.asked == [App]
      && r.value.answers == Selectors(None, Some("shop"), Some("staging"))
      && var next := HandedOn(given, r.value.answers);
        && ParsedName(next.spelled.app, next.known.app) == Some("shp")
        && AnsweringTo([SHOP, WEB], "shp") == None
  {
    assert "shop" != "shp" && "1" != "shp" && "2" != "shp";
    assert "web" != "shp" by {
      assert "web"[0] != "shp"[0];
    }
    assert "1" != "2" && "shop" != "web" && "1" != "web" && "2" != "shop";
    assert AnsweringTo([SHOP, WEB][1..], "shp") == None && AnsweringTo([SHOP, WEB], "shp") == None;
    assert WithId([SHOP, WEB], "1") == Some(SHOP);
  }
}
