/** Picking one of the resources a server lists (cli/src/interactiveFlags.ts), and finding
    one by the name a caller gave (cli-capacitor/src/resolveNames.ts). */
module NamedResources {
  import opened Wrappers

  datatype Resource = Resource(id: string, name: string)

  datatype PickError = NoneAvailable | InvalidSelection

  function AnsweringTo(resources: seq<Resource>, name: string): Option<Resource> {
    if resources == [] then None
    else if resources[0].name == name || resources[0].id == name then Some(resources[0])
    else AnsweringTo(resources[1..], name)
  }

  function WithId(resources: seq<Resource>, id: string): Option<Resource> {
    if resources == [] then None else if resources[0].id == id then Some(resources[0]) else WithId(resources[1..], id)
  }

  /** `selected` is what the user would choose if the question is put. */
  function PickResource(configuredName: Option<string>, inferSoleEntry: bool, resources: seq<Resource>, selected: string)
    : Result<Resource, PickError>
  {
    if configuredName.Some? && AnsweringTo(resources, configuredName.value).Some? then Ok(AnsweringTo(resources, configuredName.value).value)
    else if inferSoleEntry && |resources| == 1 then Ok(resources[0])
    else if resources == [] then Err(NoneAvailable)
    else if WithId(resources, selected).Some? then Ok(WithId(resources, selected).value)
    else Err(InvalidSelection)
  }

  predicate ShouldRecordPick(wantedFlag: bool, configuredName: Option<string>, picked: Resource, listedCount: nat) {
    wantedFlag || (configuredName != Some(picked.name) && configuredName != Some(picked.id) && (listedCount > 1 || configuredName.Some?))
  }

  /** The answer a pick leaves. */
  function Recorded(wantedFlag: bool, configuredName: Option<string>, picked: Resource, listedCount: nat): Option<string> {
    if ShouldRecordPick(wantedFlag, configuredName, picked, listedCount) then Some(picked.name) else None
  }

  function Over(first: Option<string>, second: Option<string>): Option<string> {
    if first.Some? then first else second
  }

  /** Whether picking from the list puts the question. */
  predicate Asks(configuredName: Option<string>, inferSoleEntry: bool, resources: seq<Resource>) {
    && !(configuredName.Some? && AnsweringTo(resources, configuredName.value).Some?)
    && !(inferSoleEntry && |resources| == 1)
  }

  // A selector's name has two sources: the words of the command line, which stay as they
  // are, and what is known without them, which is stored or was answered. The walk goes by
  // what is known before what is spelled, the parser the other way round.

  function WalkName(spelled: Option<string>, known: Option<string>): Option<string> {
    Over(known, spelled)
  }

  function ParsedName(spelled: Option<string>, known: Option<string>): Option<string> {
    Over(spelled, known)
  }

  /** What is known once a pick was made. */
  function KnownAfter(wantedFlag: bool, spelled: Option<string>, known: Option<string>, picked: Resource, listedCount: nat): Option<string> {
    Over(Recorded(wantedFlag, WalkName(spelled, known), picked, listedCount), known)
  }

  predicate Names(name: Option<string>, picked: Resource) {
    name == Some(picked.name) || name == Some(picked.id)
  }

  /** A spelled name is not known besides, unless it is one that no resource answers to. */
  predicate Apart(spelled: Option<string>, known: Option<string>, resources: seq<Resource>) {
    spelled.Some? && known.Some? ==> AnsweringTo(resources, spelled.value).None?
  }

  /** The parser sees this resource: by its name or id, or, where there is no other, by no name. */
  predicate ReachesParser(spelled: Option<string>, known: Option<string>, picked: Resource, resources: seq<Resource>) {
    Names(ParsedName(spelled, known), picked) || (ParsedName(spelled, known) == None && |resources| == 1)
  }

  /** No two resources answer to the same name or id. */
  ghost predicate Unambiguous(resources: seq<Resource>) {
    forall i, j | 0 <= i < |resources| && 0 <= j < |resources| && i != j ::
      resources[i].id != resources[j].id && resources[i].name != resources[j].name && resources[i].id != resources[j].name
  }

  lemma {:induction false} AnswersExactly(resources: seq<Resource>, name: string)
    ensures AnsweringTo(resources, name).Some? ==>
      && AnsweringTo(resources, name).value in resources
      && (AnsweringTo(resources, name).value.name == name || AnsweringTo(resources, name).value.id == name)
    ensures Unambiguous(resources) ==> forall k | 0 <= k < |resources| && (resources[k].name == name || resources[k].id == name) ::
      AnsweringTo(resources, name) == Some(resources[k])
    decreases |resources|
  {
    if resources != [] && resources[0].name != name && resources[0].id != name {
      AnswersExactly(resources[1..], name);
      assert forall k | 1 <= k < |resources| :: resources[k] == resources[1..][k - 1];
    }
  }

  lemma {:induction false} SelectedIsListed(resources: seq<Resource>, id: string)
    ensures WithId(resources, id).Some? ==> WithId(resources, id).value in resources
    decreases |resources|
  {
    if resources != [] {
      SelectedIsListed(resources[1..], id);
    }
  }

  /** Whose the pick is: the first resource that answers to the configured name; else the
      only one, for a command that may take it; else the one the user selects. There is none
      exactly when there is no such resource. */
  lemma PickIsWhose(configuredName: Option<string>, infer: bool, resources: seq<Resource>, selected: string)
    ensures var r := PickResource(configuredName, infer, resources, selected);
      if Asks(configuredName, infer, resources) then
        && (r.Ok? ==> r.value in resources && r.value.id == selected)
        && (r.Err? ==> forall k | 0 <= k < |resources| :: resources[k].id != selected)
        && (r.Err? && r.error.NoneAvailable? <==> resources == [])
      else
        && r.Ok? && r.value in resources
        && (Names(configuredName, r.value) || (infer && resources == [r.value]))
        && (Names(configuredName, r.value) ==>
              exists k | 0 <= k < |resources| :: resources[k] == r.value && forall j | 0 <= j < k :: !Names(configuredName, resources[j]))
  {
    if configuredName.Some? {
      FirstAnswers(resources, configuredName);
    }
    SelectedIsIt(resources, selected);
    if !Asks(configuredName, infer, resources) && !(configuredName.Some? && AnsweringTo(resources, configuredName.value).Some?) {
      assert resources == [resources[0]];
    }
  }

  lemma {:induction false} FirstAnswers(resources: seq<Resource>, name: Option<string>)
    requires name.Some?
    ensures AnsweringTo(resources, name.value).Some? ==>
      exists k | 0 <= k < |resources| :: resources[k] == AnsweringTo(resources, name.value).value && Names(name, resources[k])
        && forall j | 0 <= j < k :: !Names(name, resources[j])
    ensures AnsweringTo(resources, name.value).None? ==> forall j | 0 <= j < |resources| :: !Names(name, resources[j])
    decreases |resources|
  {
    if resources != [] && !Names(name, resources[0]) {
      FirstAnswers(resources[1..], name);
      assert forall k | 1 <= k < |resources| :: resources[k] == resources[1..][k - 1];
      if AnsweringTo(resources, name.value).Some? {
        var k :| 0 <= k < |resources[1..]| && resources[1..][k] == AnsweringTo(resources, name.value).value && Names(name, resources[1..][k])
          && forall j | 0 <= j < k :: !Names(name, resources[1..][j]);
        assert resources[k + 1] == resources[1..][k];
      }
    }
  }

  lemma {:induction false} SelectedIsIt(resources: seq<Resource>, id: string)
    ensures WithId(resources, id).Some? ==> WithId(resources, id).value in resources && WithId(resources, id).value.id == id
    ensures WithId(resources, id).None? ==> forall k | 0 <= k < |resources| :: resources[k].id != id
    decreases |resources|
  {
    if resources != [] {
      SelectedIsIt(resources[1..], id);
      assert forall k | 1 <= k < |resources| :: resources[k] == resources[1..][k - 1];
    }
  }

  /** Nothing is recorded needlessly: not where the configured name stands for the pick
      already, nor where there was nothing to name. */
  lemma RecordedOnlyWhenNeeded(configuredName: Option<string>, picked: Resource, listedCount: nat)
    ensures Recorded(true, configuredName, picked, listedCount) == Some(picked.name)
    ensures Recorded(false, configuredName, picked, listedCount) ==
      if Names(configuredName, picked) || (configuredName.None? && listedCount <= 1) then None else Some(picked.name)
  {
  }

  /** The next parse sees the resource picked if and only if its name was not spelled, or
      was spelled so that a listed resource answers to it. */
  lemma PickSurvives(wantedFlag: bool, spelled: Option<string>, known: Option<string>, infer: bool, resources: seq<Resource>, selected: string)
    requires PickResource(WalkName(spelled, known), infer, resources, selected).Ok?
    requires Apart(spelled, known, resources)
    ensures var picked := PickResource(WalkName(spelled, known), infer, resources, selected).value;
      && picked in resources
      && (ReachesParser(spelled, KnownAfter(wantedFlag, spelled, known, picked, |resources|), picked, resources) <==>
            spelled.None? || AnsweringTo(resources, spelled.value).Some?)
  {
    var picked := PickResource(WalkName(spelled, known), infer, resources, selected).value;
    SelectedIsListed(resources, selected);
    AnsweringToSpelled(spelled, resources);
    AnsweringToSpelled(known, resources);
    var k :| 0 <= k < |resources| && resources[k] == picked;
    Listed(resources, k);
  }

  lemma AnsweringToSpelled(name: Option<string>, resources: seq<Resource>)
    ensures name.Some? && AnsweringTo(resources, name.value).Some? ==>
      AnsweringTo(resources, name.value).value in resources && Names(name, AnsweringTo(resources, name.value).value)
  {
    if name.Some? {
      AnswersExactly(resources, name.value);
    }
  }

  /** A listed resource's name and id are answered to. */
  lemma {:induction false} Listed(resources: seq<Resource>, k: nat)
    requires k < |resources|
    ensures AnsweringTo(resources, resources[k].name).Some? && AnsweringTo(resources, resources[k].id).Some?
    decreases |resources|
  {
    if k > 0 {
      Listed(resources[1..], k - 1);
    }
  }

  /** With what is known then, the next walk picks the same resource and does not ask,
      whatever would be answered. */
  lemma PickedAgain(wantedFlag: bool, spelled: Option<string>, known: Option<string>, infer: bool, resources: seq<Resource>, selected: string, later: string)
    requires Unambiguous(resources) && PickResource(WalkName(spelled, known), infer, resources, selected).Ok?
    ensures var picked := PickResource(WalkName(spelled, known), infer, resources, selected).value;
      var next := WalkName(spelled, KnownAfter(wantedFlag, spelled, known, picked, |resources|));
      infer || next.Some? ==> PickResource(next, infer, resources, later) == Ok(picked) && !Asks(next, infer, resources)
  {
    var picked := PickResource(WalkName(spelled, known), infer, resources, selected).value;
    SelectedIsListed(resources, selected);
    AnsweringToSpelled(WalkName(spelled, known), resources);
    var k :| 0 <= k < |resources| && resources[k] == picked;
    AnswersExactly(resources, picked.name);
    AnswersExactly(resources, picked.id);
  }

  // ----- Matching a name ------------------------------------------------------

  datatype MatchError = AmbiguousName(matches: seq<Resource>)

  function Named(resources: seq<Resource>, fold: string -> string, name: string): seq<Resource> {
    if resources == [] then [] else (if fold(resources[0].name) == name then [resources[0]] else []) + Named(resources[1..], fold, name)
  }

  /** `matchNamedResource` (cli-capacitor/src/resolveNames.ts); `lower` is the case folding. */
  function MatchNamedResource(resources: seq<Resource>, name: string, lower: string -> string): Result<Option<Resource>, MatchError> {
    var exact := Named(resources, s => s, name);
    var insensitive := Named(resources, lower, lower(name));
    if |exact| == 1 then Ok(Some(exact[0]))
    else if |exact| > 1 then Err(AmbiguousName(exact))
    else if |insensitive| == 0 then Ok(None)
    else if |insensitive| > 1 then Err(AmbiguousName(insensitive))
    else Ok(Some(insensitive[0]))
  }

  /** Row `k` and no other has the name, as `fold` reads names. */
  ghost predicate Only(resources: seq<Resource>, fold: string -> string, name: string, k: nat) {
    k < |resources| && fold(resources[k].name) == name && forall j | 0 <= j < |resources| && j != k :: fold(resources[j].name) != name
  }

  ghost predicate Nobody(resources: seq<Resource>, fold: string -> string, name: string) {
    forall k | 0 <= k < |resources| :: fold(resources[k].name) != name
  }

  lemma {:induction false} NamedNone(resources: seq<Resource>, fold: string -> string, name: string)
    ensures |Named(resources, fold, name)| == 0 <==> Nobody(resources, fold, name)
    decreases |resources|
  {
    if resources != [] {
      NamedNone(resources[1..], fold, name);
      assert forall k | 1 <= k < |resources| :: resources[k] == resources[1..][k - 1];
    }
  }

  lemma {:induction false} NamedOne(resources: seq<Resource>, fold: string -> string, name: string) returns (k: nat)
    ensures |Named(resources, fold, name)| == 1 ==> Only(resources, fold, name, k) && Named(resources, fold, name)[0] == resources[k]
    decreases |resources|
  {
    k := 0;
    if resources != [] {
      NamedNone(resources[1..], fold, name);
      assert forall j | 1 <= j < |resources| :: resources[j] == resources[1..][j - 1];
      if fold(resources[0].name) != name {
        var j := NamedOne(resources[1..], fold, name);
        k := j + 1;
      }
    }
  }

  lemma {:induction false} OnlyNamed(resources: seq<Resource>, fold: string -> string, name: string, k: nat)
    requires Only(resources, fold, name, k)
    ensures Named(resources, fold, name) == [resources[k]]
    decreases |resources|
  {
    if k == 0 {
      NamedNone(resources[1..], fold, name);
    } else {
      OnlyNamed(resources[1..], fold, name, k - 1);
    }
  }

  /** Row `k` is what a name stands for: the only one of exactly that name, or, when there
      is none, the only one of that name in any case. */
  ghost predicate StandsFor(resources: seq<Resource>, name: string, lower: string -> string, k: nat) {
    Only(resources, s => s, name, k) || (Nobody(resources, s => s, name) && Only(resources, lower, lower(name), k))
  }

  /** A match is found exactly when the name stands for one resource, nothing is found
      exactly when no name is alike, and every other name is refused as ambiguous. */
  lemma MatchExactly(resources: seq<Resource>, name: string, lower: string -> string, x: Resource)
    ensures MatchNamedResource(resources, name, lower) == Ok(Some(x)) <==>
      exists k: nat :: StandsFor(resources, name, lower, k) && resources[k] == x
    ensures MatchNamedResource(resources, name, lower) == Ok(None) <==> Nobody(resources, lower, lower(name))
  {
    NamedNone(resources, s => s, name);
    NamedNone(resources, lower, lower(name));
    var a := NamedOne(resources, s => s, name);
    var b := NamedOne(resources, lower, lower(name));
    if k: nat :| StandsFor(resources, name, lower, k) && resources[k] == x {
      if Only(resources, s => s, name, k) {
        OnlyNamed(resources, s => s, name, k);
      } else {
        OnlyNamed(resources, lower, lower(name), k);
      }
    }
    if MatchNamedResource(resources, name, lower) == Ok(Some(x)) {
      assert StandsFor(resources, name, lower, if |Named(resources, s => s, name)| == 1 then a else b);
    }
  }
}
