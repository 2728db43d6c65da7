/** The two loops that walk a paged release listing: the picker's, which collects every
    releaseLabel (cli/src/flagPrompts.ts), and the resolver's, which stops at the first page that
    answers (cli-capacitor/src/resolveNames.ts). */
module Paging {
  import opened Wrappers

  /** One entry of a listing; a field that is no string is absent. */
  datatype Row = Row(id: Option<string>, releaseLabel: Option<string>, hint: string)

  datatype Pagination = Pagination(limit: int, offset: int, total: int)

  /** What a request for a page comes back as. */
  datatype Response = Malformed | Page(releases: seq<Row>, pagination: Option<Pagination>)

  datatype Choice = Choice(hint: string, title: string, value: string)

  datatype PagingError =
    | MalformedResponse
    | Unreadable
    | DidNotAdvance
    | Ambiguous(ids: seq<string>)
    | NotFound

  /** No page promises more than `bound` rows. */
  ghost predicate Within(serve: int -> Response, bound: int) {
    forall offset :: serve(offset).Page? && serve(offset).pagination.Some? ==> serve(offset).pagination.value.total <= bound
  }

  /** The totals a server sends stay below some bound. */
  ghost predicate Bounded(serve: int -> Response) {
    exists bound: int :: Within(serve, bound)
  }

  ghost function BoundOf(serve: int -> Response): int
    requires Bounded(serve)
  {
    var most: int :| Within(serve, most);
    most
  }

  // ----- The picker -----------------------------------------------------------

  function ChoiceOf(row: Row): seq<Choice> {
    if row.releaseLabel.None? then [] else [Choice(row.hint, row.releaseLabel.value, row.releaseLabel.value)]
  }

  function Labelled(releases: seq<Row>): seq<Choice> {
    if releases == [] then [] else ChoiceOf(releases[0]) + Labelled(releases[1..])
  }

  /** Where the next page starts, unless this was the last one. */
  function Next(page: Response, offset: int): Option<int>
    requires page.Page?
  {
    if page.pagination.None? then None
    else
      var p := page.pagination.value;
      if p.offset + p.limit >= p.total || p.offset + p.limit <= offset then None else Some(p.offset + p.limit)
  }

  /** Every row the walk sees from `offset` on. */
  ghost function Seen(serve: int -> Response, offset: int): Option<seq<Row>>
    requires Bounded(serve)
    decreases BoundOf(serve) - offset
  {
    var page := serve(offset);
    if page.Malformed? then None
    else match Next(page, offset)
      case None => Some(page.releases)
      case Some(next) =>
        match Seen(serve, next)
        case None => None
        case Some(rest) => Some(page.releases + rest)
  }

  ghost function Choices(serve: int -> Response): Result<seq<Choice>, PagingError>
    requires Bounded(serve)
  {
    match Seen(serve, 0)
    case None => Err(MalformedResponse)
    case Some(rows) => if Labelled(rows) == [] && rows != [] then Err(Unreadable) else Ok(Labelled(rows))
  }

  lemma {:induction false} LabelledCat(a: seq<Row>, b: seq<Row>)
    ensures Labelled(a + b) == Labelled(a) + Labelled(b)
    decreases |a|
  {
    if a == [] {
      assert a + b == b;
    } else {
      hide ChoiceOf;
      assert (a + b)[0] == a[0] && (a + b)[1..] == a[1..] + b;
      LabelledCat(a[1..], b);
    }
  }

  function After(seen: seq<Row>, rest: Option<seq<Row>>): Option<seq<Row>> {
    match rest case None => None case Some(rows) => Some(seen + rows)
  }

  lemma AfterNothing(rest: Option<seq<Row>>)
    ensures After([], rest) == rest
  {
    if rest.Some? {
      assert [] + rest.value == rest.value;
    }
  }

  /** The walk ends against every server whose totals stay below some bound, however it
      pages, and whatever it sends. */
  method ListReleaseChoices(serve: int -> Response) returns (r: Result<seq<Choice>, PagingError>)
    requires Bounded(serve)
    ensures r == Choices(serve)
  {
    var labels: seq<Choice> := [];
    var rows := 0;
    var offset := 0;
    ghost var seen: seq<Row> := [];
    AfterNothing(Seen(serve, 0));
    while true
      invariant labels == Labelled(seen) && rows == |seen|
      invariant Seen(serve, 0) == After(seen, Seen(serve, offset))
      decreases BoundOf(serve) - offset
    {
      var response := serve(offset);
      if response.Malformed? {
        return Err(MalformedResponse);
      }
      rows := rows + |response.releases|;
      LabelledCat(seen, response.releases);
      labels := labels + Labelled(response.releases);
      Regroup(serve, offset, seen);
      seen := seen + response.releases;
      if response.pagination.None? {
        break;
      }
      var nextOffset := response.pagination.value.offset + response.pagination.value.limit;
      if nextOffset >= response.pagination.value.total || nextOffset <= offset {
        break;
      }
      offset := nextOffset;
    }
    if |labels| == 0 && rows > 0 {
      return Err(Unreadable);
    }
    return Ok(labels);
  }

  lemma Regroup(serve: int -> Response, offset: int, seen: seq<Row>)
    requires Bounded(serve) && serve(offset).Page?
    ensures var page := serve(offset);
      After(seen, Seen(serve, offset)) ==
      match Next(page, offset)
      case None => Some(seen + page.releases)
      case Some(next) => After(seen + page.releases, Seen(serve, next))
  {
    var page := serve(offset);
    if Next(page, offset).Some? && Seen(serve, Next(page, offset).value).Some? {
      var rest := Seen(serve, Next(page, offset).value).value;
      assert seen + (page.releases + rest) == seen + page.releases + rest;
    }
  }

  // ----- The resolver ---------------------------------------------------------

  /** Every row must be readable, and the page must say where it stands. */
  predicate Wellformed(page: Response) {
    page.Page? && page.pagination.Some? && forall k | 0 <= k < |page.releases| :: page.releases[k].id.Some? && page.releases[k].releaseLabel.Some?
  }

  function Matches(releases: seq<Row>, releaseLabel: string): seq<string> {
    if releases == [] then []
    else
      var first := releases[0];
      (if first.releaseLabel == Some(releaseLabel) && first.id.Some? then [first.id.value] else []) + Matches(releases[1..], releaseLabel)
  }

  ghost function Resolved(serve: int -> Response, releaseLabel: string, offset: int): Result<string, PagingError>
    requires Bounded(serve)
    decreases BoundOf(serve) - offset
  {
    var page := serve(offset);
    if !Wellformed(page) then Err(MalformedResponse)
    else
      var ids := Matches(page.releases, releaseLabel);
      var next := page.pagination.value.offset + page.pagination.value.limit;
      if |ids| == 1 then Ok(ids[0])
      else if |ids| > 1 then Err(Ambiguous(ids))
      else if next >= page.pagination.value.total then Err(NotFound)
      else if next <= offset then Err(DidNotAdvance)
      else Resolved(serve, releaseLabel, next)
  }

  method ParseReleasePage(response: Response) returns (ok: bool)
    ensures ok <==> Wellformed(response)
  {
    if response.Malformed? || response.pagination.None? {
      return false;
    }
    for k := 0 to |response.releases|
      invariant forall j | 0 <= j < k :: response.releases[j].id.Some? && response.releases[j].releaseLabel.Some?
    {
      if response.releases[k].id.None? || response.releases[k].releaseLabel.None? {
        return false;
      }
    }
    return true;
  }

  method ResolveReleaseId(serve: int -> Response, releaseLabel: string) returns (r: Result<string, PagingError>)
    requires Bounded(serve)
    ensures r == Resolved(serve, releaseLabel, 0)
  {
    var offset := 0;
    while true
      invariant Resolved(serve, releaseLabel, 0) == Resolved(serve, releaseLabel, offset)
      decreases BoundOf(serve) - offset
    {
      var page := serve(offset);
      var readable := ParseReleasePage(page);
      if !readable {
        return Err(MalformedResponse);
      }
      var matches := Matches(page.releases, releaseLabel);
      if |matches| == 1 {
        return Ok(matches[0]);
      }
      if |matches| > 1 {
        return Err(Ambiguous(matches));
      }
      var nextOffset := page.pagination.value.offset + page.pagination.value.limit;
      if nextOffset >= page.pagination.value.total {
        break;
      }
      if nextOffset <= offset {
        return Err(DidNotAdvance);
      }
      offset := nextOffset;
    }
    return Err(NotFound);
  }

  // ----- A server that pages one list -----------------------------------------

  function Min(a: int, b: int): int {
    if a < b then a else b
  }

  /** The page of `rows` at `offset`, as long as the server likes. */
  function PageOf(rows: seq<Row>, offset: nat, limit: int): Response
    requires limit >= 1
  {
    Page(rows[Min(offset, |rows|)..Min(offset + limit, |rows|)], Some(Pagination(limit, offset, |rows|)))
  }

  ghost predicate Pages(serve: int -> Response, rows: seq<Row>, limit: int -> int) {
    forall offset: nat :: limit(offset) >= 1 && serve(offset) == PageOf(rows, offset, limit(offset))
  }

  lemma {:induction false} SeesTheRest(serve: int -> Response, rows: seq<Row>, limit: int -> int, offset: nat)
    requires Bounded(serve) && Pages(serve, rows, limit) && offset <= |rows|
    ensures Seen(serve, offset) == Some(rows[offset..])
    decreases |rows| - offset
  {
    var next := offset + limit(offset);
    assert serve(offset) == PageOf(rows, offset, limit(offset));
    if next < |rows| {
      SeesTheRest(serve, rows, limit, next);
      assert rows[offset..] == rows[offset..next] + rows[next..];
    } else {
      assert rows[offset..|rows|] == rows[offset..];
    }
  }

  /** The picker shows every label, once and in order, whatever page sizes the server
      chooses; it gives up only on a listing none of whose rows has a label. */
  lemma PickerIsComplete(serve: int -> Response, rows: seq<Row>, limit: int -> int)
    requires Bounded(serve) && Pages(serve, rows, limit)
    ensures Choices(serve) == if Labelled(rows) == [] && rows != [] then Err(Unreadable) else Ok(Labelled(rows))
    ensures (forall k | 0 <= k < |rows| :: rows[k].releaseLabel.Some?) ==>
      && Choices(serve).Ok? && |Choices(serve).value| == |rows|
      && forall k | 0 <= k < |rows| ::
           var choice := Choices(serve).value[k];
           choice.value == choice.title == rows[k].releaseLabel.value && choice.hint == rows[k].hint
  {
    SeesTheRest(serve, rows, limit, 0);
    assert rows[0..] == rows;
    if forall k | 0 <= k < |rows| :: rows[k].releaseLabel.Some? {
      AllLabelled(rows);
    }
  }

  lemma {:induction false} AllLabelled(rows: seq<Row>)
    requires forall k | 0 <= k < |rows| :: rows[k].releaseLabel.Some?
    ensures |Labelled(rows)| == |rows|
    ensures forall k | 0 <= k < |rows| ::
      Labelled(rows)[k] == Choice(rows[k].hint, rows[k].releaseLabel.value, rows[k].releaseLabel.value)
    decreases |rows|
  {
    if rows != [] {
      AllLabelled(rows[1..]);
    }
  }

  // ----- What the resolver answers --------------------------------------------

  ghost predicate Readable(rows: seq<Row>) {
    forall k | 0 <= k < |rows| :: rows[k].id.Some? && rows[k].releaseLabel.Some?
  }

  /** The first row with the label. */
  function FirstAt(rows: seq<Row>, releaseLabel: string, from: nat): (k: nat)
    requires from <= |rows|
    ensures from <= k <= |rows|
    ensures k < |rows| ==> rows[k].releaseLabel == Some(releaseLabel)
    ensures forall j | from <= j < k :: rows[j].releaseLabel != Some(releaseLabel)
    decreases |rows| - from
  {
    if from == |rows| || rows[from].releaseLabel == Some(releaseLabel) then from else FirstAt(rows, releaseLabel, from + 1)
  }

  /** Where the page that shows row `k` ends. */
  ghost function PageEnd(limit: int -> int, offset: nat, k: nat): int
    requires (forall o: nat :: limit(o) >= 1) && offset <= k
    decreases k - offset
  {
    if k < offset + limit(offset) then offset + limit(offset) else PageEnd(limit, offset + limit(offset), k)
  }

  lemma {:induction false} MatchesNone(rows: seq<Row>, releaseLabel: string)
    requires forall k | 0 <= k < |rows| :: rows[k].releaseLabel != Some(releaseLabel)
    ensures Matches(rows, releaseLabel) == []
    decreases |rows|
  {
    if rows != [] {
      MatchesNone(rows[1..], releaseLabel);
    }
  }

  lemma {:induction false} MatchesFrom(rows: seq<Row>, releaseLabel: string, k: nat)
    requires Readable(rows) && k < |rows| && rows[k].releaseLabel == Some(releaseLabel)
    requires forall j | 0 <= j < k :: rows[j].releaseLabel != Some(releaseLabel)
    ensures Matches(rows, releaseLabel) == [rows[k].id.value] + Matches(rows[k + 1..], releaseLabel)
    decreases |rows|
  {
    if k > 0 {
      MatchesFrom(rows[1..], releaseLabel, k - 1);
      assert rows[1..][k..] == rows[k + 1..];
    }
  }

  lemma {:induction false} MatchesSome(rows: seq<Row>, releaseLabel: string)
    requires Readable(rows)
    ensures Matches(rows, releaseLabel) == [] <==> forall k | 0 <= k < |rows| :: rows[k].releaseLabel != Some(releaseLabel)
    decreases |rows|
  {
    if rows != [] {
      MatchesSome(rows[1..], releaseLabel);
      assert forall k | 1 <= k < |rows| :: rows[k] == rows[1..][k - 1];
    }
  }

  lemma PageMatches(rows: seq<Row>, releaseLabel: string, offset: nat, end: nat, k: nat)
    requires Readable(rows) && offset <= k < end <= |rows| && FirstAt(rows, releaseLabel, offset) == k
    ensures var ids := Matches(rows[offset..end], releaseLabel);
      && ids != [] && ids[0] == rows[k].id.value
      && (|ids| > 1 <==> exists j | k < j < end :: rows[j].releaseLabel == Some(releaseLabel))
  {
    hide Matches, FirstAt;
    var page, rest := rows[offset..end], rows[k + 1..end];
    assert page[k - offset + 1..] == rest;
    MatchesFrom(page, releaseLabel, k - offset);
    MatchesWithin(rows, releaseLabel, k + 1, end);
  }

  lemma MatchesWithin(rows: seq<Row>, releaseLabel: string, from: nat, end: nat)
    requires Readable(rows) && from <= end <= |rows|
    ensures Matches(rows[from..end], releaseLabel) != [] <==> exists j | from <= j < end :: rows[j].releaseLabel == Some(releaseLabel)
  {
    hide Matches;
    var rest := rows[from..end];
    MatchesSome(rest, releaseLabel);
    if i: nat :| i < |rest| && rest[i].releaseLabel == Some(releaseLabel) {
      assert rows[from + i].releaseLabel == Some(releaseLabel);
    }
    if j :| from <= j < end && rows[j].releaseLabel == Some(releaseLabel) {
      assert rest[j - from].releaseLabel == Some(releaseLabel);
    }
  }

  lemma {:induction false} ResolvesFrom(serve: int -> Response, rows: seq<Row>, limit: int -> int, releaseLabel: string,
                                        offset: nat)
    requires Bounded(serve) && Pages(serve, rows, limit) && Readable(rows) && offset <= |rows|
    ensures var k := FirstAt(rows, releaseLabel, offset);
      var r := Resolved(serve, releaseLabel, offset);
      if k == |rows| then r == Err(NotFound)
      else if exists j | k < j < Min(PageEnd(limit, offset, k), |rows|) :: rows[j].releaseLabel == Some(releaseLabel)
        then r.Err? && r.error.Ambiguous?
      else r == Ok(rows[k].id.value)
    decreases |rows| - offset
  {
    hide Resolved, Matches, PageOf, Wellformed;
    var k := FirstAt(rows, releaseLabel, offset);
    var end := Min(offset + limit(offset), |rows|);
    var page := rows[offset..end];
    ResolveRound(serve, rows, limit, releaseLabel, offset);
    assert forall j | 0 <= j < |page| :: page[j] == rows[offset + j];
    if k < end {
      PageMatches(rows, releaseLabel, offset, end, k);
    } else {
      MatchesNone(page, releaseLabel);
      if offset + limit(offset) < |rows| {
        FirstLater(rows, releaseLabel, offset, end);
        ResolvesFrom(serve, rows, limit, releaseLabel, end);
      }
    }
  }

  /** One round of the loop against such a server. */
  lemma ResolveRound(serve: int -> Response, rows: seq<Row>, limit: int -> int, releaseLabel: string, offset: nat)
    requires Bounded(serve) && Pages(serve, rows, limit) && Readable(rows) && offset <= |rows|
    ensures var end := Min(offset + limit(offset), |rows|);
      var ids := Matches(rows[offset..end], releaseLabel);
      && offset <= end <= |rows|
      && Resolved(serve, releaseLabel, offset) ==
         if |ids| == 1 then Ok(ids[0])
         else if |ids| > 1 then Err(Ambiguous(ids))
         else if offset + limit(offset) >= |rows| then Err(NotFound)
         else Resolved(serve, releaseLabel, offset + limit(offset))
  {
    hide Matches;
    assert serve(offset) == PageOf(rows, offset, limit(offset));
  }

  lemma {:induction false} FirstLater(rows: seq<Row>, releaseLabel: string, from: nat, later: nat)
    requires from <= |rows| && from <= later <= FirstAt(rows, releaseLabel, from)
    ensures later <= |rows| && FirstAt(rows, releaseLabel, later) == FirstAt(rows, releaseLabel, from)
    decreases later - from
  {
    if from < later {
      FirstLater(rows, releaseLabel, from + 1, later);
    }
  }

  /** The id of the first release with the label, none when there is none, and a complaint
      exactly when the label comes again on that release's own page. */
  lemma ResolverExactly(serve: int -> Response, rows: seq<Row>, limit: int -> int, releaseLabel: string)
    requires Bounded(serve) && Pages(serve, rows, limit) && Readable(rows)
    ensures var k := FirstAt(rows, releaseLabel, 0);
      var r := Resolved(serve, releaseLabel, 0);
      if k == |rows| then r == Err(NotFound)
      else if exists j | k < j < Min(PageEnd(limit, 0, k), |rows|) :: rows[j].releaseLabel == Some(releaseLabel)
        then r.Err? && r.error.Ambiguous?
      else r == Ok(rows[k].id.value)
  {
    ResolvesFrom(serve, rows, limit, releaseLabel, 0);
  }

  /** With labels that name one release each, the resolver finds exactly that release,
      whatever page sizes the server chooses. */
  lemma ResolverFindsUnique(serve: int -> Response, rows: seq<Row>, limit: int -> int, releaseLabel: string)
    requires Bounded(serve) && Pages(serve, rows, limit) && Readable(rows)
    requires forall i, j | 0 <= i < j < |rows| :: rows[i].releaseLabel != rows[j].releaseLabel
    ensures forall k | 0 <= k < |rows| && rows[k].releaseLabel == Some(releaseLabel) :: Resolved(serve, releaseLabel, 0) == Ok(rows[k].id.value)
    ensures Resolved(serve, releaseLabel, 0).Ok? <==> exists k | 0 <= k < |rows| :: rows[k].releaseLabel == Some(releaseLabel)
  {
    ResolverExactly(serve, rows, limit, releaseLabel);
    var k := FirstAt(rows, releaseLabel, 0);
    assert k < |rows| ==> forall j | 0 <= j < |rows| && rows[j].releaseLabel == Some(releaseLabel) :: j == k;
  }

  /** A server that pages `rows` by `size`. */
  function Serving(rows: seq<Row>, size: nat): int -> Response
    requires size >= 1
  {
    offset => if offset >= 0 then PageOf(rows, offset, size) else Malformed
  }

  lemma ServingPages(rows: seq<Row>, size: nat)
    requires size >= 1
    ensures Bounded(Serving(rows, size)) && Pages(Serving(rows, size), rows, _ => size)
  {
    assert Within(Serving(rows, size), |rows|);
  }

  /** Two releases of one label: on one page the resolver complains, on two pages it takes
      the first without a word. */
  lemma RepeatAcrossPages(releaseLabel: string, first: string, second: string)
    ensures var rows := [Row(Some(first), Some(releaseLabel), ""), Row(Some(second), Some(releaseLabel), "")];
      && Bounded(Serving(rows, 1)) && Bounded(Serving(rows, 2))
      && Resolved(Serving(rows, 1), releaseLabel, 0) == Ok(first)
      && Resolved(Serving(rows, 2), releaseLabel, 0).Err? && Resolved(Serving(rows, 2), releaseLabel, 0).error.Ambiguous?
  {
    hide Resolved, Serving, Pages, Matches;
    var rows := [Row(Some(first), Some(releaseLabel), ""), Row(Some(second), Some(releaseLabel), "")];
    ServingPages(rows, 1);
    ServingPages(rows, 2);
    ResolverExactly(Serving(rows, 1), rows, _ => 1, releaseLabel);
    ResolverExactly(Serving(rows, 2), rows, _ => 2, releaseLabel);
    assert PageEnd(_ => 1, 0, 0) == 1 && PageEnd(_ => 2, 0, 0) == 2;
    assert rows[1].releaseLabel == Some(releaseLabel);
  }
}
