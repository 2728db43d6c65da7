/** Files read a line at a time: `split(/\r?\n/u)` and the `join("\n")` it undoes. */
module TextLines {
  import opened Strings

  predicate Returns(piece: string) {
    piece != "" && piece[|piece| - 1] == '\r'
  }

  /** A carriage return before a line feed belongs to the line ending. */
  function Unreturned(pieces: seq<string>): seq<string> {
    if |pieces| <= 1 then pieces
    else [if Returns(pieces[0]) then pieces[0][..|pieces[0]| - 1] else pieces[0]] + Unreturned(pieces[1..])
  }

  function Lines(contents: string): seq<string> {
    Unreturned(Split(contents, '\n'))
  }

  lemma {:induction false} UnreturnedFixed(pieces: seq<string>)
    requires forall k | 0 <= k < |pieces| :: !Returns(pieces[k])
    ensures Unreturned(pieces) == pieces
    decreases |pieces|
  {
    if |pieces| > 1 {
      UnreturnedFixed(pieces[1..]);
      assert pieces == [pieces[0]] + pieces[1..];
    }
  }

  lemma SplitLines(ls: seq<string>)
    requires ls != [] && forall k | 0 <= k < |ls| :: '\n' !in ls[k]
    ensures Split(Join(ls, '\n') + "\n", '\n') == ls + [""]
  {
    var joined := Join(ls, '\n');
    SplitJoin(ls, '\n');
    assert joined + "\n" == joined + ['\n'] + "";
    SplitCat(joined + "\n", joined, "", '\n');
    assert Split("", '\n') == [""];
  }

  lemma LinesAre(contents: string, ls: seq<string>)
    requires Split(contents, '\n') == ls + [""] && forall k | 0 <= k < |ls| :: !Returns(ls[k])
    ensures Lines(contents) == ls + [""]
  {
    UnreturnedFixed(ls + [""]);
  }

  /** The ending of each line, a carriage return before its line feed or not. */
  function Ended(ls: seq<string>, crs: seq<bool>): seq<string>
    requires |crs| == |ls|
  {
    if ls == [] then [] else [ls[0] + (if crs[0] then "\r" else "")] + Ended(ls[1..], crs[1..])
  }

  lemma {:induction false} EndingsGo(ls: seq<string>, crs: seq<bool>)
    requires |crs| == |ls| && forall k | 0 <= k < |ls| :: '\n' !in ls[k] && !Returns(ls[k])
    ensures Unreturned(Ended(ls, crs) + [""]) == ls + [""]
    ensures |Ended(ls, crs)| == |ls| && forall k | 0 <= k < |ls| :: '\n' !in Ended(ls, crs)[k]
    decreases |ls|
  {
    if ls != [] {
      EndingsGo(ls[1..], crs[1..]);
      var first, rest := ls[0] + (if crs[0] then "\r" else ""), Ended(ls[1..], crs[1..]);
      assert [first] + rest + [""] == [first] + (rest + [""]);
      assert ([first] + (rest + [""]))[1..] == rest + [""];
      assert first[..|ls[0]|] == ls[0];
      assert [ls[0]] + (ls[1..] + [""]) == ls + [""];
      assert ls[0] + "" == ls[0];
    }
  }

  /** Whichever ending each line has, the lines are read. */
  lemma EitherEndingIsRead(ls: seq<string>, crs: seq<bool>)
    requires ls != [] && |crs| == |ls| && forall k | 0 <= k < |ls| :: '\n' !in ls[k] && !Returns(ls[k])
    ensures Lines(Join(Ended(ls, crs), '\n') + "\n") == ls + [""]
  {
    EndingsGo(ls, crs);
    SplitLines(Ended(ls, crs));
  }

  /** The lines printed are the lines read, and the empty rest after the last. */
  lemma LinesRead(ls: seq<string>)
    requires ls != [] && forall k | 0 <= k < |ls| :: '\n' !in ls[k] && !Returns(ls[k])
    ensures Lines(Join(ls, '\n') + "\n") == ls + [""]
  {
    SplitLines(ls);
    LinesAre(Join(ls, '\n') + "\n", ls);
  }
}
