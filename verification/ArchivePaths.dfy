/** Archive entry paths (cli/src/packageHash.ts, `normalizeArchivePath`). */
module ArchivePaths {
  import opened Wrappers
  import opened Seqs
  import opened Strings

  datatype PathError = MustBeRelative | MustNotBeEmpty | MustNotClimb

  function ToPosix(s: string): (t: string)
    ensures |t| == |s| && '\\' !in t
  {
    if s == [] then "" else [if s[0] == '\\' then '/' else s[0]] + ToPosix(s[1..])
  }

  // ----- `path.posix.normalize` -----------------------------------------------

  /** The segments kept so far, and one more: `.` and empty ones vanish, `..` takes the
      last name back, or stays if there is none to take. */
  function Push(kept: seq<string>, segment: string, mayClimb: bool): seq<string> {
    if segment == "" || segment == "." then kept
    else if segment != ".." then kept + [segment]
    else if kept != [] && kept[|kept| - 1] != ".." then kept[..|kept| - 1]
    else if mayClimb then kept + [segment]
    else kept
  }

  function Reduce(kept: seq<string>, segments: seq<string>, mayClimb: bool): seq<string>
    decreases |segments|
  {
    if segments == [] then kept else Reduce(Push(kept, segments[0], mayClimb), segments[1..], mayClimb)
  }

  function PosixNormalize(path: string): string {
    if path == "" then "."
    else
      var absolute := path[0] == '/';
      var trailing := path[|path| - 1] == '/';
      var inner := Join(Reduce([], Split(path, '/'), !absolute), '/');
      if inner == "" then (if absolute then "/" else if trailing then "./" else ".")
      else (if absolute then "/" else "") + inner + (if trailing then "/" else "")
  }

  // ----- The entry path -------------------------------------------------------

  /** A normalised path, `None` for an entry the package does not count, or the refusal. */
  function NormalizeArchivePath(archivePath: string): Result<Option<string>, PathError> {
    var posixPath := ToPosix(archivePath);
    if posixPath != "" && posixPath[|posixPath| - 1] == '/' then Ok(None)
    else if StartsWith(posixPath, "/") then Err(MustBeRelative)
    else Checked(PosixNormalize(posixPath))
  }

  function Checked(normalized: string): Result<Option<string>, PathError> {
    if normalized == "." || normalized == "" then Err(MustNotBeEmpty)
    else if normalized == ".." || StartsWith(normalized, "../") || Includes(normalized, "/../") then Err(MustNotClimb)
    else if normalized == "__MACOSX" || StartsWith(normalized, "__MACOSX/") then Ok(None)
    else if ".DS_Store" in Split(normalized, '/') then Ok(None)
    else Ok(Some(normalized))
  }

  // ----- Where a path leads ---------------------------------------------------

  /** The directory reached from `base`, or `None` once a `..` leaves the root. */
  function Resolve(base: seq<string>, segments: seq<string>): Option<seq<string>>
    decreases |segments|
  {
    if segments == [] then Some(base)
    else if segments[0] == "" || segments[0] == "." then Resolve(base, segments[1..])
    else if segments[0] != ".." then Resolve(base + [segments[0]], segments[1..])
    else if base == [] then None
    else Resolve(base[..|base| - 1], segments[1..])
  }

  predicate IsName(segment: string) {
    segment != "" && segment != "." && segment != ".." && '/' !in segment
  }

  predicate AllNames(segments: seq<string>) {
    forall k | 0 <= k < |segments| :: IsName(segments[k])
  }

  /** `..` only in front, and nothing that says nothing. */
  predicate Normal(segments: seq<string>) {
    && (forall k | 0 <= k < |segments| :: segments[k] != "" && segments[k] != "." && '/' !in segments[k])
    && (forall k | 0 < k < |segments| :: segments[k] == ".." ==> segments[k - 1] == "..")
  }

  lemma {:induction false} ResolveCat(base: seq<string>, a: seq<string>, b: seq<string>)
    ensures Resolve(base, a + b) == match Resolve(base, a) case None => None case Some(mid) => Resolve(mid, b)
    decreases |a|
  {
    if a == [] {
      assert a + b == b;
    } else {
      assert (a + b)[1..] == a[1..] + b;
      if a[0] == "" || a[0] == "." {
        ResolveCat(base, a[1..], b);
      } else if a[0] != ".." {
        ResolveCat(base + [a[0]], a[1..], b);
      } else if base != [] {
        ResolveCat(base[..|base| - 1], a[1..], b);
      }
    }
  }

  lemma {:induction false} ReduceNormal(kept: seq<string>, segments: seq<string>)
    requires Normal(kept) && forall k | 0 <= k < |segments| :: '/' !in segments[k]
    ensures Normal(Reduce(kept, segments, true))
    decreases |segments|
  {
    if segments != [] {
      ReduceNormal(Push(kept, segments[0], true), segments[1..]);
    }
  }

  /** Pushing one segment leads where that segment leads, from every base. */
  lemma PushResolves(base: seq<string>, kept: seq<string>, segment: string)
    requires Normal(kept)
    ensures Resolve(base, Push(kept, segment, true)) == Resolve(base, kept + [segment])
  {
    ResolveCat(base, kept, [segment]);
    if segment == ".." && kept != [] && kept[|kept| - 1] != ".." {
      var front, last := kept[..|kept| - 1], kept[|kept| - 1];
      assert kept == front + [last];
      ResolveCat(base, front, [last]);
      match Resolve(base, front) {
        case None =>
        case Some(mid) => assert (mid + [last])[..|mid|] == mid;
      }
    }
  }

  /** Where two beginnings lead alike, so do their continuations. */
  lemma ResolveAlike(base: seq<string>, a: seq<string>, b: seq<string>, rest: seq<string>)
    requires Resolve(base, a) == Resolve(base, b)
    ensures Resolve(base, a + rest) == Resolve(base, b + rest)
  {
    ResolveCat(base, a, rest);
    ResolveCat(base, b, rest);
  }

  lemma {:induction false} ReduceResolves(base: seq<string>, kept: seq<string>, segments: seq<string>)
    requires Normal(kept) && forall k | 0 <= k < |segments| :: '/' !in segments[k]
    ensures Resolve(base, Reduce(kept, segments, true)) == Resolve(base, kept + segments)
    decreases |segments|
  {
    if segments == [] {
      assert kept + segments == kept;
    } else {
      var next, rest := Push(kept, segments[0], true), segments[1..];
      ReduceResolves(base, next, rest);
      PushResolves(base, kept, segments[0]);
      ResolveAlike(base, next, kept + [segments[0]], rest);
      HeadTail(segments);
      Associate(kept, [segments[0]], rest);
    }
  }

  lemma {:induction false} NamesResolve(base: seq<string>, names: seq<string>)
    requires AllNames(names)
    ensures Resolve(base, names) == Some(base + names)
    decreases |names|
  {
    if names == [] {
      assert base + names == base;
    } else {
      NamesResolve(base + [names[0]], names[1..]);
      assert base + [names[0]] + names[1..] == base + names;
    }
  }

  /** A normal list of segments either climbs at once or is all names. */
  lemma NormalSplits(segments: seq<string>)
    requires Normal(segments)
    ensures if segments != [] && segments[0] == ".." then Resolve([], segments).None? else AllNames(segments)
  {
    if segments == [] || segments[0] != ".." {
      forall k | 0 <= k < |segments| ensures IsName(segments[k]) {
        NeverClimbs(segments, k);
      }
    }
  }

  lemma {:induction false} NeverClimbs(segments: seq<string>, k: nat)
    requires Normal(segments) && k < |segments| && segments[0] != ".."
    ensures segments[k] != ".."
    decreases k
  {
    if k > 0 {
      NeverClimbs(segments, k - 1);
    }
  }

  // ----- What the refusals look at --------------------------------------------

  /** Text starting with a segment and a slash, read as segments. */
  lemma StartsAsText(segments: seq<string>, first: string)
    requires segments != [] && (forall k | 0 <= k < |segments| :: '/' !in segments[k]) && '/' !in first
    ensures var text := Join(segments, '/');
      (text == first || StartsWith(text, first + ['/'])) <==> segments[0] == first
  {
    var text := Join(segments, '/');
    SplitJoin(segments, '/');
    if text == first {
      WholeSplit(first);
    } else if StartsWith(text, first + ['/']) {
      PrefixSplit(text, first);
    }
    if |segments| > 1 {
      assert text == segments[0] + ['/'] + Join(segments[1..], '/');
    }
  }

  lemma WholeSplit(text: string)
    requires '/' !in text
    ensures Split(text, '/') == [text]
  {
  }

  lemma PrefixSplit(text: string, first: string)
    requires '/' !in first && StartsWith(text, first + ['/'])
    ensures Split(text, '/')[0] == first
  {
    var rest := text[|first| + 1..];
    assert text == first + ['/'] + rest;
    SplitFirst(text, first, rest, '/');
  }

  lemma InsideSplit(text: string, before: string, inner: string, after: string) returns (k: nat)
    requires text == before + ['/'] + inner && inner == ".." + ['/'] + after
    ensures k < |Split(text, '/')| && Split(text, '/')[k] == ".."
  {
    SplitCat(text, before, inner, '/');
    SplitFirst(inner, "..", after, '/');
    k := |Split(before, '/')|;
  }

  lemma CutAtClimb(text: string) returns (before: string, inner: string, after: string)
    requires Includes(text, "/../")
    ensures text == before + ['/'] + inner && inner == ".." + ['/'] + after
  {
    var i :| 0 <= i <= |text| && StartsWith(text[i..], "/../");
    var four := text[i..][..4];
    assert four[0] == '/' && four[1] == '.' && four[2] == '.' && four[3] == '/';
    before, inner, after := text[..i], text[i + 1..], text[i + 4..];
  }

  lemma InsideAsText(segments: seq<string>)
    requires Normal(segments) && segments != [] && Includes(Join(segments, '/'), "/../")
    ensures segments[0] == ".."
  {
    var text := Join(segments, '/');
    SplitJoin(segments, '/');
    var before, inner, after := CutAtClimb(text);
    var k := InsideSplit(text, before, inner, after);
    if segments[0] != ".." {
      NeverClimbs(segments, k);
    }
  }

  // ----- Exactly what is accepted ---------------------------------------------

  /** The path's meaning, without normalising anything: directories are skipped, and of the
      rest the location reached from the archive's root decides. */
  function Meaning(archivePath: string): Result<Option<seq<string>>, PathError> {
    var posixPath := ToPosix(archivePath);
    if posixPath != "" && posixPath[|posixPath| - 1] == '/' then Ok(None)
    else if posixPath != "" && posixPath[0] == '/' then Err(MustBeRelative)
    else
      match Resolve([], Split(posixPath, '/'))
      case None => Err(MustNotClimb)
      case Some(names) =>
        if names == [] then Err(MustNotBeEmpty)
        else if names[0] == "__MACOSX" || ".DS_Store" in names then Ok(None)
        else Ok(Some(names))
  }

  lemma KeptDecides(kept: seq<string>)
    requires Normal(kept) && kept != []
    ensures Join(kept, '/') != "" && Join(kept, '/') != "." && Split(Join(kept, '/'), '/') == kept
    ensures kept[0] != ".." ==> AllNames(kept) && Resolve([], kept) == Some(kept)
    ensures var text := Join(kept, '/');
      && ((text == ".." || StartsWith(text, "../") || Includes(text, "/../")) <==> kept[0] == "..")
      && ((text == "__MACOSX" || StartsWith(text, "__MACOSX/")) <==> kept[0] == "__MACOSX")
  {
    SplitJoin(kept, '/');
    StartsAsText(kept, "..");
    StartsAsText(kept, "__MACOSX");
    assert ".." + ['/'] == "../" && "__MACOSX" + ['/'] == "__MACOSX/";
    if Includes(Join(kept, '/'), "/../") {
      InsideAsText(kept);
    }
    NormalSplits(kept);
    if kept[0] != ".." {
      NamesResolve([], kept);
      assert [] + kept == kept;
    }
    assert Split("", '/') == [""] && Split(".", '/') == ["."];
  }

  lemma RelativeMeans(path: string)
    requires path != "" && path[0] != '/' && path[|path| - 1] != '/'
    ensures var kept := Reduce([], Split(path, '/'), true);
      && PosixNormalize(path) == (if kept == [] then "." else Join(kept, '/'))
      && Normal(kept)
      && (match Resolve([], Split(path, '/'))
          case None => kept != [] && kept[0] == ".."
          case Some(names) => names == kept && AllNames(kept))
      && (kept != [] ==> Split(Join(kept, '/'), '/') == kept)
  {
    var pieces := Split(path, '/');
    var kept := Reduce([], pieces, true);
    ReduceNormal([], pieces);
    ReduceResolves([], [], pieces);
    assert [] + pieces == pieces;
    NormalSplits(kept);
    if kept != [] {
      KeptDecides(kept);
    }
  }

  /** The checks on the normalised text, read off its segments. */
  function Accept(kept: seq<string>): Result<Option<string>, PathError>
    requires kept != []
  {
    if kept[0] == ".." then Err(MustNotClimb)
    else if kept[0] == "__MACOSX" || ".DS_Store" in kept then Ok(None)
    else Ok(Some(Join(kept, '/')))
  }

  lemma KeptAccepted(kept: seq<string>)
    requires Normal(kept)
    ensures kept != [] ==> Accept(kept) == Checked(Join(kept, '/'))
    ensures Checked(".") == Err(MustNotBeEmpty)
  {
    if kept != [] {
      KeptDecides(kept);
    }
  }

  /** Normalising accepts, skips and refuses exactly by that meaning, and an accepted
      path spells the location out. */
  lemma NormalizeMeans(archivePath: string)
    ensures match Meaning(archivePath)
      case Err(e) => NormalizeArchivePath(archivePath) == Err(e)
      case Ok(None) => NormalizeArchivePath(archivePath) == Ok(None)
      case Ok(Some(names)) =>
        && AllNames(names) && names != []
        && NormalizeArchivePath(archivePath) == Ok(Some(Join(names, '/')))
  {
    var posixPath := ToPosix(archivePath);
    if posixPath == "" {
      assert Split(posixPath, '/') == [""];
      assert Resolve([], [""]) == Resolve([], [""][1..]);
    } else if posixPath[0] == '/' {
      assert posixPath[..1] == "/";
    } else if posixPath[|posixPath| - 1] != '/' {
      RelativeMeans(posixPath);
      KeptAccepted(Reduce([], Split(posixPath, '/'), true));
    }
  }

  predicate Clean(segments: seq<string>) {
    forall k | 0 <= k < |segments| :: '\\' !in segments[k]
  }

  lemma {:induction false} ReduceClean(kept: seq<string>, segments: seq<string>)
    requires Clean(kept) && Clean(segments)
    ensures Clean(Reduce(kept, segments, true))
    decreases |segments|
  {
    if segments != [] {
      ReduceClean(Push(kept, segments[0], true), segments[1..]);
    }
  }

  lemma {:induction false} JoinClean(segments: seq<string>)
    requires Clean(segments)
    ensures '\\' !in Join(segments, '/')
    decreases |segments|
  {
    if |segments| > 1 {
      JoinClean(segments[1..]);
    }
  }

  lemma {:induction false} SplitClean(text: string)
    requires '\\' !in text
    ensures Clean(Split(text, '/'))
    decreases |text|
  {
    var i := Find(text, '/');
    if i < |text| {
      SplitClean(text[i + 1..]);
    }
  }

  lemma {:induction false} ToPosixClean(text: string)
    requires '\\' !in text
    ensures ToPosix(text) == text
    decreases |text|
  {
    if text != [] {
      ToPosixClean(text[1..]);
      assert text == [text[0]] + text[1..];
    }
  }

  lemma {:induction false} NamesJoin(names: seq<string>)
    requires names != [] && AllNames(names)
    ensures var text := Join(names, '/'); text != "" && text[0] != '/' && text[|text| - 1] != '/'
    decreases |names|
  {
    if |names| > 1 {
      NamesJoin(names[1..]);
    }
  }

  /** What an accepted path is made of. */
  lemma AcceptedNames(archivePath: string, path: string) returns (names: seq<string>)
    requires NormalizeArchivePath(archivePath) == Ok(Some(path))
    ensures names == Reduce([], Split(ToPosix(archivePath), '/'), true)
    ensures names != [] && AllNames(names) && Clean(names)
    ensures path == Join(names, '/') && Split(path, '/') == names
    ensures names[0] != "__MACOSX" && ".DS_Store" !in names
  {
    NormalizeMeans(archivePath);
    var posixPath := ToPosix(archivePath);
    RelativeMeans(posixPath);
    names := Reduce([], Split(posixPath, '/'), true);
    SplitClean(posixPath);
    ReduceClean([], Split(posixPath, '/'));
  }

  /** A path the package counts is relative, without empty, `.`, `..` or backslash parts,
      and leads, from any directory, where the entry's own path leads. */
  lemma AcceptedPath(archivePath: string, path: string, base: seq<string>)
    requires NormalizeArchivePath(archivePath) == Ok(Some(path))
    ensures AllNames(Split(path, '/')) && path != "" && path[0] != '/' && '\\' !in path
    ensures Resolve(base, Split(ToPosix(archivePath), '/')) == Some(base + Split(path, '/'))
  {
    var names := AcceptedNames(archivePath, path);
    var pieces := Split(ToPosix(archivePath), '/');
    NamesJoin(names);
    JoinClean(names);
    ReduceResolves(base, [], pieces);
    assert [] + pieces == pieces;
    NamesResolve(base, names);
  }

  /** Normalising an accepted path again changes nothing. */
  lemma AcceptedIsFixed(archivePath: string, path: string)
    requires NormalizeArchivePath(archivePath) == Ok(Some(path))
    ensures NormalizeArchivePath(path) == Ok(Some(path))
  {
    var names := AcceptedNames(archivePath, path);
    NamesJoin(names);
    JoinClean(names);
    ToPosixClean(path);
    NamesResolve([], names);
    assert [] + names == names;
    NormalizeMeans(path);
  }

  /** An entry that climbs above the archive's root is never returned, whatever else is in its path. */
  lemma ClimbingIsRefused(archivePath: string)
    requires Resolve([], Split(ToPosix(archivePath), '/')).None?
    ensures NormalizeArchivePath(archivePath) in {Ok(None), Err(MustBeRelative), Err(MustNotClimb)}
  {
    NormalizeMeans(archivePath);
  }
}
