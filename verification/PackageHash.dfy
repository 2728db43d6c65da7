/** The package hash's preimage: what is hashed and signed for a bundle
    (cli/src/packageHash.ts, `computePackageHashFromZipBuffer`). */
module PackageHash {
  import opened Wrappers
  import opened Seqs
  import opened Strings
  import opened Encoding
  import opened ArchivePaths

  /** A SHA-256 digest in lower-case hexadecimal. */
  type Digest = s: string | |s| == 64 && forall k | 0 <= k < 64 :: s[k] in "0123456789abcdef"
    witness seq(64, _ => '0')

  type Sha256 = seq<Byte> -> Digest

  /** What unzipping gives: paths and contents, in the archive's order. */
  datatype Entry = Entry(path: string, bytes: seq<Byte>)

  function ManifestEntry(path: string, digest: Digest): string {
    path + ":" + digest
  }

  /** The manifest entries in the archive's order; an entry the package does not count is left out. */
  function ManifestEntries(archive: seq<Entry>, sha256: Sha256): Result<seq<string>, PathError> {
    if archive == [] then Ok([])
    else
      match NormalizeArchivePath(archive[0].path)
      case Err(e) => Err(e)
      case Ok(path) =>
        match ManifestEntries(archive[1..], sha256)
        case Err(e) => Err(e)
        case Ok(rest) =>
          if path.None? then Ok(rest)
          else Ok([ManifestEntry(path.value, sha256(archive[0].bytes))] + rest)
  }

  // ----- `Buffer.compare` and the sort ----------------------------------------

  predicate BytesLe(a: seq<Byte>, b: seq<Byte>)
    decreases |a|
  {
    a == [] || (b != [] && (a[0] < b[0] || (a[0] == b[0] && BytesLe(a[1..], b[1..]))))
  }

  predicate EntryLe(a: string, b: string) {
    BytesLe(Utf8(a), Utf8(b))
  }

  function Insert(entry: string, sorted: seq<string>): seq<string> {
    if sorted == [] || EntryLe(entry, sorted[0]) then [entry] + sorted
    else [sorted[0]] + Insert(entry, sorted[1..])
  }

  function Sort(entries: seq<string>): seq<string> {
    if entries == [] then [] else Insert(entries[0], Sort(entries[1..]))
  }

  /** The bytes that are hashed. */
  function Preimage(archive: seq<Entry>, sha256: Sha256): Result<seq<Byte>, PathError> {
    match ManifestEntries(archive, sha256)
    case Err(e) => Err(e)
    case Ok(entries) => Ok(Utf8(Stringify(Sort(entries))))
  }

  // ----- The byte order is total ----------------------------------------------

  lemma {:induction false} BytesLeTotal(a: seq<Byte>, b: seq<Byte>)
    ensures BytesLe(a, b) || BytesLe(b, a)
    ensures BytesLe(a, b) && BytesLe(b, a) ==> a == b
    decreases |a|
  {
    if a != [] && b != [] {
      BytesLeTotal(a[1..], b[1..]);
      assert a == [a[0]] + a[1..] && b == [b[0]] + b[1..];
    }
  }

  lemma {:induction false} BytesLeTransitive(a: seq<Byte>, b: seq<Byte>, c: seq<Byte>)
    requires BytesLe(a, b) && BytesLe(b, c)
    ensures BytesLe(a, c)
    decreases |a|
  {
    if a != [] && a[0] == b[0] && b[0] == c[0] {
      BytesLeTransitive(a[1..], b[1..], c[1..]);
    }
  }

  lemma EntryLeTotal(a: string, b: string)
    ensures EntryLe(a, b) || EntryLe(b, a)
    ensures EntryLe(a, b) && EntryLe(b, a) ==> a == b
  {
    BytesLeTotal(Utf8(a), Utf8(b));
    if Utf8(a) == Utf8(b) {
      Utf8Injective(a, b);
    }
  }

  // ----- Sorting forgets the archive's order, and nothing else ----------------

  predicate Sorted(entries: seq<string>) {
    forall i, j | 0 <= i < j < |entries| :: EntryLe(entries[i], entries[j])
  }

  lemma {:induction false} InsertSorts(entry: string, sorted: seq<string>)
    requires Sorted(sorted)
    ensures Sorted(Insert(entry, sorted))
    ensures multiset(Insert(entry, sorted)) == multiset(sorted) + multiset{entry}
    decreases |sorted|
  {
    hide EntryLe, Sorted;
    if sorted == [] || EntryLe(entry, sorted[0]) {
      InsertFirst(entry, sorted);
    } else {
      EntryLeTotal(entry, sorted[0]);
      HeadTail(sorted);
      SortedTail(sorted);
      InsertSorts(entry, sorted[1..]);
      SortedCons(sorted[0], Insert(entry, sorted[1..]), sorted[1..], entry);
    }
  }

  lemma InsertFirst(entry: string, sorted: seq<string>)
    requires Sorted(sorted) && (sorted != [] ==> EntryLe(entry, sorted[0]))
    ensures Sorted([entry] + sorted)
  {
    forall j | 0 < j < |sorted| ensures EntryLe(entry, sorted[j]) {
      BytesLeTransitive(Utf8(entry), Utf8(sorted[0]), Utf8(sorted[j]));
    }
  }

  lemma SortedTail(sorted: seq<string>)
    requires Sorted(sorted) && sorted != []
    ensures Sorted(sorted[1..]) && forall other | other in sorted[1..] :: EntryLe(sorted[0], other)
  {
    hide EntryLe;
  }

  /** What is below all it came from, and below what was inserted, stands first. */
  lemma SortedCons(first: string, rest: seq<string>, tail: seq<string>, entry: string)
    requires Sorted(rest) && multiset(rest) == multiset(tail) + multiset{entry}
    requires EntryLe(first, entry) && forall other | other in tail :: EntryLe(first, other)
    ensures Sorted([first] + rest)
  {
    hide EntryLe;
    forall j | 0 <= j < |rest| ensures EntryLe(first, rest[j]) {
      assert rest[j] in multiset(rest);
      if rest[j] != entry {
        assert rest[j] in multiset(tail);
      }
    }
  }

  lemma {:induction false} SortSorts(entries: seq<string>)
    ensures Sorted(Sort(entries)) && multiset(Sort(entries)) == multiset(entries)
    decreases |entries|
  {
    if entries != [] {
      hide EntryLe, Insert, Sorted;
      SortSorts(entries[1..]);
      InsertSorts(entries[0], Sort(entries[1..]));
      HeadTail(entries);
    }
  }

  lemma SortedHeads(a: seq<string>, b: seq<string>)
    requires Sorted(a) && Sorted(b) && a != [] && b != [] && multiset(a) == multiset(b)
    ensures a[0] == b[0]
  {
    hide EntryLe;
    assert a[0] in multiset(b) && b[0] in multiset(a);
    var i :| 0 <= i < |b| && b[i] == a[0];
    var j :| 0 <= j < |a| && a[j] == b[0];
    EntryLeTotal(a[0], b[0]);
  }

  lemma SameTails(a: seq<string>, b: seq<string>)
    requires a != [] && b != [] && a[0] == b[0] && multiset(a) == multiset(b)
    ensures multiset(a[1..]) == multiset(b[1..])
  {
    HeadTail(a);
    HeadTail(b);
    assert multiset(a[1..]) == multiset(a) - multiset{a[0]};
    assert multiset(b[1..]) == multiset(b) - multiset{b[0]};
  }

  lemma {:induction false} SortedUnique(a: seq<string>, b: seq<string>)
    requires Sorted(a) && Sorted(b) && multiset(a) == multiset(b)
    ensures a == b
    decreases |a|
  {
    hide EntryLe;
    assert |multiset(a)| == |multiset(b)|;
    if a != [] {
      SortedHeads(a, b);
      SameTails(a, b);
      SortedUnique(a[1..], b[1..]);
      HeadTail(a);
      HeadTail(b);
    }
  }

  // ----- What the preimage stands for -----------------------------------------

  /** The counted files: normalised path and digest, in no order. */
  function Contents(archive: seq<Entry>, sha256: Sha256): multiset<(string, Digest)> {
    if archive == [] then multiset{}
    else
      var rest := Contents(archive[1..], sha256);
      match NormalizeArchivePath(archive[0].path)
      case Ok(Some(path)) => rest + multiset{(path, sha256(archive[0].bytes))}
      case _ => rest
  }

  predicate Accepted(archive: seq<Entry>) {
    forall k | 0 <= k < |archive| :: NormalizeArchivePath(archive[k].path).Ok?
  }

  /** The 64 hexadecimal digits at the end say where the path ends. */
  lemma ManifestEntryInjective(path: string, digest: Digest, path': string, digest': Digest)
    requires ManifestEntry(path, digest) == ManifestEntry(path', digest')
    ensures path == path' && digest == digest'
  {
    var m, m' := ManifestEntry(path, digest), ManifestEntry(path', digest');
    assert path == m[..|m| - 65] && digest == m[|m| - 64..];
    assert path' == m'[..|m'| - 65] && digest' == m'[|m'| - 64..];
  }

  lemma {:induction false} EntriesCount(archive: seq<Entry>, sha256: Sha256, path: string, digest: Digest)
    requires Accepted(archive)
    ensures ManifestEntries(archive, sha256).Ok?
    ensures multiset(ManifestEntries(archive, sha256).value)[ManifestEntry(path, digest)]
         == Contents(archive, sha256)[(path, digest)]
    decreases |archive|
  {
    if archive != [] {
      EntriesCount(archive[1..], sha256, path, digest);
      var here := NormalizeArchivePath(archive[0].path).value;
      if here.Some? {
        var own := sha256(archive[0].bytes);
        if ManifestEntry(here.value, own) == ManifestEntry(path, digest) {
          ManifestEntryInjective(here.value, own, path, digest);
        }
      }
    }
  }

  /** Every manifest entry has the shape `path:digest`. */
  lemma {:induction false} EntriesShape(archive: seq<Entry>, sha256: Sha256, entry: string)
    requires ManifestEntries(archive, sha256).Ok? && entry in ManifestEntries(archive, sha256).value
    ensures exists path: string, digest: Digest :: entry == ManifestEntry(path, digest)
    decreases |archive|
  {
    if archive != [] {
      var here := NormalizeArchivePath(archive[0].path).value;
      if !(here.Some? && entry == ManifestEntry(here.value, sha256(archive[0].bytes))) {
        EntriesShape(archive[1..], sha256, entry);
      }
    }
  }

  lemma SameContentsSameEntries(a: seq<Entry>, b: seq<Entry>, sha256: Sha256)
    requires Accepted(a) && Accepted(b) && Contents(a, sha256) == Contents(b, sha256)
    ensures ManifestEntries(a, sha256).Ok? && ManifestEntries(b, sha256).Ok?
    ensures multiset(ManifestEntries(a, sha256).value) == multiset(ManifestEntries(b, sha256).value)
  {
    var any: Digest := seq(64, _ => '0');
    EntriesCount(a, sha256, "", any);
    EntriesCount(b, sha256, "", any);
    var x, y := multiset(ManifestEntries(a, sha256).value), multiset(ManifestEntries(b, sha256).value);
    forall entry ensures x[entry] == y[entry] {
      if entry in x {
        EntriesShape(a, sha256, entry);
      }
      if entry in y {
        EntriesShape(b, sha256, entry);
      }
      if entry in x || entry in y {
        var path: string, digest: Digest :| entry == ManifestEntry(path, digest);
        EntriesCount(a, sha256, path, digest);
        EntriesCount(b, sha256, path, digest);
      }
    }
  }

  /** Two accepted archives have the same preimage exactly when they have the same files:
      the order of the entries and what is skipped do not show, everything else does. */
  lemma PreimageExactlyContents(a: seq<Entry>, b: seq<Entry>, sha256: Sha256)
    requires Accepted(a) && Accepted(b)
    ensures Preimage(a, sha256).Ok? && Preimage(b, sha256).Ok?
    ensures Preimage(a, sha256) == Preimage(b, sha256) <==> Contents(a, sha256) == Contents(b, sha256)
  {
    var any: Digest := seq(64, _ => '0');
    EntriesCount(a, sha256, "", any);
    EntriesCount(b, sha256, "", any);
    var x, y := ManifestEntries(a, sha256).value, ManifestEntries(b, sha256).value;
    SortSorts(x);
    SortSorts(y);
    if Contents(a, sha256) == Contents(b, sha256) {
      SameContentsSameEntries(a, b, sha256);
      SortedUnique(Sort(x), Sort(y));
    }
    if Preimage(a, sha256) == Preimage(b, sha256) {
      Utf8Injective(Stringify(Sort(x)), Stringify(Sort(y)));
      StringifyInjective(Sort(x), Sort(y));
      forall path: string, digest: Digest
        ensures Contents(a, sha256)[(path, digest)] == Contents(b, sha256)[(path, digest)]
      {
        EntriesCount(a, sha256, path, digest);
        EntriesCount(b, sha256, path, digest);
      }
      assert forall file :: Contents(a, sha256)[file] == Contents(b, sha256)[(file.0, file.1)];
    }
  }

  // ----- Its three consequences -----------------------------------------------

  lemma {:induction false} ContentsCat(a: seq<Entry>, b: seq<Entry>, sha256: Sha256)
    ensures Contents(a + b, sha256) == Contents(a, sha256) + Contents(b, sha256)
    decreases |a|
  {
    if a == [] {
      assert a + b == b;
    } else {
      assert (a + b)[1..] == a[1..] + b;
      ContentsCat(a[1..], b, sha256);
    }
  }

  lemma ContentsAround(before: seq<Entry>, entry: Entry, after: seq<Entry>, sha256: Sha256)
    ensures Contents(before + ([entry] + after), sha256) == Contents([entry], sha256) + Contents(before + after, sha256)
  {
    ContentsCat(before, [entry] + after, sha256);
    ContentsCat([entry], after, sha256);
    ContentsCat(before, after, sha256);
  }

  lemma TakeOut<T>(a: seq<T>, b: seq<T>) returns (i: nat)
    requires a != [] && multiset(a) == multiset(b)
    ensures i < |b| && b == b[..i] + ([a[0]] + b[i + 1..])
    ensures multiset(a[1..]) == multiset(b[..i] + b[i + 1..])
  {
    assert a[0] in multiset(b);
    i :| 0 <= i < |b| && b[i] == a[0];
    HeadTail(a);
    assert b == b[..i] + ([a[0]] + b[i + 1..]);
    WithoutMiddle(a[0], b[..i], b[i + 1..]);
    assert multiset(a[1..]) == multiset(a) - multiset{a[0]};
  }

  lemma WithoutMiddle<T>(x: T, before: seq<T>, after: seq<T>)
    ensures multiset(before + after) == multiset(before + ([x] + after)) - multiset{x}
  {
    assert multiset(before + ([x] + after)) == multiset(before) + (multiset{x} + multiset(after));
  }

  lemma {:induction false} OrderDoesNotShow(a: seq<Entry>, b: seq<Entry>, sha256: Sha256)
    requires multiset(a) == multiset(b)
    ensures Contents(a, sha256) == Contents(b, sha256)
    decreases |a|
  {
    if a == [] {
      assert |multiset(b)| == 0;
    } else {
      var i := TakeOut(a, b);
      OrderDoesNotShow(a[1..], b[..i] + b[i + 1..], sha256);
      ContentsAround([], a[0], a[1..], sha256);
      ContentsAround(b[..i], a[0], b[i + 1..], sha256);
      assert a == [] + ([a[0]] + a[1..]) && [] + a[1..] == a[1..];
    }
  }

  /** A path inside a `__MACOSX` tree or to a `.DS_Store` file, wherever its dots lead it. */
  predicate LeadsAside(posixPath: string)
    requires posixPath != ""
  {
    posixPath[0] != '/' &&
    match Resolve([], Split(posixPath, '/'))
    case Some(names) => names != [] && (names[0] == "__MACOSX" || ".DS_Store" in names)
    case None => false
  }

  /** A directory, or what a Mac leaves in an archive beside the files. */
  predicate IsSkipped(entry: Entry) {
    var posixPath := ToPosix(entry.path);
    posixPath != "" && (posixPath[|posixPath| - 1] == '/' || LeadsAside(posixPath))
  }

  lemma SkippedExactly(entry: Entry)
    ensures IsSkipped(entry) <==> NormalizeArchivePath(entry.path) == Ok(None)
  {
    EmptyLeadsNowhere();
    hide Resolve, Split, ToPosix, NormalizeArchivePath;
    NormalizeMeans(entry.path);
  }

  lemma EmptyLeadsNowhere()
    ensures Resolve([], Split("", '/')) == Some([])
  {
    assert Split("", '/') == [""];
    assert Resolve([], [""]) == Resolve([], [""][1..]);
  }

  /** Such entries may come and go. */
  lemma SkippedEntriesDoNotShow(before: seq<Entry>, entry: Entry, after: seq<Entry>, sha256: Sha256)
    requires IsSkipped(entry)
    ensures Contents(before + [entry] + after, sha256) == Contents(before + after, sha256)
  {
    hide NormalizeArchivePath, LeadsAside;
    SkippedExactly(entry);
    ContentsCat(before + [entry], after, sha256);
    ContentsCat(before, [entry], sha256);
    ContentsCat(before, after, sha256);
  }

  lemma SameAccepted(a: seq<Entry>, b: seq<Entry>)
    requires multiset(a) == multiset(b) && Accepted(a)
    ensures Accepted(b)
  {
    forall k | 0 <= k < |b| ensures NormalizeArchivePath(b[k].path).Ok? {
      assert b[k] in multiset(a);
      assert b[k] in a;
    }
  }

  /** Archives with the same entries in any order are hashed alike. */
  lemma PreimageIgnoresOrder(a: seq<Entry>, b: seq<Entry>, sha256: Sha256)
    requires multiset(a) == multiset(b) && Accepted(a)
    ensures Preimage(a, sha256) == Preimage(b, sha256) && Preimage(b, sha256).Ok?
  {
    SameAccepted(a, b);
    OrderDoesNotShow(a, b, sha256);
    PreimageExactlyContents(a, b, sha256);
  }

  lemma SkippedAccepted(before: seq<Entry>, entry: Entry, after: seq<Entry>)
    requires Accepted(before + after) && IsSkipped(entry)
    ensures Accepted(before + [entry] + after)
  {
    hide NormalizeArchivePath, LeadsAside;
    SkippedExactly(entry);
    var more, less := before + [entry] + after, before + after;
    forall k | 0 <= k < |more| ensures NormalizeArchivePath(more[k].path).Ok? {
      if k < |before| {
        assert more[k] == less[k];
      } else if k > |before| {
        assert more[k] == less[k - 1];
      }
    }
  }

  /** And so are archives that differ by directories, `__MACOSX` trees and `.DS_Store` files. */
  lemma PreimageIgnoresSkipped(before: seq<Entry>, entry: Entry, after: seq<Entry>, sha256: Sha256)
    requires Accepted(before + after) && IsSkipped(entry)
    ensures Preimage(before + [entry] + after, sha256) == Preimage(before + after, sha256)
  {
    hide Preimage;
    var more, less := before + [entry] + after, before + after;
    SkippedAccepted(before, entry, after);
    SkippedEntriesDoNotShow(before, entry, after, sha256);
    PreimageExactlyContents(more, less, sha256);
  }

  /** The counted files as a map; the directory check has refused two files with one path. */
  function Files(archive: seq<Entry>, sha256: Sha256): map<string, Digest> {
    if archive == [] then map[]
    else
      match NormalizeArchivePath(archive[0].path)
      case Ok(Some(path)) => Files(archive[1..], sha256)[path := sha256(archive[0].bytes)]
      case _ => Files(archive[1..], sha256)
  }

  predicate DistinctPaths(archive: seq<Entry>) {
    forall i, j | 0 <= i < j < |archive| ::
      NormalizeArchivePath(archive[i].path) == NormalizeArchivePath(archive[j].path) ==>
        NormalizeArchivePath(archive[i].path) == Ok(None)
  }

  lemma {:induction false} FilesAreContents(archive: seq<Entry>, sha256: Sha256, path: string, digest: Digest)
    requires Accepted(archive) && DistinctPaths(archive)
    ensures Contents(archive, sha256)[(path, digest)]
         == if path in Files(archive, sha256) && Files(archive, sha256)[path] == digest then 1 else 0
    ensures path in Files(archive, sha256) ==>
      exists k | 0 <= k < |archive| :: NormalizeArchivePath(archive[k].path) == Ok(Some(path))
    decreases |archive|
  {
    if archive != [] {
      var here := NormalizeArchivePath(archive[0].path);
      FilesAreContents(archive[1..], sha256, path, digest);
      if path in Files(archive[1..], sha256) {
        var k :| 0 <= k < |archive[1..]| && NormalizeArchivePath(archive[1..][k].path) == Ok(Some(path));
        assert archive[k + 1] == archive[1..][k];
      }
    }
  }

  /** Equal preimages mean the same paths with the same digests, and the other way round. */
  lemma PreimageExactlyFiles(a: seq<Entry>, b: seq<Entry>, sha256: Sha256)
    requires Accepted(a) && DistinctPaths(a) && Accepted(b) && DistinctPaths(b)
    ensures Preimage(a, sha256) == Preimage(b, sha256) <==> Files(a, sha256) == Files(b, sha256)
  {
    PreimageExactlyContents(a, b, sha256);
    if Files(a, sha256) == Files(b, sha256) {
      forall path: string, digest: Digest
        ensures Contents(a, sha256)[(path, digest)] == Contents(b, sha256)[(path, digest)]
      {
        FilesAreContents(a, sha256, path, digest);
        FilesAreContents(b, sha256, path, digest);
      }
      assert forall file :: Contents(a, sha256)[file] == Contents(b, sha256)[(file.0, file.1)];
    }
    if Contents(a, sha256) == Contents(b, sha256) {
      forall path | path in Files(a, sha256) || path in Files(b, sha256)
        ensures path in Files(a, sha256) && path in Files(b, sha256) && Files(a, sha256)[path] == Files(b, sha256)[path]
      {
        var digest := if path in Files(a, sha256) then Files(a, sha256)[path] else Files(b, sha256)[path];
        FilesAreContents(a, sha256, path, digest);
        FilesAreContents(b, sha256, path, digest);
      }
    }
  }
}
