/** The byte-level walk of a ZIP's central directory (cli/src/packageHash.ts,
    `validateZipEntryPaths`; sections 4.3.12 and 4.3.16 of PKWARE APPNOTE.TXT). */
module ZipDirectory {
  import opened Wrappers
  import opened Seqs
  import opened Encoding
  import opened ArchivePaths

  datatype ZipError =
    | NoEndRecord
    | OutOfBounds
    | Malformed
    | BadPath(error: PathError)
    | DuplicatePath(path: string)

  /** `Buffer.toString("utf8")`, which replaces what it cannot decode. */
  type Decode = seq<Byte> -> string

  const END_SIGNATURE := 0x06054b50
  const ENTRY_SIGNATURE := 0x02014b50

  // ----- Little-endian reads --------------------------------------------------

  /** `n` as the signed 32-bit integer JavaScript's bit operators produce. */
  function Signed32(n: int): int {
    var low := n % 0x1_0000_0000;
    if low < 0x8000_0000 then low else low - 0x1_0000_0000
  }

  /** `n >>> 0`. */
  function Unsigned32(n: int): nat {
    n % 0x1_0000_0000
  }

  function ReadUInt16LE(bytes: seq<Byte>, offset: nat): (n: nat)
    requires offset + 2 <= |bytes|
    ensures n < 0x1_0000
  {
    bytes[offset] as int + bytes[offset + 1] as int * 0x100
  }

  function ReadUInt32LE(bytes: seq<Byte>, offset: nat): (n: nat)
    requires offset + 4 <= |bytes|
    ensures n < 0x1_0000_0000
  {
    Unsigned32(Signed32(bytes[offset] as int + bytes[offset + 1] as int * 0x100
                        + bytes[offset + 2] as int * 0x1_0000 + bytes[offset + 3] as int * 0x100_0000))
  }

  // ----- What the walk is meant to find ---------------------------------------

  predicate EndRecordAt(bytes: seq<Byte>, offset: nat) {
    offset + 22 <= |bytes| && ReadUInt32LE(bytes, offset) == END_SIGNATURE
  }

  /** The names of `count` directory entries from `offset` on, and what stops the walk
      after them, if anything does. */
  function Visit(bytes: seq<Byte>, offset: nat, count: nat): (seq<seq<Byte>>, Option<ZipError>)
    decreases count
  {
    if count == 0 then ([], None)
    else if offset + 46 > |bytes| then ([], Some(OutOfBounds))
    else if ReadUInt32LE(bytes, offset) != ENTRY_SIGNATURE then ([], Some(Malformed))
    else
      var nameEnd := offset + 46 + ReadUInt16LE(bytes, offset + 28);
      if nameEnd > |bytes| then ([], Some(OutOfBounds))
      else
        var next := nameEnd + ReadUInt16LE(bytes, offset + 30) + ReadUInt16LE(bytes, offset + 32);
        var (names, problem) := Visit(bytes, next, count - 1);
        ([bytes[offset + 46..nameEnd]] + names, problem)
  }

  /** The first name that is refused, or that normalises to one already seen. */
  function FirstRefused(names: seq<string>, seen: set<string>): Option<ZipError> {
    if names == [] then None
    else
      match NormalizeArchivePath(names[0])
      case Err(e) => Some(BadPath(e))
      case Ok(None) => FirstRefused(names[1..], seen)
      case Ok(Some(path)) =>
        if path in seen then Some(DuplicatePath(path)) else FirstRefused(names[1..], seen + {path})
  }

  function Decoded(names: seq<seq<Byte>>, decode: Decode): (texts: seq<string>)
    ensures |texts| == |names|
  {
    if names == [] then [] else [decode(names[0])] + Decoded(names[1..], decode)
  }

  /** A refused name is reported before a later entry's malformation. */
  function Report(found: (seq<seq<Byte>>, Option<ZipError>), seen: set<string>, decode: Decode): Option<ZipError> {
    match FirstRefused(Decoded(found.0, decode), seen)
    case Some(e) => Some(e)
    case None => found.1
  }

  /** The highest offset, from `from` down, that holds an end record. */
  function EndRecordFrom(bytes: seq<Byte>, from: int): (offset: Option<nat>)
    requires from + 22 <= |bytes|
    ensures offset.Some? ==>
      offset.value <= from && EndRecordAt(bytes, offset.value) && forall o: nat | offset.value < o <= from :: !EndRecordAt(bytes, o)
    ensures offset.None? ==> forall o: nat | o <= from :: !EndRecordAt(bytes, o)
    decreases from + 1
  {
    if from < 0 then None
    else if ReadUInt32LE(bytes, from) == END_SIGNATURE then Some(from)
    else EndRecordFrom(bytes, from - 1)
  }

  /** What is wrong with the archive's directory, read from its highest end record. */
  function Validation(bytes: seq<Byte>, decode: Decode): Option<ZipError> {
    match EndRecordFrom(bytes, |bytes| - 22)
    case None => Some(NoEndRecord)
    case Some(o) => Report(Visit(bytes, ReadUInt32LE(bytes, o + 16), ReadUInt16LE(bytes, o + 10)), {}, decode)
  }

  // ----- The code -------------------------------------------------------------

  datatype EndRecord = EndRecord(centralDirectoryOffset: nat, entryCount: nat)

  method LocateEndOfCentralDirectory(bytes: seq<Byte>) returns (r: Result<EndRecord, ZipError>)
    ensures match EndRecordFrom(bytes, |bytes| - 22)
      case None => r == Err(NoEndRecord)
      case Some(o) => r == Ok(EndRecord(ReadUInt32LE(bytes, o + 16), ReadUInt16LE(bytes, o + 10)))
  {
    var offset := |bytes| - 22;
    while offset >= 0
      invariant -1 <= offset <= |bytes| - 22 || offset == |bytes| - 22
      invariant EndRecordFrom(bytes, |bytes| - 22) == EndRecordFrom(bytes, offset)
    {
      if ReadUInt32LE(bytes, offset) == END_SIGNATURE {
        return Ok(EndRecord(ReadUInt32LE(bytes, offset + 16), ReadUInt16LE(bytes, offset + 10)));
      }
      offset := offset - 1;
    }
    return Err(NoEndRecord);
  }

  /** One name in front of the others. */
  lemma ReportStep(name: seq<Byte>, rest: (seq<seq<Byte>>, Option<ZipError>), paths: set<string>, decode: Decode, seen: Seen)
    requires Advances(decode(name), paths, seen)
    ensures Report(([name] + rest.0, rest.1), paths, decode) ==
      match seen case Refused(e) => Some(e) case Seen(more) => Report(rest, more, decode)
  {
    hide FirstRefused;
    ConsTail(name, rest.0);
    assert Decoded([name] + rest.0, decode) == [decode(name)] + Decoded(rest.0, decode);
  }

  lemma ReportEnd(problem: Option<ZipError>, seen: set<string>, decode: Decode)
    ensures Report(([], problem), seen, decode) == problem
  {
    assert Decoded([], decode) == [];
  }

  lemma NothingLeft(bytes: seq<Byte>, offset: nat, seen: set<string>, decode: Decode)
    ensures Report(Visit(bytes, offset, 0), seen, decode) == None
  {
    ReportEnd(None, seen, decode);
  }

  /** The set of normalised paths after one more name, or why it is refused. */
  datatype Seen = Refused(error: ZipError) | Seen(paths: set<string>)

  function Onward(seen: Seen, rest: seq<string>): Option<ZipError> {
    match seen case Refused(e) => Some(e) case Seen(paths) => FirstRefused(rest, paths)
  }

  /** The first name refused of one and the rest, told by what checking the one gave. */
  ghost predicate Advances(name: string, paths: set<string>, seen: Seen) {
    forall rest: seq<string> :: FirstRefused([name] + rest, paths) == Onward(seen, rest)
  }

  /** One round of the loop's check: it settles the name, so that the rest of the directory
      can be judged from the set alone. */
  method CheckName(name: string, paths: set<string>) returns (seen: Seen)
    ensures Advances(name, paths, seen)
    ensures seen.Seen? ==> paths <= seen.paths
  {
    forall rest: seq<string> ensures FirstRefused([name] + rest, paths) == FirstOf(name, rest, paths) {
      FirstRefusedCons(name, rest, paths);
    }
    var normalizedPath := NormalizeArchivePath(name);
    match normalizedPath {
      case Err(e) => return Refused(BadPath(e));
      case Ok(None) => return Seen(paths);
      case Ok(Some(path)) =>
        if path in paths {
          return Refused(DuplicatePath(path));
        }
        return Seen(paths + {path});
    }
  }

  function FirstOf(name: string, rest: seq<string>, seen: set<string>): Option<ZipError> {
    match NormalizeArchivePath(name)
    case Err(e) => Some(BadPath(e))
    case Ok(None) => FirstRefused(rest, seen)
    case Ok(Some(path)) => if path in seen then Some(DuplicatePath(path)) else FirstRefused(rest, seen + {path})
  }

  lemma FirstRefusedCons(name: string, rest: seq<string>, seen: set<string>)
    ensures FirstRefused([name] + rest, seen) == FirstOf(name, rest, seen)
  {
    hide NormalizeArchivePath;
    assert ([name] + rest)[1..] == rest;
  }

  /** Where entry `offset` ends, if it can be read at all; `count` entries are to follow it. */
  method ReadEntry(bytes: seq<Byte>, offset: nat, count: nat) returns (r: Result<(seq<Byte>, nat), ZipError>)
    ensures match r
      case Err(e) => Visit(bytes, offset, count + 1) == ([], Some(e))
      case Ok((name, next)) =>
        var rest := Visit(bytes, next, count); Visit(bytes, offset, count + 1) == ([name] + rest.0, rest.1)
  {
    if offset + 46 > |bytes| {
      return Err(OutOfBounds);
    }
    if ReadUInt32LE(bytes, offset) != ENTRY_SIGNATURE {
      return Err(Malformed);
    }
    var fileNameLength := ReadUInt16LE(bytes, offset + 28);
    var extraFieldLength := ReadUInt16LE(bytes, offset + 30);
    var fileCommentLength := ReadUInt16LE(bytes, offset + 32);
    var fileNameEnd := offset + 46 + fileNameLength;
    if fileNameEnd > |bytes| {
      return Err(OutOfBounds);
    }
    return Ok((bytes[offset + 46..fileNameEnd], fileNameEnd + extraFieldLength + fileCommentLength));
  }

  /** One round of the loop: the entry's name is read and checked; `left` entries are to follow. */
  method CheckEntry(bytes: seq<Byte>, offset: nat, paths: set<string>, decode: Decode, left: nat)
    returns (r: Result<(set<string>, nat), ZipError>)
    ensures match r
      case Err(e) => Report(Visit(bytes, offset, left + 1), paths, decode) == Some(e)
      case Ok((more, next)) => Report(Visit(bytes, offset, left + 1), paths, decode) == Report(Visit(bytes, next, left), more, decode)
  {
    var entry := ReadEntry(bytes, offset, left);
    if entry.Err? {
      ReportEnd(Some(entry.error), paths, decode);
      return Err(entry.error);
    }
    var (name, next) := entry.value;
    var seen := CheckName(decode(name), paths);
    ReportStep(name, Visit(bytes, next, left), paths, decode, seen);
    if seen.Refused? {
      return Err(seen.error);
    }
    return Ok((seen.paths, next));
  }

  /** Every byte read is inside the archive, whatever the archive holds. */
  method ValidateZipEntryPaths(bytes: seq<Byte>, decode: Decode) returns (problem: Option<ZipError>)
    ensures problem == Validation(bytes, decode)
  {
    hide Visit, FirstRefused, EndRecordFrom, ReadUInt16LE, ReadUInt32LE;
    var located := LocateEndOfCentralDirectory(bytes);
    if located.Err? {
      return Some(located.error);
    }
    problem := WalkEntries(bytes, located.value.centralDirectoryOffset, located.value.entryCount, decode);
  }

  /** The loop over the entries. */
  method WalkEntries(bytes: seq<Byte>, start: nat, entryCount: nat, decode: Decode) returns (problem: Option<ZipError>)
    ensures problem == Report(Visit(bytes, start, entryCount), {}, decode)
  {
    hide *;
    var offset: nat := start;
    var normalizedPaths := {};
    var index: nat := 0;
    while index < entryCount
      invariant index <= entryCount
      invariant Report(Visit(bytes, start, entryCount), {}, decode) == Report(Visit(bytes, offset, entryCount - index), normalizedPaths, decode)
    {
      var checked := CheckEntry(bytes, offset, normalizedPaths, decode, entryCount - index - 1);
      if checked.Err? {
        return Some(checked.error);
      }
      normalizedPaths, offset := checked.value.0, checked.value.1;
      index := index + 1;
    }
    NothingLeft(bytes, offset, normalizedPaths, decode);
    return None;
  }

  // ----- A directory written as the format says --------------------------------

  function Write16(n: nat): (bytes: seq<Byte>)
    requires n < 0x1_0000
    ensures |bytes| == 2
  {
    [n % 0x100, n / 0x100]
  }

  function Write32(n: nat): (bytes: seq<Byte>)
    requires n < 0x1_0000_0000
    ensures |bytes| == 4
  {
    [n % 0x100, n / 0x100 % 0x100, n / 0x1_0000 % 0x100, n / 0x100_0000]
  }

  /** One central directory header: the fields the walk reads, and everything between them. */
  datatype Header = Header(before: seq<Byte>, after: seq<Byte>, name: seq<Byte>, extra: seq<Byte>, comment: seq<Byte>)

  predicate HeaderOk(h: Header) {
    && |h.before| == 24 && |h.after| == 12
    && |h.name| < 0x1_0000 && |h.extra| < 0x1_0000 && |h.comment| < 0x1_0000
  }

  function WriteHeader(h: Header): (bytes: seq<Byte>)
    requires HeaderOk(h)
    ensures |bytes| == 46 + |h.name| + |h.extra| + |h.comment|
  {
    Write32(ENTRY_SIGNATURE) + h.before + Write16(|h.name|) + Write16(|h.extra|) + Write16(|h.comment|) + h.after
    + h.name + h.extra + h.comment
  }

  function WriteHeaders(headers: seq<Header>): seq<Byte>
    requires forall k | 0 <= k < |headers| :: HeaderOk(headers[k])
  {
    if headers == [] then [] else WriteHeader(headers[0]) + WriteHeaders(headers[1..])
  }

  function NamesOf(headers: seq<Header>): seq<seq<Byte>> {
    if headers == [] then [] else [headers[0].name] + NamesOf(headers[1..])
  }

  /** Local files, central directory, end record (disk numbers and directory size as
      given), archive comment. */
  function WriteArchive(files: seq<Byte>, headers: seq<Header>, disks: seq<Byte>, size: seq<Byte>, comment: seq<Byte>): seq<Byte>
    requires forall k | 0 <= k < |headers| :: HeaderOk(headers[k])
    requires |disks| == 6 && |size| == 4
    requires |files| < 0x1_0000_0000 && |headers| < 0x1_0000 && |comment| < 0x1_0000
  {
    files + WriteHeaders(headers) + WriteEnd(|files|, |headers|, disks, size, comment)
  }

  function WriteEnd(offset: nat, count: nat, disks: seq<Byte>, size: seq<Byte>, comment: seq<Byte>): (bytes: seq<Byte>)
    requires |disks| == 6 && |size| == 4 && offset < 0x1_0000_0000 && count < 0x1_0000 && |comment| < 0x1_0000
    ensures |bytes| == 22 + |comment|
  {
    Write32(END_SIGNATURE) + disks + Write16(count) + size + Write32(offset) + Write16(|comment|) + comment
  }

  lemma Read16Back(bytes: seq<Byte>, offset: nat, n: nat)
    requires n < 0x1_0000 && offset + 2 <= |bytes| && bytes[offset..offset + 2] == Write16(n)
    ensures ReadUInt16LE(bytes, offset) == n
  {
    assert bytes[offset] == Write16(n)[0] && bytes[offset + 1] == Write16(n)[1];
  }

  lemma Read32Back(bytes: seq<Byte>, offset: nat, n: nat)
    requires n < 0x1_0000_0000 && offset + 4 <= |bytes| && bytes[offset..offset + 4] == Write32(n)
    ensures ReadUInt32LE(bytes, offset) == n
  {
    var w := Write32(n);
    assert bytes[offset] == w[0] && bytes[offset + 1] == w[1] && bytes[offset + 2] == w[2] && bytes[offset + 3] == w[3];
    assert n / 0x1_0000 == n / 0x100 / 0x100 && n / 0x100_0000 == n / 0x100 / 0x100 / 0x100;
  }

  /** Where the header's fixed fields are. */
  lemma FixedFields(h: Header, fixed: seq<Byte>)
    requires HeaderOk(h)
    requires fixed == Write32(ENTRY_SIGNATURE) + h.before + Write16(|h.name|) + Write16(|h.extra|) + Write16(|h.comment|) + h.after
    ensures |fixed| == 46
    ensures fixed[0..4] == Write32(ENTRY_SIGNATURE) && fixed[28..30] == Write16(|h.name|)
    ensures fixed[30..32] == Write16(|h.extra|) && fixed[32..34] == Write16(|h.comment|)
  {
  }

  lemma HeaderFields(h: Header)
    requires HeaderOk(h)
    ensures var w := WriteHeader(h);
      && w[0..4] == Write32(ENTRY_SIGNATURE) && w[28..30] == Write16(|h.name|)
      && w[30..32] == Write16(|h.extra|) && w[32..34] == Write16(|h.comment|)
      && w[46..46 + |h.name|] == h.name
  {
    var fixed := Write32(ENTRY_SIGNATURE) + h.before + Write16(|h.name|) + Write16(|h.extra|) + Write16(|h.comment|) + h.after;
    FixedFields(h, fixed);
    assert WriteHeader(h) == fixed + (h.name + (h.extra + h.comment));
    AfterFixed(WriteHeader(h), fixed, h.name, h.extra + h.comment);
  }

  lemma AfterFixed(w: seq<Byte>, fixed: seq<Byte>, name: seq<Byte>, rest: seq<Byte>)
    requires |fixed| == 46 && w == fixed + (name + rest)
    ensures w[0..4] == fixed[0..4] && w[28..30] == fixed[28..30] && w[30..32] == fixed[30..32] && w[32..34] == fixed[32..34]
    ensures w[46..46 + |name|] == name
  {
    Parts(fixed, name + rest);
    Within(w, 0, fixed, 0, 4);
    Within(w, 0, fixed, 28, 30);
    Within(w, 0, fixed, 30, 32);
    Within(w, 0, fixed, 32, 34);
    Halves(w, 46, name, rest);
  }

  /** One written header, read back in place. */
  lemma HeaderReadsBack(bytes: seq<Byte>, offset: nat, h: Header)
    requires HeaderOk(h) && offset + |WriteHeader(h)| <= |bytes|
    requires bytes[offset..offset + |WriteHeader(h)|] == WriteHeader(h)
    ensures ReadUInt32LE(bytes, offset) == ENTRY_SIGNATURE
    ensures ReadUInt16LE(bytes, offset + 28) == |h.name|
    ensures ReadUInt16LE(bytes, offset + 30) == |h.extra|
    ensures ReadUInt16LE(bytes, offset + 32) == |h.comment|
    ensures bytes[offset + 46..offset + 46 + |h.name|] == h.name
  {
    var w := WriteHeader(h);
    HeaderFields(h);
    FieldsReadBack(bytes, offset, w, h);
  }

  lemma FieldsReadBack(bytes: seq<Byte>, offset: nat, w: seq<Byte>, h: Header)
    requires HeaderOk(h) && |w| >= 46 + |h.name| && offset + |w| <= |bytes| && bytes[offset..offset + |w|] == w
    requires w[0..4] == Write32(ENTRY_SIGNATURE) && w[28..30] == Write16(|h.name|)
    requires w[30..32] == Write16(|h.extra|) && w[32..34] == Write16(|h.comment|)
    requires w[46..46 + |h.name|] == h.name
    ensures ReadUInt32LE(bytes, offset) == ENTRY_SIGNATURE
    ensures ReadUInt16LE(bytes, offset + 28) == |h.name|
    ensures ReadUInt16LE(bytes, offset + 30) == |h.extra|
    ensures ReadUInt16LE(bytes, offset + 32) == |h.comment|
    ensures bytes[offset + 46..offset + 46 + |h.name|] == h.name
  {
    Within(bytes, offset, w, 0, 4);
    Within(bytes, offset, w, 28, 30);
    Within(bytes, offset, w, 30, 32);
    Within(bytes, offset, w, 32, 34);
    Within(bytes, offset, w, 46, 46 + |h.name|);
    Read32Back(bytes, offset, ENTRY_SIGNATURE);
    Read16Back(bytes, offset + 28, |h.name|);
    Read16Back(bytes, offset + 30, |h.extra|);
    Read16Back(bytes, offset + 32, |h.comment|);
  }

  lemma HeaderVisited(bytes: seq<Byte>, offset: nat, next: nat, h: Header, count: nat)
    requires HeaderOk(h) && next == offset + |WriteHeader(h)| <= |bytes|
    requires bytes[offset..next] == WriteHeader(h)
    ensures Visit(bytes, offset, count + 1) == ([h.name] + Visit(bytes, next, count).0, Visit(bytes, next, count).1)
  {
    HeaderReadsBack(bytes, offset, h);
  }

  lemma HeadersCons(headers: seq<Header>)
    requires headers != [] && forall k | 0 <= k < |headers| :: HeaderOk(headers[k])
    ensures WriteHeaders(headers) == WriteHeader(headers[0]) + WriteHeaders(headers[1..])
  {
    hide WriteHeader, HeaderOk;
  }

  lemma FirstHeader(bytes: seq<Byte>, offset: nat, headers: seq<Header>)
    requires headers != [] && forall k | 0 <= k < |headers| :: HeaderOk(headers[k])
    requires offset + |WriteHeaders(headers)| <= |bytes|
    requires bytes[offset..offset + |WriteHeaders(headers)|] == WriteHeaders(headers)
    ensures var w, rest := WriteHeader(headers[0]), WriteHeaders(headers[1..]);
      && offset + |w| + |rest| <= |bytes|
      && bytes[offset..offset + |w|] == w && bytes[offset + |w|..offset + |w| + |rest|] == rest
  {
    hide WriteHeader, WriteHeaders, HeaderOk;
    HeadersCons(headers);
    Halves(bytes, offset, WriteHeader(headers[0]), WriteHeaders(headers[1..]));
  }

  /** The walk visits exactly the names that were written, in order. */
  lemma {:induction false} VisitReadsBack(bytes: seq<Byte>, offset: nat, headers: seq<Header>)
    requires forall k | 0 <= k < |headers| :: HeaderOk(headers[k])
    requires offset + |WriteHeaders(headers)| <= |bytes|
    requires bytes[offset..offset + |WriteHeaders(headers)|] == WriteHeaders(headers)
    ensures Visit(bytes, offset, |headers|) == (NamesOf(headers), None)
    decreases |headers|
  {
    hide WriteHeader, HeaderOk;
    if headers != [] {
      FirstHeader(bytes, offset, headers);
      var next := offset + |WriteHeader(headers[0])|;
      VisitReadsBack(bytes, next, headers[1..]);
      HeaderVisited(bytes, offset, next, headers[0], |headers| - 1);
    }
  }

  lemma EndReadsBack(bytes: seq<Byte>, offset: nat, directory: nat, count: nat, disks: seq<Byte>, size: seq<Byte>, comment: seq<Byte>)
    requires |disks| == 6 && |size| == 4 && directory < 0x1_0000_0000 && count < 0x1_0000 && |comment| < 0x1_0000
    requires offset + 22 + |comment| <= |bytes|
    requires bytes[offset..offset + 22 + |comment|] == WriteEnd(directory, count, disks, size, comment)
    ensures EndRecordAt(bytes, offset)
    ensures ReadUInt32LE(bytes, offset + 16) == directory && ReadUInt16LE(bytes, offset + 10) == count
  {
    var w := WriteEnd(directory, count, disks, size, comment);
    assert w[0..4] == Write32(END_SIGNATURE) && w[10..12] == Write16(count) && w[16..20] == Write32(directory);
    Within(bytes, offset, w, 0, 4);
    Within(bytes, offset, w, 10, 12);
    Within(bytes, offset, w, 16, 20);
    Read32Back(bytes, offset, END_SIGNATURE);
    Read16Back(bytes, offset + 10, count);
    Read32Back(bytes, offset + 16, directory);
  }

  // ----- Accepting ------------------------------------------------------------

  /** No name is refused, and no two kept ones normalise to one path. */
  predicate NamesOk(names: seq<string>) {
    && (forall k | 0 <= k < |names| :: NormalizeArchivePath(names[k]).Ok?)
    && (forall i, j | 0 <= i < j < |names| :: NormalizeArchivePath(names[i]).value.Some? ==>
          NormalizeArchivePath(names[i]) != NormalizeArchivePath(names[j]))
  }

  predicate Unseen(names: seq<string>, seen: set<string>) {
    forall k | 0 <= k < |names| && NormalizeArchivePath(names[k]).Ok? && NormalizeArchivePath(names[k]).value.Some? ::
      NormalizeArchivePath(names[k]).value.value !in seen
  }

  lemma {:induction false} FirstRefusedNone(names: seq<string>, seen: set<string>)
    ensures FirstRefused(names, seen).None? <==> NamesOk(names) && Unseen(names, seen)
    decreases |names|
  {
    hide NormalizeArchivePath;
    if names != [] {
      var rest := names[1..];
      assert names == [names[0]] + rest;
      match NormalizeArchivePath(names[0]) {
        case Err(e) =>
        case Ok(None) =>
          FirstRefusedNone(rest, seen);
          assert NamesOk(names) <==> NamesOk(rest);
          assert Unseen(names, seen) <==> Unseen(rest, seen);
        case Ok(Some(path)) =>
          FirstRefusedNone(rest, seen + {path});
          assert Unseen(rest, seen + {path}) <==> Unseen(rest, seen) && Unseen(rest, {path});
          assert NamesOk(names) ==> NamesOk(rest) && Unseen(rest, {path});
          assert NamesOk(rest) && Unseen(rest, {path}) ==> NamesOk(names);
          assert Unseen(names, seen) <==> path !in seen && Unseen(rest, seen);
      }
    }
  }

  /** A directory as the format lays it out is accepted exactly when its names are; an
      archive comment is no obstacle unless an end signature can be read in it. */
  lemma DirectoryRoundTrip(files: seq<Byte>, headers: seq<Header>, disks: seq<Byte>, size: seq<Byte>, comment: seq<Byte>, decode: Decode)
    requires forall k | 0 <= k < |headers| :: HeaderOk(headers[k])
    requires |disks| == 6 && |size| == 4
    requires |files| < 0x1_0000_0000 && |headers| < 0x1_0000 && |comment| < 0x1_0000
    requires var bytes := WriteArchive(files, headers, disks, size, comment);
      forall o: nat | o + 22 + |comment| > |bytes| :: !EndRecordAt(bytes, o)
    ensures var bytes := WriteArchive(files, headers, disks, size, comment);
      && Visit(bytes, |files|, |headers|) == (NamesOf(headers), None)
      && (Validation(bytes, decode) == None <==> NamesOk(Decoded(NamesOf(headers), decode)))
  {
    var bytes := WriteArchive(files, headers, disks, size, comment);
    var directory, end := WriteHeaders(headers), WriteEnd(|files|, |headers|, disks, size, comment);
    var at := |files| + |directory|;
    assert bytes[|files|..at] == directory && bytes[at..at + |end|] == end;
    VisitReadsBack(bytes, |files|, headers);
    EndReadsBack(bytes, at, |files|, |headers|, disks, size, comment);
    AcceptedFrom(bytes, at, |files|, headers, decode);
  }

  lemma AcceptedFrom(bytes: seq<Byte>, at: nat, directory: nat, headers: seq<Header>, decode: Decode)
    requires EndRecordAt(bytes, at) && forall o: nat | o > at :: !EndRecordAt(bytes, o)
    requires ReadUInt32LE(bytes, at + 16) == directory && ReadUInt16LE(bytes, at + 10) == |headers|
    requires Visit(bytes, directory, |headers|) == (NamesOf(headers), None)
    ensures Validation(bytes, decode) == None <==> NamesOk(Decoded(NamesOf(headers), decode))
  {
    hide Visit, FirstRefused, ReadUInt16LE, ReadUInt32LE, EndRecordFrom, EndRecordAt, NamesOk, Decoded;
    FoundAt(bytes, at);
    FirstRefusedNone(Decoded(NamesOf(headers), decode), {});
  }

  lemma FoundAt(bytes: seq<Byte>, at: nat)
    requires EndRecordAt(bytes, at) && forall o: nat | o > at :: !EndRecordAt(bytes, o)
    ensures |bytes| >= 22 && at + 22 <= |bytes| && EndRecordFrom(bytes, |bytes| - 22) == Some(at)
  {
    hide ReadUInt32LE;
    var found := EndRecordFrom(bytes, |bytes| - 22);
  }
}
