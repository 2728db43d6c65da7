/** The whole of `computePackageHashFromZipBuffer` (cli/src/packageHash.ts): the directory
    is checked first, and what is unzipped is hashed. */
module BundleHash {
  import opened Wrappers
  import opened Seqs
  import opened Encoding
  import opened ArchivePaths
  import opened PackageHash
  import opened PreimageReader
  import ZipDirectory

  /** `unzipSync` and `Object.entries`: files by name, none twice. */
  type Unzip = seq<Byte> -> seq<Entry>

  datatype BundleError = Directory(problem: ZipDirectory.ZipError) | Path(error: PathError)

  /** The names in the central directory, as far as it can be walked. */
  function DirectoryNames(bytes: seq<Byte>, decode: ZipDirectory.Decode): seq<string> {
    match ZipDirectory.EndRecordFrom(bytes, |bytes| - 22)
    case None => []
    case Some(o) =>
      ZipDirectory.Decoded(ZipDirectory.Visit(bytes, ZipDirectory.ReadUInt32LE(bytes, o + 16), ZipDirectory.ReadUInt16LE(bytes, o + 10)).0, decode)
  }

  /** What is unzipped is what the directory names, each name once. */
  ghost predicate FromDirectory(archive: seq<Entry>, names: seq<string>) {
    && (forall k | 0 <= k < |archive| :: archive[k].path in names)
    && (forall i, j | 0 <= i < j < |archive| :: archive[i].path != archive[j].path)
  }

  /** Unzipping this bundle gives what its directory names. */
  ghost predicate Unzips(bytes: seq<Byte>, decode: ZipDirectory.Decode, unzip: Unzip) {
    FromDirectory(unzip(bytes), DirectoryNames(bytes, decode))
  }

  /** What is hashed reads as the files that are counted, in byte order. */
  ghost predicate ReadsBack(preimage: seq<Byte>, archive: seq<Entry>, sha256: Sha256) {
    ReadPreimage(preimage).Some? && Lists(ReadPreimage(preimage).value, archive, sha256)
  }

  /** What is hashed and signed for a bundle, or why there is nothing to hash: an error is
      the directory's first problem and no other, and what is hashed lists the files that are
      in the bundle, in byte order, and stands for no others. */
  method ComputePackageHash(bytes: seq<Byte>, decode: ZipDirectory.Decode, unzip: Unzip, sha256: Sha256)
    returns (r: Result<seq<Byte>, BundleError>)
    ensures r.Err? && r.error.Directory? <==> ZipDirectory.Validation(bytes, decode).Some?
    ensures r.Err? && r.error.Directory? ==> ZipDirectory.Validation(bytes, decode) == Some(r.error.problem)
    ensures Unzips(bytes, decode, unzip) ==> !(r.Err? && r.error.Path?)
    ensures r.Ok? ==> Preimage(unzip(bytes), sha256) == Ok(r.value)
    ensures r.Ok? && Unzips(bytes, decode, unzip) ==> ReadsBack(r.value, unzip(bytes), sha256)
    ensures r.Err? && r.error.Path? ==> Preimage(unzip(bytes), sha256) == Err(r.error.error)
    ensures r.Ok? && Unzips(bytes, decode, unzip) ==>
      forall other | Unzips(other, decode, unzip) && ZipDirectory.Validation(other, decode) == None ::
        Preimage(unzip(other), sha256) == Ok(r.value) <==> Files(unzip(other), sha256) == Files(unzip(bytes), sha256)
  {
    hide ZipDirectory.Validation, Unzips, Preimage, Files, ReadsBack;
    var problem := ZipDirectory.ValidateZipEntryPaths(bytes, decode);
    if problem.Some? {
      return Err(Directory(problem.value));
    }
    if Unzips(bytes, decode, unzip) {
      ValidatedIsHashed(bytes, decode, unzip, sha256);
      forall other | Unzips(other, decode, unzip) && ZipDirectory.Validation(other, decode) == None
        ensures Preimage(unzip(other), sha256) == Preimage(unzip(bytes), sha256) <==> Files(unzip(other), sha256) == Files(unzip(bytes), sha256)
      {
        HashedAlikeExactly(other, bytes, decode, unzip, sha256);
      }
    }
    match Preimage(unzip(bytes), sha256) {
      case Err(e) => return Err(Path(e));
      case Ok(preimage) => return Ok(preimage);
    }
  }

  /** A directory without a problem has names that normalise, no two kept ones alike. */
  lemma ValidatedNames(bytes: seq<Byte>, decode: ZipDirectory.Decode)
    requires ZipDirectory.Validation(bytes, decode) == None
    ensures ZipDirectory.NamesOk(DirectoryNames(bytes, decode))
  {
    hide ZipDirectory.Visit, ZipDirectory.FirstRefused, ZipDirectory.NamesOk, ZipDirectory.EndRecordFrom;
    hide ZipDirectory.ReadUInt16LE, ZipDirectory.ReadUInt32LE;
    ZipDirectory.FirstRefusedNone(DirectoryNames(bytes, decode), {});
  }

  /** What the check promises the hash. */
  lemma NamesAreAccepted(archive: seq<Entry>, names: seq<string>)
    requires ZipDirectory.NamesOk(names) && FromDirectory(archive, names)
    ensures Accepted(archive) && DistinctPaths(archive)
  {
    hide NormalizeArchivePath;
    forall k | 0 <= k < |archive| ensures NormalizeArchivePath(archive[k].path).Ok? {
      assert archive[k].path in names;
    }
    forall i, j | 0 <= i < j < |archive| && NormalizeArchivePath(archive[i].path) == NormalizeArchivePath(archive[j].path)
      ensures NormalizeArchivePath(archive[i].path) == Ok(None)
    {
      assert archive[i].path in names && archive[j].path in names;
      var a :| 0 <= a < |names| && names[a] == archive[i].path;
      var b :| 0 <= b < |names| && names[b] == archive[j].path;
    }
  }

  /** A bundle whose directory is in order is hashed; there is no refusal left. */
  lemma ValidatedIsHashed(bytes: seq<Byte>, decode: ZipDirectory.Decode, unzip: Unzip, sha256: Sha256)
    requires Unzips(bytes, decode, unzip) && ZipDirectory.Validation(bytes, decode) == None
    ensures Preimage(unzip(bytes), sha256).Ok?
    ensures ReadsBack(Preimage(unzip(bytes), sha256).value, unzip(bytes), sha256)
  {
    hide ZipDirectory.Validation, DirectoryNames, FromDirectory, Preimage, ReadPreimage, Lists;
    ValidatedNames(bytes, decode);
    NamesAreAccepted(unzip(bytes), DirectoryNames(bytes, decode));
    PreimageReadsBack(unzip(bytes), sha256);
  }

  /** Two bundles whose directories are in order are hashed alike if and only if they hold
      the same files under the same normalised paths: for any bytes at all. */
  lemma HashedAlikeExactly(a: seq<Byte>, b: seq<Byte>, decode: ZipDirectory.Decode, unzip: Unzip, sha256: Sha256)
    requires Unzips(a, decode, unzip) && Unzips(b, decode, unzip)
    requires ZipDirectory.Validation(a, decode) == None && ZipDirectory.Validation(b, decode) == None
    ensures Preimage(unzip(a), sha256) == Preimage(unzip(b), sha256) <==> Files(unzip(a), sha256) == Files(unzip(b), sha256)
  {
    hide ZipDirectory.Validation, DirectoryNames, FromDirectory, Preimage, Files;
    ValidatedNames(a, decode);
    ValidatedNames(b, decode);
    NamesAreAccepted(unzip(a), DirectoryNames(a, decode));
    NamesAreAccepted(unzip(b), DirectoryNames(b, decode));
    PreimageExactlyFiles(unzip(a), unzip(b), sha256);
  }
}
