/** Reading one file out of a ustar archive (cli/src/baseBytecode.ts; ustar Interchange
    Format of the pax utility, IEEE Std 1003.1). */
module TarReader {
  import opened Wrappers
  import opened Seqs
  import opened Encoding

  /** `Buffer.toString("utf8")`. */
  type Decode = seq<Byte> -> string

  const BLOCK: nat := 512

  // ----- Fields ---------------------------------------------------------------

  /** The bytes up to the first NUL. */
  function BeforeNul(field: seq<Byte>): (text: seq<Byte>)
    ensures |text| <= |field| && text == field[..|text|] && 0 !in text
    ensures |text| < |field| ==> field[|text|] == 0
  {
    if field == [] || field[0] == 0 then [] else [field[0]] + BeforeNul(field[1..])
  }

  lemma {:induction false} BeforeNulField(text: seq<Byte>, rest: seq<Byte>)
    requires 0 !in text && (rest == [] || rest[0] == 0)
    ensures BeforeNul(text + rest) == text
    decreases |text|
  {
    if text == [] {
      assert text + rest == rest;
    } else {
      assert (text + rest)[1..] == text[1..] + rest;
      BeforeNulField(text[1..], rest);
    }
  }

  // ----- `subarray` ------------------------------------------------------------

  /** Where an index of `subarray` lies: a negative one counts from the back. */
  function Clamp(n: int, length: nat): (at: nat)
    ensures at <= length
  {
    if n >= 0 then (if n < length then n else length) else if length + n >= 0 then length + n else 0
  }

  function Subarray(bytes: seq<Byte>, begin: int, end: int): seq<Byte> {
    if Clamp(end, |bytes|) <= Clamp(begin, |bytes|) then [] else bytes[Clamp(begin, |bytes|)..Clamp(end, |bytes|)]
  }

  lemma SubarrayInside(bytes: seq<Byte>, begin: nat, end: nat)
    requires begin <= end <= |bytes|
    ensures Subarray(bytes, begin, end) == bytes[begin..end]
  {
  }

  /** The loop runs on past the end of a short block, where every byte is `undefined`. */
  method ReadTarString(block: seq<Byte>, offset: nat, length: nat, decode: Decode) returns (text: string)
    ensures text == decode(BeforeNul(Subarray(block, offset, offset + length)))
  {
    ghost var field := Subarray(block, offset, offset + length);
    var end, limit := offset, offset + length;
    while end < limit && (end >= |block| || block[end] != 0)
      invariant offset <= end <= limit
      invariant end <= |block| ==> end - offset <= |field| && 0 !in field[..end - offset]
      invariant end > |block| ==> 0 !in field
    {
      if end < |block| {
        assert field[end - offset] == block[end];
        assert field[..end + 1 - offset] == field[..end - offset] + [field[end - offset]];
      } else {
        assert field[..|field|] == field;
      }
      end := end + 1;
    }
    var read := Subarray(block, offset, end);
    StringEnds(field, read);
    text := decode(read);
  }

  lemma StringEnds(field: seq<Byte>, read: seq<Byte>)
    requires read <= field && 0 !in read && (|read| < |field| ==> field[|read|] == 0)
    ensures BeforeNul(field) == read
  {
    BeforeNulField(read, field[|read|..]);
    assert field == read + field[|read|..];
  }

  // ----- Numbers --------------------------------------------------------------

  /** What `trim` removes, among the characters of latin1. */
  predicate IsSpace(b: Byte) {
    b in {9, 10, 11, 12, 13, 32, 160}
  }

  function TrimStart(s: seq<Byte>): seq<Byte> {
    if s != [] && IsSpace(s[0]) then TrimStart(s[1..]) else s
  }

  function TrimEnd(s: seq<Byte>): seq<Byte> {
    if s != [] && IsSpace(s[|s| - 1]) then TrimEnd(s[..|s| - 1]) else s
  }

  predicate IsOctal(b: Byte) {
    0x30 <= b <= 0x37
  }

  /** The digits `parseInt(…, 8)` reads: all of them up to the first that is not one. */
  function OctalDigits(s: seq<Byte>, soFar: nat): nat {
    if s != [] && IsOctal(s[0]) then OctalDigits(s[1..], soFar * 8 + (s[0] as int - 0x30)) else soFar
  }

  /** `parseInt(text, 8)` with `NaN` read as 0: a sign is accepted. */
  function ParseInt8(text: seq<Byte>): int {
    if text != [] && text[0] == 0x2D then 0 - OctalDigits(text[1..], 0)
    else if text != [] && text[0] == 0x2B then OctalDigits(text[1..], 0)
    else OctalDigits(text, 0)
  }

  function ReadTarOctal(block: seq<Byte>, offset: nat, length: nat): int {
    ParseInt8(TrimEnd(TrimStart(BeforeNul(Subarray(block, offset, offset + length)))))
  }

  function Zeros(n: nat): (z: seq<Byte>)
    ensures |z| == n && forall k | 0 <= k < n :: z[k] == 0
  {
    seq(n, _ => 0)
  }

  predicate IsZeroBlock(block: seq<Byte>) {
    forall k | 0 <= k < |block| :: block[k] == 0
  }

  // ----- One round ------------------------------------------------------------

  /** Where the loop is: back at its head with an offset, or through. */
  datatype Loop = At(offset: int) | Returned(entry: Option<seq<Byte>>)

  function FullPath(header: seq<Byte>, decode: Decode): string {
    var name, prefix := decode(BeforeNul(Subarray(header, 0, 100))), decode(BeforeNul(Subarray(header, 345, 500)));
    if |prefix| > 0 then prefix + "/" + name else name
  }

  function Size(header: seq<Byte>): int {
    ReadTarOctal(header, 124, 12)
  }

  /** A regular file's header of that path; a short block has no type flag. */
  predicate IsMatch(header: seq<Byte>, target: string, decode: Decode) {
    |header| > 156 && header[156] in {0x30, 0} && FullPath(header, decode) == target
  }

  /** `Math.ceil(size / 512) * 512`. */
  function Padded(size: int): (padded: int)
    ensures size <= padded < size + BLOCK && padded % BLOCK == 0
  {
    (size + 511) / 512 * 512
  }

  function HeaderAt(tar: seq<Byte>, offset: int): seq<Byte> {
    Subarray(tar, offset, offset + BLOCK)
  }

  /** The loop once around from `offset`, which nothing keeps from being negative. */
  function Round(tar: seq<Byte>, offset: int, target: string, decode: Decode): Loop {
    if offset + BLOCK > |tar| then Returned(None)
    else
      var header := HeaderAt(tar, offset);
      var dataStart := offset + BLOCK;
      if IsZeroBlock(header) || dataStart + Size(header) > |tar| then Returned(None)
      else if IsMatch(header, target, decode) then Returned(Some(Subarray(tar, dataStart, dataStart + Size(header))))
      else At(dataStart + Padded(Size(header)))
  }

  function After(tar: seq<Byte>, offset: int, target: string, decode: Decode, rounds: nat): Loop
    decreases rounds
  {
    if rounds == 0 then At(offset)
    else
      match Round(tar, offset, target, decode)
      case Returned(entry) => Returned(entry)
      case At(next) => After(tar, next, target, decode, rounds - 1)
  }

  /** The loop comes to an end; `TarEnds` says when. */
  ghost predicate Ends(tar: seq<Byte>, target: string, decode: Decode) {
    exists rounds: nat :: After(tar, 0, target, decode, rounds).Returned?
  }

  // ----- The code -------------------------------------------------------------

  method ReadHeader(header: seq<Byte>, targetPath: string, decode: Decode) returns (isMatch: bool, size: int)
    ensures isMatch == IsMatch(header, targetPath, decode) && size == Size(header)
  {
    var name := ReadTarString(header, 0, 100, decode);
    var prefix := ReadTarString(header, 345, 155, decode);
    var fullPath := if |prefix| > 0 then prefix + "/" + name else name;
    size := ReadTarOctal(header, 124, 12);
    isMatch := |header| > 156 && (header[156] == 0x30 || header[156] == 0) && fullPath == targetPath;
  }

  /** On every archive on which the loop ends at all: its end. */
  method ExtractTarEntry(tar: seq<Byte>, targetPath: string, decode: Decode) returns (entry: Option<seq<Byte>>)
    requires Ends(tar, targetPath, decode)
    ensures exists rounds: nat :: After(tar, 0, targetPath, decode, rounds) == Returned(entry)
  {
    hide FullPath, Size, Subarray, Padded, IsZeroBlock, IsMatch;
    ghost var rounds: nat :| After(tar, 0, targetPath, decode, rounds).Returned?;
    ghost var left := rounds;
    var offset := 0;
    while offset + BLOCK <= |tar|
      invariant After(tar, 0, targetPath, decode, rounds) == After(tar, offset, targetPath, decode, left)
      decreases left
    {
      var header := HeaderAt(tar, offset);
      if IsZeroBlock(header) {
        assert After(tar, 0, targetPath, decode, rounds) == Returned(None);
        return None;
      }
      var isMatch, size := ReadHeader(header, targetPath, decode);
      var dataStart := offset + BLOCK;
      var dataEnd := dataStart + size;
      if dataEnd > |tar| {
        assert After(tar, 0, targetPath, decode, rounds) == Returned(None);
        return None;
      }
      if isMatch {
        entry := Some(Subarray(tar, dataStart, dataEnd));
        assert After(tar, 0, targetPath, decode, rounds) == Returned(entry);
        return;
      }
      offset := dataStart + Padded(size);
      left := left - 1;
    }
    assert After(tar, 0, targetPath, decode, rounds) == Returned(None);
    return None;
  }

  // ----- Rounds in a row ------------------------------------------------------

  lemma {:induction false} AfterSum(tar: seq<Byte>, offset: int, target: string, decode: Decode, a: nat, b: nat)
    ensures After(tar, offset, target, decode, a + b) ==
      match After(tar, offset, target, decode, a)
      case Returned(entry) => Returned(entry)
      case At(next) => After(tar, next, target, decode, b)
    decreases a
  {
    hide Round;
    if a > 0 && Round(tar, offset, target, decode).At? {
      AfterSum(tar, Round(tar, offset, target, decode).offset, target, decode, a - 1, b);
    }
  }

  /** The loop comes to its head with that offset. */
  ghost predicate Reached(tar: seq<Byte>, target: string, decode: Decode, at: int) {
    exists rounds: nat :: After(tar, 0, target, decode, rounds) == At(at)
  }

  lemma ReachedNext(tar: seq<Byte>, target: string, decode: Decode, rounds: nat, at: int)
    requires After(tar, 0, target, decode, rounds) == At(at)
    ensures After(tar, 0, target, decode, rounds + 1) == Round(tar, at, target, decode)
  {
    hide Round;
    AfterSum(tar, 0, target, decode, rounds, 1);
    assert After(tar, at, target, decode, 1) == Round(tar, at, target, decode) by {
      assert Round(tar, at, target, decode).At? ==>
        After(tar, Round(tar, at, target, decode).offset, target, decode, 0) == Round(tar, at, target, decode);
    }
  }

  // ----- What comes back ------------------------------------------------------

  /** The header whose data comes back. */
  ghost predicate Answers(tar: seq<Byte>, target: string, decode: Decode, at: int, data: seq<Byte>) {
    && Reached(tar, target, decode, at) && at + BLOCK <= |tar|
    && IsMatch(HeaderAt(tar, at), target, decode)
    && data == Subarray(tar, at + BLOCK, at + BLOCK + Size(HeaderAt(tar, at)))
    && at + BLOCK + Size(HeaderAt(tar, at)) <= |tar|
  }

  /** On any bytes: what is returned is the slice a header asks for that the loop reached,
      a regular file's of that path; and where that header declares an unsigned size at an
      offset in the archive, all the data it declares. */
  lemma {:induction false} NeverTruncated(tar: seq<Byte>, target: string, decode: Decode, rounds: nat, data: seq<Byte>)
    requires After(tar, 0, target, decode, rounds) == Returned(Some(data))
    ensures exists at: int :: Answers(tar, target, decode, at, data)
    ensures forall at: nat | Answers(tar, target, decode, at, data) && Size(HeaderAt(tar, at)) >= 0 ::
      |data| == Size(HeaderAt(tar, at)) && data == tar[at + BLOCK..at + BLOCK + |data|]
    decreases rounds
  {
    hide Size, IsMatch, IsZeroBlock;
    var before := After(tar, 0, target, decode, rounds - 1);
    AfterSum(tar, 0, target, decode, rounds - 1, 1);
    if before.Returned? {
      NeverTruncated(tar, target, decode, rounds - 1, data);
    } else {
      ReachedNext(tar, target, decode, rounds - 1, before.offset);
      assert Answers(tar, target, decode, before.offset, data);
    }
  }

  /** A header the loop can reach, in the archive or before its start, that declares a
      negative size gives back bytes it does not declare exactly when the end it asks for
      lies before the archive's start, its data would not, and the end, counted from the
      back, lies behind where the data would begin. */
  lemma SignedSlice(tar: seq<Byte>, at: int, size: int)
    requires at + BLOCK <= |tar| && size < 0
    ensures Subarray(tar, at + BLOCK, at + BLOCK + size) != [] <==>
      at + BLOCK + size < 0 <= at + BLOCK && 0 < |tar| + size
    ensures at + BLOCK + size < 0 <= at + BLOCK && 0 < |tar| + size ==>
      |Subarray(tar, at + BLOCK, at + BLOCK + size)| == |tar| + size
  {
  }
}
