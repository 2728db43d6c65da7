/** What a central directory must look like for the walk to go through it, byte for byte:
    the converse of reading back what was written. */
module ZipWalk {
  import opened Wrappers
  import opened Encoding
  import opened ZipDirectory

  lemma Bytes16(bytes: seq<Byte>, offset: nat)
    requires offset + 2 <= |bytes|
    ensures Write16(ReadUInt16LE(bytes, offset)) == bytes[offset..offset + 2]
  {
  }

  lemma Bytes32(bytes: seq<Byte>, offset: nat)
    requires offset + 4 <= |bytes|
    ensures Write32(ReadUInt32LE(bytes, offset)) == bytes[offset..offset + 4]
  {
    var a, b, c, d := bytes[offset] as int, bytes[offset + 1] as int, bytes[offset + 2] as int, bytes[offset + 3] as int;
    var n := ReadUInt32LE(bytes, offset);
    assert n == a + 0x100 * b + 0x1_0000 * c + 0x100_0000 * d;
    assert n / 0x100 == b + 0x100 * c + 0x1_0000 * d && n / 0x1_0000 == c + 0x100 * d && n / 0x100_0000 == d;
  }

  /** A header with this name, of these lengths of extra field and comment, stands here. */
  ghost predicate HeaderAt(bytes: seq<Byte>, offset: nat, name: seq<Byte>, extra: nat, comment: nat) {
    && |name| < 0x1_0000 && extra < 0x1_0000 && comment < 0x1_0000
    && offset + 46 + |name| <= |bytes|
    && bytes[offset..offset + 4] == Write32(ENTRY_SIGNATURE)
    && bytes[offset + 28..offset + 30] == Write16(|name|)
    && bytes[offset + 30..offset + 32] == Write16(extra)
    && bytes[offset + 32..offset + 34] == Write16(comment)
    && bytes[offset + 46..offset + 46 + |name|] == name
  }

  /** Headers with these names stand end to end, from `offset` to `end`. */
  ghost predicate HeadersAt(bytes: seq<Byte>, offset: nat, names: seq<seq<Byte>>, end: nat)
    decreases |names|
  {
    if names == [] then offset == end
    else
      exists extra: nat, comment: nat ::
        HeaderAt(bytes, offset, names[0], extra, comment)
        && HeadersAt(bytes, offset + 46 + |names[0]| + extra + comment, names[1..], end)
  }

  /** Why the walk goes no further. */
  ghost predicate StopsAt(bytes: seq<Byte>, end: nat, problem: ZipError) {
    match problem
    case Malformed => end + 46 <= |bytes| && bytes[end..end + 4] != Write32(ENTRY_SIGNATURE)
    case OutOfBounds =>
      || end + 46 > |bytes|
      || (bytes[end..end + 4] == Write32(ENTRY_SIGNATURE)
          && exists n: nat :: n < 0x1_0000 && bytes[end + 28..end + 30] == Write16(n) && end + 46 + n > |bytes|)
    case _ => false
  }

  lemma SignatureIs(bytes: seq<Byte>, offset: nat)
    requires offset + 4 <= |bytes|
    ensures ReadUInt32LE(bytes, offset) == ENTRY_SIGNATURE <==> bytes[offset..offset + 4] == Write32(ENTRY_SIGNATURE)
  {
    Bytes32(bytes, offset);
    Write32Injective(ReadUInt32LE(bytes, offset), ENTRY_SIGNATURE);
  }

  lemma Write32Injective(m: nat, n: nat)
    requires m < 0x1_0000_0000 && n < 0x1_0000_0000
    ensures Write32(m) == Write32(n) ==> m == n
  {
    if Write32(m) == Write32(n) {
      Parts32(m);
      Parts32(n);
      assert forall k | 0 <= k < 4 :: Write32(m)[k] == Write32(n)[k];
    }
  }

  lemma Parts32(n: nat)
    requires n < 0x1_0000_0000
    ensures var w := Write32(n); n == w[0] as int + 0x100 * w[1] as int + 0x1_0000 * w[2] as int + 0x100_0000 * w[3] as int
  {
  }

  lemma HeaderStands(bytes: seq<Byte>, offset: nat)
    requires offset + 46 <= |bytes| && ReadUInt32LE(bytes, offset) == ENTRY_SIGNATURE
    requires offset + 46 + ReadUInt16LE(bytes, offset + 28) <= |bytes|
    ensures HeaderAt(bytes, offset, bytes[offset + 46..offset + 46 + ReadUInt16LE(bytes, offset + 28)],
                     ReadUInt16LE(bytes, offset + 30), ReadUInt16LE(bytes, offset + 32))
  {
    SignatureIs(bytes, offset);
    Bytes16(bytes, offset + 28);
    Bytes16(bytes, offset + 30);
    Bytes16(bytes, offset + 32);
  }

  /** On any bytes: the walk takes exactly the names of headers that stand end to end, and it
      is through with all of them, or a header that is not one or runs over the end stands next. */
  lemma {:induction false} VisitExactly(bytes: seq<Byte>, offset: nat, count: nat)
    ensures var (names, problem) := Visit(bytes, offset, count);
      && (problem.None? <==> |names| == count) && |names| <= count
      && exists end: nat :: HeadersAt(bytes, offset, names, end) && (problem.Some? ==> StopsAt(bytes, end, problem.value))
    decreases count
  {
    hide HeaderAt, HeadersAt, StopsAt, ReadUInt16LE, ReadUInt32LE;
    NoneStand(bytes, offset);
    if count == 0 {
    } else if offset + 46 > |bytes| || ReadUInt32LE(bytes, offset) != ENTRY_SIGNATURE
        || offset + 46 + ReadUInt16LE(bytes, offset + 28) > |bytes| {
      StopsHere(bytes, offset, count);
    } else {
      var n := ReadUInt16LE(bytes, offset + 28);
      var extra, comment := ReadUInt16LE(bytes, offset + 30), ReadUInt16LE(bytes, offset + 32);
      var next := offset + 46 + n + extra + comment;
      HeaderStands(bytes, offset);
      VisitExactly(bytes, next, count - 1);
      var (rest, problem) := Visit(bytes, next, count - 1);
      var end: nat :| HeadersAt(bytes, next, rest, end) && (problem.Some? ==> StopsAt(bytes, end, problem.value));
      OneMoreStands(bytes, offset, bytes[offset + 46..offset + 46 + n], extra, comment, rest, end);
    }
  }

  lemma NoneStand(bytes: seq<Byte>, offset: nat)
    ensures HeadersAt(bytes, offset, [], offset)
  {
  }

  lemma StopsHere(bytes: seq<Byte>, offset: nat, count: nat)
    requires count > 0
    requires offset + 46 > |bytes| || ReadUInt32LE(bytes, offset) != ENTRY_SIGNATURE
      || offset + 46 + ReadUInt16LE(bytes, offset + 28) > |bytes|
    ensures var (names, problem) := Visit(bytes, offset, count);
      names == [] && problem.Some? && StopsAt(bytes, offset, problem.value)
  {
    if offset + 46 <= |bytes| {
      SignatureIs(bytes, offset);
      Bytes16(bytes, offset + 28);
    }
    hide ReadUInt16LE, ReadUInt32LE, Write16, Write32;
  }

  lemma OneMoreStands(bytes: seq<Byte>, offset: nat, name: seq<Byte>, extra: nat, comment: nat, rest: seq<seq<Byte>>, end: nat)
    requires HeaderAt(bytes, offset, name, extra, comment) && HeadersAt(bytes, offset + 46 + |name| + extra + comment, rest, end)
    ensures HeadersAt(bytes, offset, [name] + rest, end)
  {
    hide HeaderAt;
    var names := [name] + rest;
    assert names[0] == name && names[1..] == rest;
    assert HeaderAt(bytes, offset, names[0], extra, comment)
        && HeadersAt(bytes, offset + 46 + |names[0]| + extra + comment, names[1..], end);
  }
}
