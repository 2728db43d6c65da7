/** When the tar reader's loop comes to an end: size fields are signed, so it need not. */
module TarEnds {
  import opened Wrappers
  import opened Seqs
  import opened Encoding
  import opened TarReader

  // ----- One round ------------------------------------------------------------

  /** A round that goes on moves forward exactly after a size above -512, and stands still
      exactly after one from -1023 to -512; below that it moves back. */
  lemma RoundMoves(tar: seq<Byte>, offset: int, target: string, decode: Decode)
    requires Round(tar, offset, target, decode).At?
    ensures var next, size := Round(tar, offset, target, decode).offset, Size(HeaderAt(tar, offset));
      && (next >= offset + BLOCK <==> size > -512)
      && (next == offset <==> -1024 < size <= -512)
      && (next < offset <==> size <= -1024)
      && (next - offset) % BLOCK == 0
  {
    hide Size, IsZeroBlock, IsMatch, Subarray;
    var size := Size(HeaderAt(tar, offset));
    assert Round(tar, offset, target, decode).offset == offset + BLOCK + Padded(size);
    PaddedBands(size);
  }

  lemma PaddedBands(size: int)
    ensures Padded(size) >= 0 <==> size > -512
    ensures Padded(size) == -512 <==> -1024 < size <= -512
    ensures Padded(size) < -512 <==> size <= -1024
    ensures (Padded(size) + BLOCK) % BLOCK == 0
  {
  }

  /** The headers a loop can go on from lie around the archive: an offset further before its
      start than the archive is long gives an empty block, and the loop stops. */
  lemma RoundIsNear(tar: seq<Byte>, offset: int, target: string, decode: Decode)
    requires Round(tar, offset, target, decode).At?
    ensures -|tar| - BLOCK < offset <= |tar| - BLOCK
  {
    hide Size, IsMatch;
    assert IsZeroBlock([]);
  }

  // ----- Sizes that are unsigned ----------------------------------------------

  /** What `parseInt` is given for a header's size. */
  function SizeText(header: seq<Byte>): seq<Byte> {
    TrimEnd(TrimStart(BeforeNul(Subarray(header, 124, 136))))
  }

  predicate IsSigned(header: seq<Byte>) {
    SizeText(header) != [] && SizeText(header)[0] == 0x2D
  }

  lemma UnsignedSize(header: seq<Byte>)
    ensures Size(header) < 0 ==> IsSigned(header)
  {
  }

  /** Every block that could be a header has a size field above -512. */
  ghost predicate SizesOk(tar: seq<Byte>) {
    forall k: nat | k + BLOCK <= |tar| :: Size(HeaderAt(tar, k)) > -512
  }

  lemma {:induction false} EndsForward(tar: seq<Byte>, offset: nat, target: string, decode: Decode, rounds: nat)
    requires SizesOk(tar) && rounds > 0 && offset + BLOCK * rounds > |tar|
    ensures After(tar, offset, target, decode, rounds).Returned?
    decreases rounds
  {
    hide Size, IsZeroBlock, IsMatch, Round, HeaderAt;
    if Round(tar, offset, target, decode).At? {
      RoundIsNear(tar, offset, target, decode);
      RoundMoves(tar, offset, target, decode);
      EndsForward(tar, Round(tar, offset, target, decode).offset, target, decode, rounds - 1);
    }
  }

  /** On any bytes: no size field with a minus sign, or none of -512 or less, and the loop
      has come to its end after as many rounds as there are blocks, and one. */
  lemma UnsignedEnds(tar: seq<Byte>, target: string, decode: Decode)
    requires SizesOk(tar) || forall k: nat | k + BLOCK <= |tar| :: !IsSigned(HeaderAt(tar, k))
    ensures After(tar, 0, target, decode, |tar| / BLOCK + 1).Returned? && Ends(tar, target, decode)
  {
    forall k: nat | k + BLOCK <= |tar| ensures Size(HeaderAt(tar, k)) > -512 {
      UnsignedSize(HeaderAt(tar, k));
    }
    EndsForward(tar, 0, target, decode, |tar| / BLOCK + 1);
  }

  // ----- Exactly when ---------------------------------------------------------

  lemma StaysReturned(tar: seq<Byte>, target: string, decode: Decode, a: nat, b: nat)
    requires a <= b && After(tar, 0, target, decode, b).At?
    ensures After(tar, 0, target, decode, a).At?
  {
    AfterSum(tar, 0, target, decode, a, b - a);
  }

  /** A loop that comes back to an offset goes round for ever. */
  lemma {:induction false} Circles(tar: seq<Byte>, target: string, decode: Decode, i: nat, j: nat, rounds: nat)
    requires i < j && After(tar, 0, target, decode, j).At? && After(tar, 0, target, decode, i) == After(tar, 0, target, decode, j)
    ensures After(tar, 0, target, decode, rounds).At?
    decreases rounds
  {
    hide After;
    if rounds <= j {
      StaysReturned(tar, target, decode, rounds, j);
    } else {
      AfterSum(tar, 0, target, decode, j, rounds - j);
      AfterSum(tar, 0, target, decode, i, rounds - j);
      Circles(tar, target, decode, i, j, i + (rounds - j));
    }
  }

  lemma {:induction false} DistinctCard(s: seq<int>)
    requires forall i, j | 0 <= i < j < |s| :: s[i] != s[j]
    ensures |set x | x in s| == |s|
    decreases |s|
  {
    if s != [] {
      DistinctCard(s[1..]);
      HeadTail(s);
      assert (set x | x in s) == (set x | x in s[1..]) + {s[0]};
    }
  }

  function Interval(lo: int, hi: int): (s: set<int>)
    requires lo <= hi
    ensures forall x :: x in s <==> lo <= x < hi
    ensures |s| == hi - lo
    decreases hi - lo
  {
    if lo == hi then {} else Interval(lo, hi - 1) + {hi - 1}
  }

  lemma {:induction false} SubsetCard<T>(a: set<T>, b: set<T>)
    requires a <= b
    ensures |a| <= |b|
    decreases |a|
  {
    if a != {} {
      var x :| x in a;
      SubsetCard(a - {x}, b - {x});
    }
  }

  lemma Pigeonhole(s: seq<int>, lo: int, hi: int)
    requires lo <= hi && |s| > hi - lo && forall k | 0 <= k < |s| :: lo <= s[k] < hi
    ensures exists i, j :: 0 <= i < j < |s| && s[i] == s[j]
  {
    if forall i, j | 0 <= i < j < |s| :: s[i] != s[j] {
      DistinctCard(s);
      var values := set x | x in s;
      SubsetCard(values, Interval(lo, hi));
    }
  }

  /** More rounds than there are blocks around the archive. */
  function Enough(tar: seq<Byte>): nat {
    2 * (|tar| / BLOCK) + 2
  }

  lemma {:induction false} OffsetIsNear(tar: seq<Byte>, target: string, decode: Decode, rounds: nat)
    requires After(tar, 0, target, decode, rounds + 1).At?
    ensures After(tar, 0, target, decode, rounds).At?
    ensures var at := After(tar, 0, target, decode, rounds).offset;
      at % BLOCK == 0 && -(|tar| / BLOCK) - 1 <= at / BLOCK < |tar| / BLOCK
    decreases rounds
  {
    hide After, Round, Size;
    StaysReturned(tar, target, decode, rounds, rounds + 1);
    var at := After(tar, 0, target, decode, rounds).offset;
    ReachedNext(tar, target, decode, rounds, at);
    RoundIsNear(tar, at, target, decode);
    if rounds == 0 {
      AfterNone(tar, target, decode);
    } else {
      OffsetIsNear(tar, target, decode, rounds - 1);
      var before := After(tar, 0, target, decode, rounds - 1).offset;
      ReachedNext(tar, target, decode, rounds - 1, before);
      RoundMoves(tar, before, target, decode);
      assert at == before + (at - before);
    }
  }

  lemma AfterNone(tar: seq<Byte>, target: string, decode: Decode)
    ensures After(tar, 0, target, decode, 0) == At(0)
  {
  }

  /** A loop that goes on long enough comes back to an offset. */
  lemma ComesBack(tar: seq<Byte>, target: string, decode: Decode) returns (i: nat, j: nat)
    requires After(tar, 0, target, decode, Enough(tar)).At?
    ensures i < j < Enough(tar) && After(tar, 0, target, decode, j).At?
    ensures After(tar, 0, target, decode, i) == After(tar, 0, target, decode, j)
  {
    hide After;
    var n := Enough(tar);
    forall k | 0 <= k < n
      ensures After(tar, 0, target, decode, k).At?
      ensures After(tar, 0, target, decode, k).offset % BLOCK == 0
      ensures -(|tar| / BLOCK) - 1 <= After(tar, 0, target, decode, k).offset / BLOCK < |tar| / BLOCK
    {
      StaysReturned(tar, target, decode, k + 1, n);
      OffsetIsNear(tar, target, decode, k);
    }
    var blocks := seq(n, k requires 0 <= k < n => After(tar, 0, target, decode, k).offset / BLOCK);
    Pigeonhole(blocks, -(|tar| / BLOCK) - 1, |tar| / BLOCK);
    i, j :| 0 <= i < j < |blocks| && blocks[i] == blocks[j];
  }

  /** The loop ends if and only if it has ended after so many rounds; and if and only if it
      never comes back to an offset in them. */
  lemma EndsExactly(tar: seq<Byte>, target: string, decode: Decode)
    ensures Ends(tar, target, decode) <==> After(tar, 0, target, decode, Enough(tar)).Returned?
    ensures Ends(tar, target, decode) <==>
      forall i, j | 0 <= i < j < Enough(tar) && After(tar, 0, target, decode, j).At? ::
        After(tar, 0, target, decode, i) != After(tar, 0, target, decode, j)
  {
    hide After;
    if After(tar, 0, target, decode, Enough(tar)).At? {
      var i, j := ComesBack(tar, target, decode);
      forall rounds: nat ensures After(tar, 0, target, decode, rounds).At? {
        Circles(tar, target, decode, i, j, rounds);
      }
    } else {
      forall i, j | 0 <= i < j < Enough(tar) && After(tar, 0, target, decode, j).At?
        ensures After(tar, 0, target, decode, i) != After(tar, 0, target, decode, j)
      {
        if After(tar, 0, target, decode, i) == After(tar, 0, target, decode, j) {
          Circles(tar, target, decode, i, j, Enough(tar));
        }
      }
    }
  }

  // ----- Exactly when, read off the headers -----------------------------------

  /** A header the loop reaches and goes on from. */
  ghost predicate GoesOnFrom(tar: seq<Byte>, target: string, decode: Decode, at: int) {
    Reached(tar, target, decode, at) && Round(tar, at, target, decode).At?
  }

  lemma {:induction false} MovesForward(tar: seq<Byte>, target: string, decode: Decode, rounds: nat)
    requires forall at | GoesOnFrom(tar, target, decode, at) :: Size(HeaderAt(tar, at)) > -512
    ensures After(tar, 0, target, decode, rounds).At? ==> After(tar, 0, target, decode, rounds).offset >= BLOCK * rounds
    decreases rounds
  {
    hide After, Round, Size, HeaderAt;
    if rounds == 0 {
      AfterNone(tar, target, decode);
    } else if After(tar, 0, target, decode, rounds).At? {
      StaysReturned(tar, target, decode, rounds - 1, rounds);
      var before := After(tar, 0, target, decode, rounds - 1).offset;
      ReachedNext(tar, target, decode, rounds - 1, before);
      MovesForward(tar, target, decode, rounds - 1);
      assert GoesOnFrom(tar, target, decode, before);
      RoundMoves(tar, before, target, decode);
    }
  }

  /** Where no header the loop goes on from sends it back, it ends if and only if every one
      of them has a size above -512; the first of the others it never leaves. */
  lemma EndsByTheHeaders(tar: seq<Byte>, target: string, decode: Decode)
    requires forall at | GoesOnFrom(tar, target, decode, at) :: Size(HeaderAt(tar, at)) > -1024
    ensures Ends(tar, target, decode) <==> forall at | GoesOnFrom(tar, target, decode, at) :: Size(HeaderAt(tar, at)) > -512
  {
    hide After, Round, Size, HeaderAt;
    if forall at | GoesOnFrom(tar, target, decode, at) :: Size(HeaderAt(tar, at)) > -512 {
      var n := |tar| / BLOCK;
      MovesForward(tar, target, decode, n);
      if After(tar, 0, target, decode, n).At? {
        var at := After(tar, 0, target, decode, n).offset;
        ReachedNext(tar, target, decode, n, at);
        if Round(tar, at, target, decode).At? {
          RoundIsNear(tar, at, target, decode);
        }
        assert After(tar, 0, target, decode, n + 1).Returned?;
      }
    } else {
      var at :| GoesOnFrom(tar, target, decode, at) && Size(HeaderAt(tar, at)) <= -512;
      StandsStill(tar, target, decode, at);
    }
  }

  lemma StandsStill(tar: seq<Byte>, target: string, decode: Decode, at: int)
    requires GoesOnFrom(tar, target, decode, at) && -1024 < Size(HeaderAt(tar, at)) <= -512
    ensures !Ends(tar, target, decode)
  {
    hide After, Round, Size, HeaderAt;
    RoundMoves(tar, at, target, decode);
    var n: nat :| After(tar, 0, target, decode, n) == At(at);
    ReachedNext(tar, target, decode, n, at);
    forall rounds: nat ensures After(tar, 0, target, decode, rounds).At? {
      Circles(tar, target, decode, n, n + 1, rounds);
    }
  }

  // ----- Archives -------------------------------------------------------------

  /** A header without a name, of that type and with that size field. */
  function Header(typeFlag: Byte, size: seq<Byte>): (header: seq<Byte>)
    requires |size| <= 12
    ensures |header| == BLOCK
  {
    Zeros(124) + size + Zeros(32 - |size|) + [typeFlag] + Zeros(355)
  }

  /** `-1000` and `-2000`, octal for -512 and -1024. */
  const MINUS_512: seq<Byte> := [0x2D, 0x31, 0x30, 0x30, 0x30]
  const MINUS_1024: seq<Byte> := [0x2D, 0x32, 0x30, 0x30, 0x30]

  lemma HeaderReads(typeFlag: Byte, size: seq<Byte>)
    requires 0 < |size| <= 12 && forall k | 0 <= k < |size| :: size[k] > 0x2C && size[k] < 0x40
    ensures Size(Header(typeFlag, size)) == ParseInt8(size)
    ensures Header(typeFlag, size)[156] == typeFlag && !IsZeroBlock(Header(typeFlag, size))
  {
    hide ParseInt8;
    var header := Header(typeFlag, size);
    assert header[124] == size[0];
    var field := size + Zeros(12 - |size|);
    assert Subarray(header, 124, 136) == field;
    BeforeNulField(size, Zeros(12 - |size|));
    assert TrimStart(size) == size && TrimEnd(size) == size;
  }

  lemma Octals(first: Byte)
    requires 0x30 <= first <= 0x37
    ensures ParseInt8([0x2D, first, 0x30, 0x30, 0x30]) == -512 * (first as int - 0x30)
  {
    var text: seq<Byte> := [0x2D, first, 0x30, 0x30, 0x30];
    var digits: seq<Byte> := [first, 0x30, 0x30, 0x30];
    assert text[1..] == digits;
    var n := first as nat - 0x30;
    assert digits[1..] == [0x30, 0x30, 0x30] && digits[1..][1..] == [0x30, 0x30] && digits[1..][1..][1..] == [0x30];
    assert OctalDigits(digits, 0) == OctalDigits(digits[1..], n) == OctalDigits(digits[1..][1..], 8 * n)
        == OctalDigits(digits[1..][1..][1..], 64 * n) == 512 * n;
  }

  /** An archive of one directory header with the size `-1000`: whatever is looked for, the
      loop never ends. */
  lemma NeverEnds(target: string, decode: Decode)
    ensures !Ends(Header(0x35, MINUS_512), target, decode)
  {
    var tar := Header(0x35, MINUS_512);
    HeaderReads(0x35, MINUS_512);
    Octals(0x31);
    HeaderIsTar(tar);
    AfterNone(tar, target, decode);
    StillAt(tar, target, decode);
    StandsStill(tar, target, decode, 0);
  }

  lemma HeaderIsTar(tar: seq<Byte>)
    requires |tar| >= BLOCK
    ensures HeaderAt(tar, 0) == tar[..BLOCK]
    ensures |tar| == BLOCK ==> HeaderAt(tar, 0) == tar
  {
    SubarrayInside(tar, 0, BLOCK);
  }

  lemma StillAt(tar: seq<Byte>, target: string, decode: Decode)
    requires |tar| == BLOCK && HeaderAt(tar, 0) == tar && !IsZeroBlock(tar) && Size(tar) == -512 && tar[156] == 0x35
    ensures Round(tar, 0, target, decode).At?
  {
    hide Size, IsZeroBlock;
  }

  /** The same header with `-2000` in an archive of that one block: the loop goes back to an
      empty block before the start, which it takes for the end. */
  lemma BackToTheEnd(target: string, decode: Decode)
    ensures After(Header(0x35, MINUS_1024), 0, target, decode, 2) == Returned(None)
  {
    var tar := Header(0x35, MINUS_1024);
    HeaderReads(0x35, MINUS_1024);
    Octals(0x32);
    HeaderIsTar(tar);
    BackOnce(tar, target, decode);
  }

  lemma BackOnce(tar: seq<Byte>, target: string, decode: Decode)
    requires |tar| == BLOCK && HeaderAt(tar, 0) == tar && !IsZeroBlock(tar) && Size(tar) == -1024 && tar[156] == 0x35
    ensures After(tar, 0, target, decode, 2) == Returned(None)
  {
    hide Size;
    assert Round(tar, 0, target, decode) == At(-512);
    assert HeaderAt(tar, -512) == [];
    assert Round(tar, -512, target, decode) == Returned(None);
    assert After(tar, -512, target, decode, 1) == Returned(None);
  }

  /** A regular file's header with `-2000` before three blocks: looking for its path gives
      back two of them, which no header declares. */
  lemma ReturnsUndeclared(decode: Decode)
    ensures var tar := Header(0x30, MINUS_1024) + Zeros(1536);
      && After(tar, 0, FullPath(Header(0x30, MINUS_1024), decode), decode, 1) == Returned(Some(tar[512..1536]))
      && Size(HeaderAt(tar, 0)) < 0
  {
    var header := Header(0x30, MINUS_1024);
    var tar := header + Zeros(1536);
    HeaderReads(0x30, MINUS_1024);
    Octals(0x32);
    HeaderIsTar(tar);
    assert tar[..BLOCK] == header;
    SignedMatch(tar, header, decode);
  }

  lemma SignedMatch(tar: seq<Byte>, header: seq<Byte>, decode: Decode)
    requires |tar| == 2048 && |header| == BLOCK && HeaderAt(tar, 0) == header
    requires !IsZeroBlock(header) && Size(header) == -1024 && header[156] == 0x30
    ensures After(tar, 0, FullPath(header, decode), decode, 1) == Returned(Some(tar[512..1536]))
  {
    hide Size, IsZeroBlock, FullPath;
    assert Subarray(tar, 512, -512) == tar[512..1536];
  }
}
