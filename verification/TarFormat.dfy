/** Archives laid out as the ustar Interchange Format says (pax utility, IEEE Std 1003.1),
    and the reader that takes a file out of them. */
module TarFormat {
  import opened Wrappers
  import opened Seqs
  import opened Encoding
  import opened TarReader

  /** One entry as it lies in the archive: a header block, the data, and filling up to a block. */
  datatype Entry = Entry(header: seq<Byte>, name: seq<Byte>, prefix: seq<Byte>, typeFlag: Byte, data: seq<Byte>, filler: seq<Byte>)

  /** The header's fields say so; the fields the reader does not look at may hold anything. */
  ghost predicate EntryOk(e: Entry) {
    && |e.header| == BLOCK
    && |e.name| <= 100 && 0 !in e.name && e.header[0..100] == StringField(e.name, 100)
    && |e.prefix| <= 155 && 0 !in e.prefix && e.header[345..500] == StringField(e.prefix, 155)
    && e.header[156] == e.typeFlag
    && |e.data| < 0x2_0000_0000 && e.header[124..136] == Octal(|e.data|, 11) + [0]
    && |e.data| + |e.filler| == Padded(|e.data|)
  }

  /** A string field, filled up with NULs. */
  function StringField(text: seq<Byte>, length: nat): (field: seq<Byte>)
    requires |text| <= length
    ensures |field| == length
  {
    text + Zeros(length - |text|)
  }

  function Octal(n: nat, digits: nat): (text: seq<Byte>)
    ensures |text| == digits && forall k | 0 <= k < digits :: IsOctal(text[k])
    decreases digits
  {
    if digits == 0 then [] else Octal(n / 8, digits - 1) + [0x30 + n % 8]
  }

  function WriteEntry(e: Entry): seq<Byte> {
    e.header + e.data + e.filler
  }

  function WriteEntries(entries: seq<Entry>): seq<Byte> {
    if entries == [] then [] else WriteEntry(entries[0]) + WriteEntries(entries[1..])
  }

  /** What ends an archive: fewer bytes than a block, or a zero block and then anything. */
  predicate TrailerOk(trailer: seq<Byte>) {
    |trailer| < BLOCK || IsZeroBlock(trailer[..BLOCK])
  }

  /** A regular file of that path. */
  predicate IsFile(e: Entry, target: string, decode: Decode) {
    var name, prefix := decode(e.name), decode(e.prefix);
    e.typeFlag in {0x30, 0} && (if |prefix| > 0 then prefix + "/" + name else name) == target
  }

  /** The first of them, if there is one. */
  function FirstFile(entries: seq<Entry>, target: string, decode: Decode): Option<seq<Byte>> {
    if entries == [] then None
    else if IsFile(entries[0], target, decode) then Some(entries[0].data)
    else FirstFile(entries[1..], target, decode)
  }

  function Pow8(n: nat): nat {
    if n == 0 then 1 else 8 * Pow8(n - 1)
  }

  lemma {:induction false} DigitsCat(s: seq<Byte>, last: Byte, soFar: nat)
    requires IsOctal(last) && forall k | 0 <= k < |s| :: IsOctal(s[k])
    ensures OctalDigits(s + [last], soFar) == OctalDigits(s, soFar) * 8 + (last as int - 0x30)
    decreases |s|
  {
    if s == [] {
      assert OctalDigits([last][1..], soFar * 8 + (last as int - 0x30)) == soFar * 8 + (last as int - 0x30);
      assert s + [last] == [last];
    } else {
      assert (s + [last])[1..] == s[1..] + [last];
      DigitsCat(s[1..], last, soFar * 8 + (s[0] as int - 0x30));
    }
  }

  lemma {:induction false} OctalReadsBack(n: nat, digits: nat)
    requires n < Pow8(digits)
    ensures OctalDigits(Octal(n, digits), 0) == n
    decreases digits
  {
    if digits > 0 {
      OctalReadsBack(n / 8, digits - 1);
      DigitsCat(Octal(n / 8, digits - 1), 0x30 + n % 8, 0);
    }
  }

  lemma SizeReadsBack(n: nat)
    requires n < 0x2_0000_0000
    ensures ParseInt8(TrimEnd(TrimStart(BeforeNul(Octal(n, 11) + [0])))) == n
  {
    var text := Octal(n, 11);
    assert 0 !in text;
    BeforeNulField(text, [0]);
    assert TrimStart(text) == text && TrimEnd(text) == text;
    assert Pow8(3) == 512 && Pow8(6) == 0x4_0000 && Pow8(9) == 0x800_0000 && Pow8(11) == 0x2_0000_0000;
    OctalReadsBack(n, 11);
  }

  /** What reading needs of an entry. */
  predicate Readable(e: Entry) {
    && |e.header| == BLOCK && !IsZeroBlock(e.header) && Size(e.header) == |e.data|
    && e.header[156] == e.typeFlag
    && BeforeNul(Subarray(e.header, 0, 100)) == e.name && BeforeNul(Subarray(e.header, 345, 500)) == e.prefix
    && |e.data| + |e.filler| == Padded(|e.data|)
  }

  lemma FieldReadsBack(text: seq<Byte>, length: nat)
    requires |text| <= length && 0 !in text
    ensures BeforeNul(StringField(text, length)) == text
  {
    BeforeNulField(text, Zeros(length - |text|));
  }

  lemma SizeFieldReadsBack(header: seq<Byte>, n: nat)
    requires |header| == BLOCK && n < 0x2_0000_0000 && header[124..136] == Octal(n, 11) + [0]
    ensures Size(header) == n && !IsZeroBlock(header)
  {
    SizeReadsBack(n);
    SubarrayInside(header, 124, 136);
    assert header[124] == header[124..136][0] == Octal(n, 11)[0];
  }

  lemma EntryReadable(e: Entry)
    requires EntryOk(e)
    ensures Readable(e)
  {
    SizeFieldReadsBack(e.header, |e.data|);
    FieldReadsBack(e.name, 100);
    FieldReadsBack(e.prefix, 155);
    SubarrayInside(e.header, 0, 100);
    SubarrayInside(e.header, 345, 500);
  }

  lemma MatchOf(e: Entry, target: string, decode: Decode)
    requires Readable(e)
    ensures IsFile(e, target, decode) <==> IsMatch(e.header, target, decode)
  {
  }

  /** A round over a written entry. */
  lemma EntryReadsBack(tar: seq<Byte>, offset: nat, e: Entry, target: string, decode: Decode)
    requires Readable(e) && offset + |WriteEntry(e)| <= |tar|
    requires tar[offset..offset + |WriteEntry(e)|] == WriteEntry(e)
    ensures Round(tar, offset, target, decode) ==
      if IsFile(e, target, decode) then Returned(Some(e.data)) else At(offset + |WriteEntry(e)|)
  {
    hide Size, IsZeroBlock, IsMatch, IsFile;
    Associate(e.header, e.data, e.filler);
    Halves(tar, offset, e.header, e.data + e.filler);
    Halves(tar, offset + BLOCK, e.data, e.filler);
    SubarrayInside(tar, offset, offset + BLOCK);
    SubarrayInside(tar, offset + BLOCK, offset + BLOCK + |e.data|);
    MatchOf(e, target, decode);
  }

  lemma TrailerReadsBack(tar: seq<Byte>, offset: nat, trailer: seq<Byte>, target: string, decode: Decode)
    requires TrailerOk(trailer) && offset <= |tar| && tar[offset..] == WriteEntries([]) + trailer
    ensures Round(tar, offset, target, decode) == Returned(None)
  {
    hide Size, IsMatch;
    assert tar[offset..] == trailer;
    if |trailer| >= BLOCK {
      SubarrayInside(tar, offset, offset + BLOCK);
      assert tar[offset..offset + BLOCK] == trailer[..BLOCK];
    }
  }

  lemma Suffix<T>(all: seq<T>, offset: nat, first: seq<T>, rest: seq<T>)
    requires offset <= |all| && all[offset..] == first + rest
    ensures offset + |first| <= |all| && all[offset..offset + |first|] == first && all[offset + |first|..] == rest
  {
    assert all[offset..offset + |first|] == all[offset..][..|first|];
    assert all[offset + |first|..] == all[offset..][|first|..];
  }

  lemma CutFirst(tar: seq<Byte>, offset: nat, entries: seq<Entry>, trailer: seq<Byte>) returns (next: nat)
    requires entries != [] && offset <= |tar| && tar[offset..] == WriteEntries(entries) + trailer
    ensures next == offset + |WriteEntry(entries[0])| <= |tar|
    ensures tar[offset..next] == WriteEntry(entries[0]) && tar[next..] == WriteEntries(entries[1..]) + trailer
  {
    hide WriteEntry;
    Associate(WriteEntry(entries[0]), WriteEntries(entries[1..]), trailer);
    Suffix(tar, offset, WriteEntry(entries[0]), WriteEntries(entries[1..]) + trailer);
    next := offset + |WriteEntry(entries[0])|;
  }

  lemma {:induction false} ReadsBackFrom(tar: seq<Byte>, offset: nat, entries: seq<Entry>, trailer: seq<Byte>, target: string, decode: Decode)
    requires forall k | 0 <= k < |entries| :: Readable(entries[k])
    requires TrailerOk(trailer) && offset <= |tar| && tar[offset..] == WriteEntries(entries) + trailer
    ensures After(tar, offset, target, decode, |entries| + 1) == Returned(FirstFile(entries, target, decode))
    decreases |entries|
  {
    hide Round, IsFile, Readable, TrailerOk, WriteEntry;
    if entries == [] {
      TrailerReadsBack(tar, offset, trailer, target, decode);
    } else {
      var next := CutFirst(tar, offset, entries, trailer);
      EntryReadsBack(tar, offset, entries[0], target, decode);
      ReadsBackFrom(tar, next, entries[1..], trailer, target, decode);
    }
  }

  /** Whatever the entries, their splits into prefix and name, their padding and what
      follows the last: after one round for each entry and one more the loop has ended, and
      exactly the first regular file of that path has come back. */
  lemma TarRoundTrip(entries: seq<Entry>, trailer: seq<Byte>, target: string, decode: Decode)
    requires forall k | 0 <= k < |entries| :: EntryOk(entries[k])
    requires TrailerOk(trailer)
    ensures After(WriteEntries(entries) + trailer, 0, target, decode, |entries| + 1) == Returned(FirstFile(entries, target, decode))
  {
    hide EntryOk, Readable;
    forall k | 0 <= k < |entries| ensures Readable(entries[k]) {
      EntryReadable(entries[k]);
    }
    var tar := WriteEntries(entries) + trailer;
    assert tar[0..] == tar;
    ReadsBackFrom(tar, 0, entries, trailer, target, decode);
  }
}
