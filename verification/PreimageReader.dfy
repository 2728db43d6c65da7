/** A reader of the signed preimage, written from the formats alone: UTF-8, a JSON array of
    strings, `path:digest` in each. What it reads is the files that are counted, in order. */
module PreimageReader {
  import opened Wrappers
  import opened Seqs
  import opened Strings
  import opened Encoding
  import opened ArchivePaths
  import opened PackageHash

  // ----- The order ------------------------------------------------------------

  /** Nothing of `a` is left where they part, or its byte there is the smaller. */
  ghost predicate Precedes(a: seq<Byte>, b: seq<Byte>) {
    exists n: nat :: PartAt(a, b, n)
  }

  predicate PartAt(a: seq<Byte>, b: seq<Byte>, n: nat) {
    n <= |a| && n <= |b| && a[..n] == b[..n] && (n == |a| || (n < |b| && a[n] < b[n]))
  }

  lemma {:induction false} LowerPrecedes(a: seq<Byte>, b: seq<Byte>)
    requires BytesLe(a, b)
    ensures Precedes(a, b)
    decreases |a|
  {
    if a == [] || a[0] < b[0] {
      assert PartAt(a, b, 0);
    } else {
      LowerPrecedes(a[1..], b[1..]);
      var n: nat :| PartAt(a[1..], b[1..], n);
      assert a[..n + 1] == [a[0]] + a[1..][..n] && b[..n + 1] == [b[0]] + b[1..][..n];
      assert PartAt(a, b, n + 1);
    }
  }

  /** The manifest entries in byte order, by the first byte in which two differ. */
  lemma SortedByFirstDifference(entries: seq<string>)
    ensures multiset(Sort(entries)) == multiset(entries)
    ensures forall i, j | 0 <= i < j < |Sort(entries)| :: Precedes(Utf8(Sort(entries)[i]), Utf8(Sort(entries)[j]))
  {
    SortSorts(entries);
    var sorted := Sort(entries);
    forall i, j | 0 <= i < j < |sorted| ensures Precedes(Utf8(sorted[i]), Utf8(sorted[j])) {
      assert EntryLe(sorted[i], sorted[j]);
      LowerPrecedes(Utf8(sorted[i]), Utf8(sorted[j]));
    }
  }

  // ----- UTF-8 (section 3 of RFC 3629) ------------------------------------------

  /** How many bytes the character has that begins with this one. */
  function Width(first: Byte): nat {
    if first < 0x80 then 1 else if first < 0xE0 then 2 else if first < 0xF0 then 3 else 4
  }

  predicate IsScalar(n: int) {
    0 <= n < 0xD800 || 0xE000 <= n < 0x11_0000
  }

  function FromUtf8(bytes: seq<Byte>): Option<string>
    decreases |bytes|
  {
    if bytes == [] then Some("")
    else
      var n := Width(bytes[0]);
      if n > |bytes| || !IsScalar(DecodeChar(bytes[..n])) then None
      else
        match FromUtf8(bytes[n..])
        case None => None
        case Some(rest) => Some([DecodeChar(bytes[..n]) as char] + rest)
  }

  lemma EncodedWidth(c: char)
    ensures Width(EncodeChar(c)[0]) == |EncodeChar(c)| && IsScalar(c as int)
  {
  }

  lemma {:induction false} Utf8Reads(s: string)
    ensures FromUtf8(Utf8(s)) == Some(s)
    decreases |s|
  {
    if s != "" {
      var first, rest := EncodeChar(s[0]), Utf8(s[1..]);
      assert (first + rest)[0] == first[0] && (first + rest)[..|first|] == first && (first + rest)[|first|..] == rest;
      EncodedWidth(s[0]);
      DecodeEncode(s[0]);
      Utf8Reads(s[1..]);
      assert s == [s[0]] + s[1..];
    }
  }

  // ----- JSON (sections 5 and 7 of RFC 8259) --------------------------------------

  function HexValue(c: char): Option<nat> {
    if '0' <= c <= '9' then Some((c - '0') as nat)
    else if 'a' <= c <= 'f' then Some((c - 'a') as nat + 10)
    else if 'A' <= c <= 'F' then Some((c - 'A') as nat + 10)
    else None
  }

  /** The character behind a backslash, and how many characters say so. */
  function ReadEscape(text: string): Option<(char, nat)> {
    if text == "" then None
    else if text[0] in "\"\\/" then Some((text[0], 1))
    else if text[0] == 'b' then Some(('\U{8}', 1))
    else if text[0] == 'f' then Some(('\U{C}', 1))
    else if text[0] == 'n' then Some(('\n', 1))
    else if text[0] == 'r' then Some(('\r', 1))
    else if text[0] == 't' then Some(('\t', 1))
    else if text[0] != 'u' || |text| < 5 then None
    else
      match (HexValue(text[1]), HexValue(text[2]), HexValue(text[3]), HexValue(text[4]))
      case (Some(a), Some(b), Some(c), Some(d)) =>
        var n := ((a * 16 + b) * 16 + c) * 16 + d;
        if IsScalar(n) then Some((n as char, 5)) else None
      case _ => None
  }

  /** The characters up to the closing quote, and what follows it. */
  function ReadString(text: string): Option<(string, string)>
    decreases |text|
  {
    if text == "" || (text[0] as int) < 0x20 then None
    else if text[0] == '"' then Some(("", text[1..]))
    else if text[0] != '\\' then
      match ReadString(text[1..])
      case None => None
      case Some((rest, after)) => Some(([text[0]] + rest, after))
    else
      match ReadEscape(text[1..])
      case None => None
      case Some((c, n)) =>
        if 1 + n > |text| then None
        else
          match ReadString(text[1 + n..])
          case None => None
          case Some((rest, after)) => Some(([c] + rest, after))
  }

  /** The items from one's opening quote on, and what follows the closing bracket. */
  function ReadItems(text: string): Option<(seq<string>, string)>
    decreases |text|
  {
    if text == "" || text[0] != '"' then None
    else
      match ReadString(text[1..])
      case None => None
      case Some((item, after)) =>
        if |after| >= |text| || after == "" then None
        else if after[0] == ']' then Some(([item], after[1..]))
        else if after[0] != ',' then None
        else
          match ReadItems(after[1..])
          case None => None
          case Some((items, rest)) => Some(([item] + items, rest))
  }

  function ReadArray(text: string): Option<seq<string>> {
    if text == "[]" then Some([])
    else if text == "" || text[0] != '[' then None
    else
      match ReadItems(text[1..])
      case None => None
      case Some((items, rest)) => if rest == "" then Some(items) else None
  }

  lemma HexRead(n: int)
    requires 0 <= n < 16
    ensures HexValue(HexDigit(n)) == Some(n)
  {
    assert HexDigit(n) == if n < 10 then '0' + n as char else 'a' + (n - 10) as char;
  }

  /** One escaped character is read as itself. */
  lemma CharReads(c: char, rest: string)
    ensures var text := EscapeChar(c) + rest;
      && text != "" && (text[0] as int) >= 0x20 && text[0] != '"'
      && if text[0] != '\\' then c == text[0] && text[1..] == rest
         else
           var n := |EscapeChar(c)| - 1;
           ReadEscape(text[1..]) == Some((c, n)) && text[1 + n..] == rest
  {
    var e := EscapeChar(c);
    var text := e + rest;
    assert text[0] == e[0] && text[|e|..] == rest;
    if |e| == 6 {
      ControlReads(c, text[1..]);
    } else if |e| == 2 {
      assert text[1] == e[1];
    }
  }

  lemma ControlReads(c: char, text: string)
    requires |EscapeChar(c)| == 6 && |text| >= 5 && text[..5] == EscapeChar(c)[1..]
    ensures ReadEscape(text) == Some((c, 5))
  {
    var e := EscapeChar(c);
    HexRead(c as int / 16);
    HexRead(c as int % 16);
    assert e == "\\u00" + [HexDigit(c as int / 16), HexDigit(c as int % 16)];
    assert forall k | 0 <= k < 5 :: text[k] == text[..5][k] == e[k + 1];
  }

  lemma {:induction false} TailReads(s: string, rest: string)
    ensures ReadString(Tail(s, rest)) == Some((s, rest))
    decreases |s|
  {
    if s == "" {
      assert ("\"" + rest)[1..] == rest;
    } else {
      hide EscapeChar, ReadEscape;
      CharReads(s[0], Tail(s[1..], rest));
      TailReads(s[1..], rest);
      assert s == [s[0]] + s[1..];
    }
  }

  lemma {:induction false} ItemsRead(items: seq<string>)
    requires items != []
    ensures ReadItems(JoinQuoted(items) + "]") == Some((items, ""))
    decreases |items|
  {
    hide ReadItems, JoinQuoted, Tail, ReadString;
    var after := AfterFirst(items) + "]";
    JoinQuotedTail(items);
    TailThen(items[0], AfterFirst(items), "]");
    Associate("\"", Tail(items[0], AfterFirst(items)), "]");
    TailReads(items[0], after);
    TailIsLonger(items[0], after);
    if |items| == 1 {
      assert after == "]";
      LastItem(Tail(items[0], after), items[0]);
      assert items == [items[0]];
    } else {
      assert after == "," + (JoinQuoted(items[1..]) + "]");
      ItemsRead(items[1..]);
      OneMoreItem(Tail(items[0], after), items[0], JoinQuoted(items[1..]) + "]", items[1..]);
      HeadTail(items);
    }
  }

  lemma LastItem(text: string, item: string)
    requires ReadString(text) == Some((item, "]"))
    ensures |text| > 1 ==> ReadItems("\"" + text) == Some(([item], ""))
  {
    assert ("\"" + text)[1..] == text;
  }

  lemma OneMoreItem(text: string, item: string, after: string, items: seq<string>)
    requires ReadString(text) == Some((item, "," + after)) && |text| > |after| + 1
    requires ReadItems(after) == Some((items, ""))
    ensures ReadItems("\"" + text) == Some(([item] + items, ""))
  {
    assert ("\"" + text)[1..] == text && ("," + after)[1..] == after;
  }

  lemma {:induction false} TailThen(s: string, rest: string, more: string)
    ensures Tail(s, rest) + more == Tail(s, rest + more)
    decreases |s|
  {
    if s == "" {
      assert "\"" + rest + more == "\"" + (rest + more);
    } else {
      TailThen(s[1..], rest, more);
      Associate(EscapeChar(s[0]), Tail(s[1..], rest), more);
    }
  }

  lemma {:induction false} TailIsLonger(s: string, rest: string)
    ensures |Tail(s, rest)| > |rest|
    decreases |s|
  {
    if s != "" {
      TailIsLonger(s[1..], rest);
    }
  }

  lemma ArrayReads(items: seq<string>)
    ensures ReadArray(Stringify(items)) == Some(items)
  {
    var text := Stringify(items);
    if items == [] {
      assert text == "[]";
    } else {
      JoinQuotedTail(items);
      assert text[1] == JoinQuoted(items)[0] == '"';
      assert text[1..] == JoinQuoted(items) + "]";
      ItemsRead(items);
    }
  }

  // ----- The files ------------------------------------------------------------

  /** A path, and its digest behind the colon that stands 65 characters before the end. */
  function ReadEntry(entry: string): Option<(string, string)> {
    if |entry| < 65 || entry[|entry| - 65] != ':' then None
    else Some((entry[..|entry| - 65], entry[|entry| - 64..]))
  }

  function ReadEntries(entries: seq<string>): Option<seq<(string, string)>> {
    if entries == [] then Some([])
    else
      match (ReadEntry(entries[0]), ReadEntries(entries[1..]))
      case (Some(file), Some(rest)) => Some([file] + rest)
      case _ => None
  }

  /** What a preimage says. */
  function ReadPreimage(preimage: seq<Byte>): Option<seq<(string, string)>> {
    match FromUtf8(preimage)
    case None => None
    case Some(text) =>
      match ReadArray(text)
      case None => None
      case Some(entries) => ReadEntries(entries)
  }

  /** These are the archive's counted files, each as often as it is there, in byte order. */
  ghost predicate Lists(files: seq<(string, string)>, archive: seq<Entry>, sha256: Sha256) {
    && (forall k | 0 <= k < |files| :: IsDigest(files[k].1))
    && (forall path: string, digest: Digest :: multiset(files)[(path, digest)] == Contents(archive, sha256)[(path, digest)])
    && (forall i, j | 0 <= i < j < |files| ::
          Precedes(Utf8(files[i].0 + ":" + files[i].1), Utf8(files[j].0 + ":" + files[j].1)))
  }

  predicate IsDigest(s: string) {
    |s| == 64 && forall k | 0 <= k < 64 :: s[k] in "0123456789abcdef"
  }

  ghost predicate IsEntry(entry: string) {
    exists path: string, digest: Digest :: entry == ManifestEntry(path, digest)
  }

  ghost predicate AllEntries(entries: seq<string>) {
    forall k | 0 <= k < |entries| :: IsEntry(entries[k])
  }

  lemma EntryReads(path: string, digest: Digest)
    ensures ReadEntry(ManifestEntry(path, digest)) == Some((path, digest))
  {
    var entry := ManifestEntry(path, digest);
    assert entry[..|entry| - 65] == path && entry[|entry| - 64..] == digest;
  }

  predicate Says(entry: string, file: (string, string)) {
    IsDigest(file.1) && entry == file.0 + ":" + file.1
  }

  predicate AllSay(entries: seq<string>, files: seq<(string, string)>) {
    |files| == |entries| && forall k | 0 <= k < |files| :: Says(entries[k], files[k])
  }

  lemma {:induction false} EntriesRead(entries: seq<string>)
    requires AllEntries(entries)
    ensures ReadEntries(entries).Some? && AllSay(entries, ReadEntries(entries).value)
    decreases |entries|
  {
    if entries != [] {
      EntryIsRead(entries[0]);
      hide IsEntry, ReadEntry, Says;
      assert forall k | 0 <= k < |entries[1..]| :: entries[1..][k] == entries[k + 1];
      EntriesRead(entries[1..]);
    }
  }

  lemma EntryIsRead(entry: string)
    requires IsEntry(entry)
    ensures ReadEntry(entry).Some? && Says(entry, ReadEntry(entry).value)
  {
    var path: string, digest: Digest :| entry == ManifestEntry(path, digest);
    EntryReads(path, digest);
  }

  /** Entries and files are as many of a kind. */
  lemma {:induction false} CountsAgree(entries: seq<string>, files: seq<(string, string)>, path: string, digest: Digest)
    requires AllSay(entries, files)
    ensures multiset(files)[(path, digest)] == multiset(entries)[ManifestEntry(path, digest)]
    decreases |files|
  {
    if files != [] {
      HeadTail(entries);
      HeadTail(files);
      CountsAgree(entries[1..], files[1..], path, digest);
      assert Says(entries[0], files[0]);
      if entries[0] == ManifestEntry(path, digest) {
        ManifestEntryInjective(files[0].0, files[0].1, path, digest);
      }
    }
  }

  /** The preimage of an accepted archive reads back as the files it counts, in the byte
      order of their `path:digest`. */
  lemma PreimageReadsBack(archive: seq<Entry>, sha256: Sha256)
    requires Accepted(archive)
    ensures Preimage(archive, sha256).Ok? && ReadPreimage(Preimage(archive, sha256).value).Some?
    ensures Lists(ReadPreimage(Preimage(archive, sha256).value).value, archive, sha256)
  {
    hide Preimage, ReadArray, FromUtf8, Sort, Precedes, IsDigest, Contents, ReadEntries, IsEntry;
    var any: Digest := seq(64, _ => '0');
    EntriesCount(archive, sha256, "", any);
    var entries := ManifestEntries(archive, sha256).value;
    var sorted := Sort(entries);
    PreimageIs(archive, sha256);
    SortedByFirstDifference(entries);
    Utf8Reads(Stringify(sorted));
    ArrayReads(sorted);
    ShapesSorted(archive, sha256);
    EntriesRead(sorted);
    var files := ReadEntries(sorted).value;
    forall path: string, digest: Digest
      ensures multiset(files)[(path, digest)] == Contents(archive, sha256)[(path, digest)]
    {
      EntriesCount(archive, sha256, path, digest);
      CountsAgree(sorted, files, path, digest);
    }
    assert forall k | 0 <= k < |files| :: Says(sorted[k], files[k]);
    assert forall k | 0 <= k < |files| :: files[k].0 + ":" + files[k].1 == sorted[k];
  }

  lemma PreimageIs(archive: seq<Entry>, sha256: Sha256)
    requires ManifestEntries(archive, sha256).Ok?
    ensures Preimage(archive, sha256) == Ok(Utf8(Stringify(Sort(ManifestEntries(archive, sha256).value))))
  {
  }

  lemma ShapesSorted(archive: seq<Entry>, sha256: Sha256)
    requires ManifestEntries(archive, sha256).Ok?
    ensures AllEntries(Sort(ManifestEntries(archive, sha256).value))
  {
    var sorted := Sort(ManifestEntries(archive, sha256).value);
    SortSorts(ManifestEntries(archive, sha256).value);
    forall k | 0 <= k < |sorted| ensures IsEntry(sorted[k]) {
      assert sorted[k] in multiset(sorted);
      EntriesShape(archive, sha256, sorted[k]);
    }
  }
}
