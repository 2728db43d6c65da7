/** The printer and the reader of a Fly backup's manifest undo each other exactly on the
    manifests a file of lines can hold. */
module ManifestTheorems {
  import opened Wrappers
  import opened Strings
  import opened TextLines
  import opened BackupManifest

  // ----- Texts ----------------------------------------------------------------

  /** What is left of a text once it has been printed and read. */
  function Survives(s: string): string {
    Trim(Flattened(s))
  }

  lemma {:induction false} FlattenedIsOneLine(s: string)
    ensures '\r' !in Flattened(s) && '\n' !in Flattened(s)
    ensures '\r' !in s && '\n' !in s ==> Flattened(s) == s
    decreases |s|
  {
    if s != "" {
      assert s == [s[0]] + s[1..];
      FlattenedIsOneLine(s[1..]);
    }
  }

  lemma TrimPicks(s: string, c: char)
    requires c !in s
    ensures c !in Trim(s)
  {
    var i := TrimStartAt(s);
    assert TrimEnd(s[i..]) <= s[i..];
  }

  lemma {:induction false} TrimStartAt(s: string) returns (i: nat)
    ensures i <= |s| && TrimStart(s) == s[i..]
    decreases |s|
  {
    i := 0;
    if s != "" && IsSpace(s[0]) {
      var j := TrimStartAt(s[1..]);
      i := j + 1;
    }
  }

  /** A text survives exactly when it is one line with nothing to trim. */
  lemma SurvivesExactly(s: string)
    ensures Tidy(Survives(s))
    ensures Survives(s) == s <==> Tidy(s)
  {
    FlattenedIsOneLine(s);
    TrimPicks(Flattened(s), '\r');
    TrimPicks(Flattened(s), '\n');
    TrimTrims(Flattened(s));
    if Tidy(s) {
      TrimFixed(s);
    }
  }

  lemma {:induction false} TrimLastSpace(v: string)
    requires v != "" && IsSpace(v[|v| - 1])
    ensures Trim(v) == Trim(v[..|v| - 1])
    decreases |v|
  {
    var u := v[..|v| - 1];
    if |v| > 1 && IsSpace(v[0]) {
      TrimLastSpace(v[1..]);
      assert v[1..][..|v| - 2] == u[1..];
    } else if |v| == 1 {
      assert v[1..] == "" && u == "";
    } else {
      assert TrimStart(v) == v && TrimStart(u) == u;
    }
  }

  lemma {:induction false} TrimAfterEnd(v: string)
    ensures Trim(TrimEnd(v)) == Trim(v)
    decreases |v|
  {
    if v != "" && IsSpace(v[|v| - 1]) {
      TrimLastSpace(v);
      TrimAfterEnd(v[..|v| - 1]);
    }
  }

  lemma {:induction false} TrimEndStops(a: string, v: string)
    requires a != "" && !IsSpace(a[|a| - 1])
    ensures TrimEnd(a + v) == a + TrimEnd(v)
    decreases |v|
  {
    if v == "" {
      assert a + v == a;
    } else if IsSpace(v[|v| - 1]) {
      assert (a + v)[..|a + v| - 1] == a + v[..|v| - 1];
      TrimEndStops(a, v[..|v| - 1]);
    }
  }

  // ----- Lines ----------------------------------------------------------------

  /** A key that can stand at the head of a line. */
  predicate PlainKey(key: string) {
    key != "" && Tidy(key) && '=' !in key && key[0] != '#'
  }

  /** One line of key and value reads back, the value trimmed. */
  lemma PairIs(key: string, v: string)
    requires PlainKey(key)
    ensures Pair(key + "=" + v) == Some((key, Trim(v)))
  {
    hide TrimEnd;
    var raw, head := key + "=" + v, key + "=";
    assert raw[0] == key[0] && TrimStart(raw) == raw;
    assert !IsSpace('=');
    TrimEndStops(head, v);
    var line := head + TrimEnd(v);
    assert Trim(raw) == line && line[0] == key[0];
    assert line[..|key|] == key && line[|key|] == '=' && line[|key| + 1..] == TrimEnd(v);
    FindAt(line, '=', |key|);
    TrimAfterEnd(v);
    TrimFixed(key);
  }

  lemma NothingInBlank()
    ensures Pair("") == None
  {
    assert Trim("") == "";
  }

  function Stored(fields: seq<Field>, values: map<string, string>): map<string, string>
    decreases |fields|
  {
    if fields == [] then values else Stored(fields[1..], values[fields[0].0 := Survives(fields[0].1)])
  }

  predicate PlainKeys(fields: seq<Field>) {
    forall k | 0 <= k < |fields| :: PlainKey(fields[k].0)
  }

  lemma {:induction false} RecordsFields(fields: seq<Field>, values: map<string, string>)
    requires PlainKeys(fields)
    ensures RecordAll(LinesOf(fields) + [""], values) == Stored(fields, values)
    decreases |fields|
  {
    hide Pair, Trim, Flattened;
    if fields == [] {
      assert LinesOf(fields) + [""] == [""] && [""][1..] == [];
      NothingInBlank();
    } else {
      PairIs(fields[0].0, Flattened(fields[0].1));
      var lines := LinesOf(fields) + [""];
      assert lines[1..] == LinesOf(fields[1..]) + [""];
      RecordsFields(fields[1..], values[fields[0].0 := Survives(fields[0].1)]);
    }
  }

  lemma {:induction false} LinesClean(fields: seq<Field>)
    requires PlainKeys(fields)
    ensures |LinesOf(fields)| == |fields|
    ensures forall k | 0 <= k < |fields| :: '\n' !in LinesOf(fields)[k] && '\r' !in LinesOf(fields)[k]
    decreases |fields|
  {
    if fields != [] {
      FlattenedIsOneLine(fields[0].1);
      LinesClean(fields[1..]);
    }
  }

  // ----- The keys -------------------------------------------------------------

  lemma {:induction false} StoredElsewhere(fields: seq<Field>, values: map<string, string>, key: string)
    requires key in values && forall k | 0 <= k < |fields| :: fields[k].0 != key
    ensures key in Stored(fields, values) && Stored(fields, values)[key] == values[key]
    decreases |fields|
  {
    if fields != [] {
      StoredElsewhere(fields[1..], values[fields[0].0 := Survives(fields[0].1)], key);
    }
  }

  lemma {:induction false} StoredAt(fields: seq<Field>, values: map<string, string>, k: nat)
    requires k < |fields| && forall j | k < j < |fields| :: fields[j].0 != fields[k].0
    ensures fields[k].0 in Stored(fields, values) && Stored(fields, values)[fields[k].0] == Survives(fields[k].1)
    decreases |fields|
  {
    var next := values[fields[0].0 := Survives(fields[0].1)];
    if k == 0 {
      StoredElsewhere(fields[1..], next, fields[0].0);
    } else {
      StoredAt(fields[1..], next, k - 1);
    }
  }

  /** The thirteen keys differ in length or in their first letter. */
  lemma KeysApart(m: Manifest, i: nat, j: nat)
    requires i < j < 13
    ensures |Fields(m)| == 13 && Fields(m)[i].0 != Fields(m)[j].0
  {
    var a, b := Fields(m)[i].0, Fields(m)[j].0;
    assert |a| != |b| || a[0] != b[0];
  }

  predicate KeyLetters(key: string) {
    forall k | 0 <= k < |key| :: 'a' <= key[k] <= 'z' || IsDigit(key[k]) || key[k] == '_'
  }

  lemma LettersArePlain(key: string)
    requires key != "" && KeyLetters(key)
    ensures PlainKey(key)
  {
  }

  lemma KeysPlain(m: Manifest)
    ensures PlainKeys(Fields(m))
  {
    forall k | 0 <= k < 13 ensures PlainKey(Fields(m)[k].0) {
      KeyAtPlain(m, k);
    }
  }

  lemma KeyAtPlain(m: Manifest, k: nat)
    requires k < 13
    ensures |Fields(m)| == 13 && PlainKey(Fields(m)[k].0)
  {
    LettersArePlain(Fields(m)[k].0);
  }

  lemma ReadsAt(m: Manifest, k: nat)
    requires k < 13
    ensures |Fields(m)| == 13
    ensures var values := RecordAll(Lines(RenderBackupManifest(m)), map[]);
      Fields(m)[k].0 in values && values[Fields(m)[k].0] == Survives(Fields(m)[k].1)
  {
    var fields := Fields(m);
    KeysPlain(m);
    LinesClean(fields);
    LinesRead(LinesOf(fields));
    RecordsFields(fields, map[]);
    forall j | k < j < |fields| ensures fields[j].0 != fields[k].0 {
      KeysApart(m, k, j);
    }
    StoredAt(fields, map[], k);
  }

  // ----- The round trip -------------------------------------------------------

  function NonEmpty(s: string): Option<string> {
    if s == "" then None else Some(s)
  }

  ghost predicate Holds(values: map<string, string>, key: string, text: string) {
    key in values && values[key] == Survives(text)
  }

  /** Every field of the printed manifest is in what was read. */
  ghost predicate HoldsAll(values: map<string, string>, fields: seq<Field>) {
    forall k | 0 <= k < |fields| :: Holds(values, fields[k].0, fields[k].1)
  }

  lemma ReadsBack(m: Manifest) returns (values: map<string, string>)
    ensures values == RecordAll(Lines(RenderBackupManifest(m)), map[]) && HoldsAll(values, Fields(m))
  {
    values := RecordAll(Lines(RenderBackupManifest(m)), map[]);
    forall k | 0 <= k < 13 ensures Holds(values, Fields(m)[k].0, Fields(m)[k].1) {
      ReadsAt(m, k);
    }
  }

  lemma TextReads(values: map<string, string>, field: Field)
    requires Holds(values, field.0, field.1)
    ensures values[field.0] == field.1 <==> Tidy(field.1)
    ensures Tidy(field.1) ==> ValueOf(values, field.0) == NonEmpty(field.1)
  {
    SurvivesExactly(field.1);
  }

  predicate Visible(s: string) {
    forall k | 0 <= k < |s| :: '!' <= s[k] <= '~'
  }

  lemma ConstantReads(values: map<string, string>, field: Field)
    requires Holds(values, field.0, field.1) && field.1 != "" && Visible(field.1)
    ensures ValueOf(values, field.0) == Some(field.1) && values[field.0] == field.1
  {
    TextReads(values, field);
  }

  lemma FormatReads(m: Manifest, values: map<string, string>)
    requires HoldsAll(values, Fields(m))
    ensures "format" in values && values["format"] == FLY_BACKUP_FORMAT
  {
    ConstantReads(values, Fields(m)[0]);
  }

  lemma CoverageReads(m: Manifest, values: map<string, string>)
    requires HoldsAll(values, Fields(m))
    ensures ValueOf(values, "coverage") == Some(if m.coverage.Database? then "database" else "config-only")
  {
    ConstantReads(values, Fields(m)[11]);
  }

  lemma TextsRead(m: Manifest, values: map<string, string>)
    requires HoldsAll(values, Fields(m))
    ensures "app" in values && (values["app"] == m.app <==> Tidy(m.app))
    ensures "org" in values && (values["org"] == m.org <==> Tidy(m.org))
    ensures "region" in values && (values["region"] == m.region <==> Tidy(m.region))
    ensures "server_image" in values && (values["server_image"] == m.serverImage <==> Tidy(m.serverImage))
    ensures "flyctl_version" in values && (values["flyctl_version"] == m.flyctlVersion <==> Tidy(m.flyctlVersion))
    ensures "created_at" in values && (values["created_at"] == m.createdAt <==> Tidy(m.createdAt))
  {
    var fields := Fields(m);
    TextReads(values, fields[1]);
    TextReads(values, fields[3]);
    TextReads(values, fields[4]);
    TextReads(values, fields[7]);
    TextReads(values, fields[9]);
    TextReads(values, fields[10]);
  }

  lemma OptionReads(values: map<string, string>, key: string, o: Option<string>)
    requires Holds(values, key, OrEmpty(o))
    ensures ValueOf(values, key) == o <==> TidyOption(o)
    ensures Lowered(ValueOf(values, key)) == o <==> TidyOption(o) && (o.Some? ==> Lower(o.value) == o.value)
  {
    OptionSurvives(o);
    ShaSurvives(o);
  }

  lemma OptionsRead(m: Manifest, values: map<string, string>)
    requires HoldsAll(values, Fields(m))
    ensures ValueOf(values, "database_app") == m.databaseApp <==> TidyOption(m.databaseApp)
    ensures ValueOf(values, "postgres_version") == m.postgresVersion <==> TidyOption(m.postgresVersion)
    ensures ValueOf(values, "server_tag") == m.serverTag <==> TidyOption(m.serverTag)
    ensures Lowered(ValueOf(values, "sha256")) == m.sha256 <==> TidyOption(m.sha256) && (m.sha256.Some? ==> Lower(m.sha256.value) == m.sha256.value)
    ensures Count(ValueOf(values, "schema_migrations")) == m.schemaMigrations
  {
    var fields := Fields(m);
    OptionReads(values, fields[2].0, m.databaseApp);
    OptionReads(values, fields[5].0, m.postgresVersion);
    OptionReads(values, fields[6].0, m.serverTag);
    OptionReads(values, fields[12].0, m.sha256);
    CountReads(values, fields[8].0, m.schemaMigrations);
  }

  lemma CountReads(values: map<string, string>, key: string, n: Option<nat>)
    requires Holds(values, key, if n.Some? then Decimal(n.value) else "")
    ensures Count(ValueOf(values, key)) == n
  {
    if n.Some? {
      DecimalTidy(n.value);
      DecimalReads(n.value);
    }
  }

  lemma {:induction false} DecimalReads(n: nat)
    ensures AllDigits(Decimal(n)) && DecimalValue(Decimal(n)) == n
    decreases n
  {
    var s := Decimal(n);
    if n >= 10 {
      DecimalReads(n / 10);
      assert s[..|s| - 1] == Decimal(n / 10);
    } else {
      assert s[..|s| - 1] == "";
    }
  }

  lemma DecimalTidy(n: nat)
    ensures Survives(Decimal(n)) == Decimal(n) && Decimal(n) != ""
  {
    DecimalReads(n);
    var s := Decimal(n);
    assert forall c | c in s :: IsDigit(c);
    SurvivesExactly(s);
  }

  lemma {:induction false} LowerAt(s: string, k: nat)
    requires k < |s|
    ensures Lower(s)[k] == if 'A' <= s[k] <= 'Z' then s[k] + 32 as char else s[k]
    decreases |s|
  {
    if k > 0 {
      LowerAt(s[1..], k - 1);
    }
  }

  lemma LowerTidy(s: string)
    requires Tidy(s)
    ensures Tidy(Lower(s))
  {
    forall k | 0 <= k < |s| ensures Lower(s)[k] == s[k] || 'a' <= Lower(s)[k] <= 'z' {
      LowerAt(s, k);
    }
  }

  lemma OptionSurvives(o: Option<string>)
    ensures NonEmpty(Survives(OrEmpty(o))) == o <==> TidyOption(o)
  {
    SurvivesExactly(OrEmpty(o));
  }

  lemma ShaSurvives(sha: Option<string>)
    ensures Lowered(NonEmpty(Survives(OrEmpty(sha)))) == sha <==> TidyOption(sha) && (sha.Some? ==> Lower(sha.value) == sha.value)
  {
    var t := Survives(OrEmpty(sha));
    SurvivesExactly(OrEmpty(sha));
    LowerTidy(t);
  }

  /** A manifest comes back from its file exactly when it is one a file can hold. */
  lemma ManifestRoundTrip(m: Manifest)
    ensures Parsed(RenderBackupManifest(m)) == Ok(m) <==> Valid(m)
  {
    var values := ReadsBack(m);
    FormatReads(m, values);
    CoverageReads(m, values);
    TextsRead(m, values);
    OptionsRead(m, values);
    Compare(m, values);
  }

  lemma Compare(m: Manifest, values: map<string, string>)
    requires ValueOf(values, "coverage") == Some(if m.coverage.Database? then "database" else "config-only")
    requires "format" in values && values["format"] == FLY_BACKUP_FORMAT
    requires "app" in values && (values["app"] == m.app <==> Tidy(m.app))
    requires "org" in values && (values["org"] == m.org <==> Tidy(m.org))
    requires "region" in values && (values["region"] == m.region <==> Tidy(m.region))
    requires "server_image" in values && (values["server_image"] == m.serverImage <==> Tidy(m.serverImage))
    requires "flyctl_version" in values && (values["flyctl_version"] == m.flyctlVersion <==> Tidy(m.flyctlVersion))
    requires "created_at" in values && (values["created_at"] == m.createdAt <==> Tidy(m.createdAt))
    requires ValueOf(values, "database_app") == m.databaseApp <==> TidyOption(m.databaseApp)
    requires ValueOf(values, "postgres_version") == m.postgresVersion <==> TidyOption(m.postgresVersion)
    requires ValueOf(values, "server_tag") == m.serverTag <==> TidyOption(m.serverTag)
    requires Lowered(ValueOf(values, "sha256")) == m.sha256 <==> TidyOption(m.sha256) && (m.sha256.Some? ==> Lower(m.sha256.value) == m.sha256.value)
    requires Count(ValueOf(values, "schema_migrations")) == m.schemaMigrations
    ensures FromValues(values) == Ok(m) <==> Valid(m)
  {
    hide Tidy, Lower, DecimalValue, AllDigits, IsSha256, Lowered, Count;
  }

  // ----- Any file -------------------------------------------------------------

  ghost predicate AllTidy(values: map<string, string>) {
    forall key | key in values :: Tidy(values[key])
  }

  lemma PairTidy(raw: string)
    requires '\r' !in raw && '\n' !in raw
    ensures Pair(raw).Some? ==> Tidy(Pair(raw).value.1)
  {
    var line := Trim(raw);
    TrimPicks(raw, '\r');
    TrimPicks(raw, '\n');
    var equals := Find(line, '=');
    if equals < |line| {
      var v := line[equals + 1..];
      TrimPicks(v, '\r');
      TrimPicks(v, '\n');
      TrimTrims(v);
    }
  }

  lemma {:induction false} RecordAllTidy(lines: seq<string>, values: map<string, string>)
    requires AllTidy(values) && forall k | 0 <= k < |lines| :: '\r' !in lines[k] && '\n' !in lines[k]
    ensures AllTidy(RecordAll(lines, values))
    decreases |lines|
  {
    if lines != [] {
      PairTidy(lines[0]);
      RecordAllTidy(lines[1..], Recorded(values, lines[0]));
    }
  }

  lemma {:induction false} SplitPicks(s: string, c: char, d: char)
    requires d !in s
    ensures forall k | 0 <= k < |Split(s, c)| :: d !in Split(s, c)[k]
    decreases |s|
  {
    var i := Find(s, c);
    if i < |s| {
      SplitPicks(s[i + 1..], c, d);
    }
  }

  lemma {:induction false} LowerLower(s: string)
    ensures Lower(Lower(s)) == Lower(s)
    decreases |s|
  {
    if s != "" {
      LowerLower(s[1..]);
      assert Lower(s)[1..] == Lower(s[1..]);
    }
  }

  /** Writing down what was read from a file with plain line feeds, and reading it again,
      changes nothing. */
  lemma RereadIsSame(contents: string)
    requires '\r' !in contents && Parsed(contents).Ok?
    ensures Valid(Parsed(contents).value)
    ensures Parsed(RenderBackupManifest(Parsed(contents).value)) == Parsed(contents)
  {
    var pieces := Split(contents, '\n');
    SplitPicks(contents, '\n', '\r');
    UnreturnedFixed(pieces);
    var values := RecordAll(pieces, map[]);
    RecordAllTidy(pieces, map[]);
    var m := Parsed(contents).value;
    ReadIsValid(values, m);
    ManifestRoundTrip(m);
  }

  lemma ReadIsValid(values: map<string, string>, m: Manifest)
    requires AllTidy(values) && FromValues(values) == Ok(m)
    ensures Valid(m)
  {
    if ValueOf(values, "sha256").Some? {
      LowerLower(values["sha256"]);
      LowerTidy(values["sha256"]);
    }
  }

  predicate Breaks(s: string) {
    forall k | 0 <= k < |s| :: s[k] in {'\r', '\n'}
  }

  /** A run of line breaks is printed as one space, and what stands around it as it is. */
  lemma {:induction false} BreaksAreOneSpace(before: string, gap: string, after: string)
    requires '\r' !in before && '\n' !in before && gap != "" && Breaks(gap) && (after == "" || after[0] !in {'\r', '\n'})
    ensures Flattened(before + gap + after) == before + " " + Flattened(after)
    decreases |before|, |gap|
  {
    var text := before + gap + after;
    if before != "" {
      assert text[0] == before[0] && text[1..] == before[1..] + gap + after;
      BreaksAreOneSpace(before[1..], gap, after);
      assert before == [before[0]] + before[1..];
    } else if |gap| > 1 {
      assert text[0] == gap[0] && text[1] == gap[1] && text[1..] == "" + gap[1..] + after;
      BreaksAreOneSpace("", gap[1..], after);
    } else {
      assert text[0] == gap[0] && text[1..] == after;
    }
  }

  // ----- Other lines ------------------------------------------------------------

  lemma {:induction false} RecordAllCat(a: seq<string>, b: seq<string>, values: map<string, string>)
    ensures RecordAll(a + b, values) == RecordAll(b, RecordAll(a, values))
    decreases |a|
  {
    if a == [] {
      assert a + b == b;
    } else {
      assert (a + b)[1..] == a[1..] + b;
      RecordAllCat(a[1..], b, Recorded(values, a[0]));
    }
  }

  /** Blank lines, comments and lines that are no pair may stand anywhere. */
  lemma OtherLinesIgnored(a: seq<string>, line: string, b: seq<string>)
    requires Trim(line) == "" || StartsWith(Trim(line), "#") || '=' !in Trim(line)
    ensures RecordAll(a + ([line] + b), map[]) == RecordAll(a + b, map[])
  {
    RecordAllCat(a, [line] + b, map[]);
    RecordAllCat(a, b, map[]);
    assert ([line] + b)[1..] == b;
  }

  lemma {:induction false} KeptByOthers(lines: seq<string>, values: map<string, string>, key: string)
    requires key in values && forall k | 0 <= k < |lines| :: Pair(lines[k]).Some? ==> Pair(lines[k]).value.0 != key
    ensures key in RecordAll(lines, values) && RecordAll(lines, values)[key] == values[key]
    decreases |lines|
  {
    hide Pair;
    if lines != [] {
      KeptByOthers(lines[1..], Recorded(values, lines[0]), key);
    }
  }

  /** Of several lines for a key the last one counts. */
  lemma LastLineCounts(a: seq<string>, line: string, b: seq<string>)
    requires Pair(line).Some?
    requires forall k | 0 <= k < |b| :: Pair(b[k]).Some? ==> Pair(b[k]).value.0 != Pair(line).value.0
    ensures var (key, text) := Pair(line).value;
      var values := RecordAll(a + ([line] + b), map[]);
      key in values && values[key] == text
  {
    hide Pair;
    RecordAllCat(a, [line] + b, map[]);
    assert ([line] + b)[1..] == b;
    KeptByOthers(b, Recorded(RecordAll(a, map[]), line), Pair(line).value.0);
  }

  /** A file is refused for what it says: another format or coverage, a text that is not
      there, a count that is no number, a checksum that is none. */
  lemma RefusedForAReason(values: map<string, string>)
    ensures match FromValues(values)
      case Ok(m) =>
        && ValueOf(values, "format") == Some(FLY_BACKUP_FORMAT)
        && ValueOf(values, "coverage") == Some(if m.coverage.Database? then "database" else "config-only")
      case Err(WrongFormat(format)) => format != FLY_BACKUP_FORMAT && format == OrEmpty(ValueOf(values, "format"))
      case Err(WrongCoverage(coverage)) => coverage == ValueOf(values, "coverage") && coverage !in {Some("database"), Some("config-only")}
      case Err(Missing(key)) =>
        || (key in {"app", "server_image", "created_at"} && ValueOf(values, key).None?)
        || (key == "database_app" && ValueOf(values, key).None? && ValueOf(values, "coverage") == Some("database"))
        || (key == "schema_migrations" && ValueOf(values, "coverage") == Some("database")
            && (ValueOf(values, key).None? || !AllDigits(ValueOf(values, key).value)))
      case Err(NoChecksum) =>
        && ValueOf(values, "coverage") == Some("database")
        && (ValueOf(values, "sha256").None? || !IsSha256(Lower(ValueOf(values, "sha256").value)))
  {
    hide IsSha256, AllDigits, Lower, DecimalValue;
    assert FLY_BACKUP_FORMAT != "";
  }
}
