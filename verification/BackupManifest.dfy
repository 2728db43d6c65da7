/** The manifest of a Fly backup (cli/src/flySetup.ts): its printer, and the reader that
    decides whether restore can use it. */
module BackupManifest {
  import opened Wrappers
  import opened Strings
  import opened TextLines

  datatype Coverage = ConfigOnly | Database

  datatype Manifest = Manifest(
    app: string,
    coverage: Coverage,
    createdAt: string,
    databaseApp: Option<string>,
    flyctlVersion: string,
    org: string,
    postgresVersion: Option<string>,
    region: string,
    schemaMigrations: Option<nat>,
    serverImage: string,
    serverTag: Option<string>,
    sha256: Option<string>)

  datatype Problem =
    | WrongFormat(format: string)
    | WrongCoverage(coverage: Option<string>)
    | Missing(key: string)
    | NoChecksum

  const FLY_BACKUP_FORMAT := "fly/1"

  // ----- Printing -------------------------------------------------------------

  function OrEmpty(value: Option<string>): string {
    if value.Some? then value.value else ""
  }

  /** `String(n)` of a count. */
  function Decimal(n: nat): string {
    (if n < 10 then "" else Decimal(n / 10)) + [(n % 10) as char + '0']
  }

  /** `replace(/[\r\n]+/gu, " ")`. */
  function Flattened(s: string): string {
    if s == "" then ""
    else if s[0] !in {'\r', '\n'} then [s[0]] + Flattened(s[1..])
    else if |s| > 1 && s[1] in {'\r', '\n'} then Flattened(s[1..])
    else " " + Flattened(s[1..])
  }

  type Field = (string, string)

  function Fields(m: Manifest): seq<Field> {
    [("format", FLY_BACKUP_FORMAT),
     ("app", m.app),
     ("database_app", OrEmpty(m.databaseApp)),
     ("org", m.org),
     ("region", m.region),
     ("postgres_version", OrEmpty(m.postgresVersion)),
     ("server_tag", OrEmpty(m.serverTag)),
     ("server_image", m.serverImage),
     ("schema_migrations", if m.schemaMigrations.Some? then Decimal(m.schemaMigrations.value) else ""),
     ("flyctl_version", m.flyctlVersion),
     ("created_at", m.createdAt),
     ("coverage", if m.coverage.Database? then "database" else "config-only"),
     ("sha256", OrEmpty(m.sha256))]
  }

  function LinesOf(fields: seq<Field>): seq<string> {
    if fields == [] then [] else [fields[0].0 + "=" + Flattened(fields[0].1)] + LinesOf(fields[1..])
  }

  function RenderBackupManifest(m: Manifest): string {
    Join(LinesOf(Fields(m)), '\n') + "\n"
  }

  // ----- Reading --------------------------------------------------------------

  /** What one line says, unless it is blank, a comment or not a pair. */
  function Pair(raw: string): Option<Field> {
    var line := Trim(raw);
    var equals := Find(line, '=');
    if line == "" || StartsWith(line, "#") || equals == |line| then None
    else Some((Trim(line[..equals]), Trim(line[equals + 1..])))
  }

  function Recorded(values: map<string, string>, raw: string): map<string, string> {
    if Pair(raw).Some? then values[Pair(raw).value.0 := Pair(raw).value.1] else values
  }

  function RecordAll(lines: seq<string>, values: map<string, string>): map<string, string>
    decreases |lines|
  {
    if lines == [] then values else RecordAll(lines[1..], Recorded(values, lines[0]))
  }

  /** A key's text, an empty one meaning none. */
  function ValueOf(values: map<string, string>, key: string): Option<string> {
    if key in values && values[key] != "" then Some(values[key]) else None
  }

  predicate IsSha256(s: string) {
    |s| == 64 && forall k | 0 <= k < |s| :: IsDigit(s[k]) || 'a' <= s[k] <= 'f'
  }

  function Count(text: Option<string>): Option<nat> {
    if text.Some? && AllDigits(text.value) then Some(DecimalValue(text.value)) else None
  }

  function Lowered(text: Option<string>): Option<string> {
    if text.Some? then Some(Lower(text.value)) else None
  }

  function FromValues(values: map<string, string>): Result<Manifest, Problem> {
    var format := if "format" in values then values["format"] else "";
    var coverage := ValueOf(values, "coverage");
    if format != FLY_BACKUP_FORMAT then Err(WrongFormat(format))
    else if coverage != Some("database") && coverage != Some("config-only") then Err(WrongCoverage(coverage))
    else if ValueOf(values, "app").None? then Err(Missing("app"))
    else if ValueOf(values, "server_image").None? then Err(Missing("server_image"))
    else if ValueOf(values, "created_at").None? then Err(Missing("created_at"))
    else
      var migrations := Count(ValueOf(values, "schema_migrations"));
      var sha256 := Lowered(ValueOf(values, "sha256"));
      if coverage == Some("database") && ValueOf(values, "database_app").None? then Err(Missing("database_app"))
      else if coverage == Some("database") && migrations.None? then Err(Missing("schema_migrations"))
      else if coverage == Some("database") && (sha256.None? || !IsSha256(sha256.value)) then Err(NoChecksum)
      else Ok(Manifest(
        ValueOf(values, "app").value,
        if coverage == Some("database") then Database else ConfigOnly,
        ValueOf(values, "created_at").value,
        ValueOf(values, "database_app"),
        OrEmpty(ValueOf(values, "flyctl_version")),
        OrEmpty(ValueOf(values, "org")),
        ValueOf(values, "postgres_version"),
        OrEmpty(ValueOf(values, "region")),
        migrations,
        ValueOf(values, "server_image").value,
        ValueOf(values, "server_tag"),
        sha256))
  }

  function Parsed(contents: string): Result<Manifest, Problem> {
    FromValues(RecordAll(Lines(contents), map[]))
  }

  method ParseBackupManifest(contents: string) returns (r: Result<Manifest, Problem>)
    ensures r == Parsed(contents)
  {
    var values: map<string, string> := map[];
    var lines := Lines(contents);
    for k := 0 to |lines|
      invariant RecordAll(lines, map[]) == RecordAll(lines[k..], values)
    {
      assert lines[k..][1..] == lines[k + 1..];
      var line := Trim(lines[k]);
      var equals := Find(line, '=');
      if line == "" || StartsWith(line, "#") || equals == |line| {
        continue;
      }
      values := values[Trim(line[..equals]) := Trim(line[equals + 1..])];
    }
    assert lines[|lines|..] == [];
    r := FromValues(values);
  }

  // ----- A file that is accepted ----------------------------------------------

  ghost predicate Usable(m: Manifest) {
    && m.app != "" && m.serverImage != "" && m.createdAt != ""
    && (m.coverage.Database? ==> m.databaseApp.Some? && m.schemaMigrations.Some? && m.sha256.Some? && IsSha256(m.sha256.value))
  }

  /** One line, nothing to trim. */
  predicate Tidy(s: string) {
    Trimmed(s) && '\r' !in s && '\n' !in s
  }

  predicate TidyOption(s: Option<string>) {
    s.Some? ==> s.value != "" && Tidy(s.value)
  }

  /** What a manifest must be for a file to hold it exactly. */
  ghost predicate Valid(m: Manifest) {
    && Usable(m)
    && Tidy(m.app) && Tidy(m.createdAt) && Tidy(m.flyctlVersion) && Tidy(m.org) && Tidy(m.region) && Tidy(m.serverImage)
    && TidyOption(m.databaseApp) && TidyOption(m.postgresVersion) && TidyOption(m.serverTag) && TidyOption(m.sha256)
    && (m.sha256.Some? ==> Lower(m.sha256.value) == m.sha256.value)
  }

  /** Restore can rely on every file that is not refused. */
  lemma AcceptedIsUsable(contents: string)
    ensures Parsed(contents).Ok? ==> Usable(Parsed(contents).value)
  {
    var values := RecordAll(Lines(contents), map[]);
    assert Parsed(contents) == FromValues(values);
  }
}
