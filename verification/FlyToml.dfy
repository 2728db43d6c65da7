/** The `fly.toml` written at install, and the line reader that takes a saved one up again
    at upgrade (cli/src/flySetup.ts). */
module FlyToml {
  import opened Wrappers
  import opened Strings
  import opened TextLines

  // ----- Writing --------------------------------------------------------------

  /** One line of the file. */
  datatype Row =
    | Blank
    | Header(indent: string, name: string)
    | Quoted(indent: string, key: string, value: string)
    | Plain(indent: string, key: string, text: string)

  const QUOTE := ['"']

  function Print(row: Row): string {
    match row
    case Blank => ""
    case Header(indent, name) => indent + name
    case Quoted(indent, key, value) => indent + key + " = " + (QUOTE + value + QUOTE)
    case Plain(indent, key, text) => indent + key + " = " + text
  }

  function PrintAll(rows: seq<Row>): seq<string> {
    if rows == [] then [] else [Print(rows[0])] + PrintAll(rows[1..])
  }

  /** The values `toml` takes. */
  predicate Storable(value: string) {
    '"' !in value && '\n' !in value && '\\' !in value
  }

  /** The answers an install collected; the endpoint as its URL's origin. */
  datatype PatchTomlInput = PatchTomlInput(
    email: string,
    origin: string,
    publicBaseUrl: string,
    region: string,
    s3Region: string,
    serverTag: string,
    stem: string)

  predicate AllStorable(i: PatchTomlInput) {
    && Storable(i.stem) && Storable(i.region) && Storable(i.stem + "-internal") && Storable(i.origin)
    && Storable(i.s3Region) && Storable(i.publicBaseUrl) && Storable(i.email) && Storable(i.serverTag)
  }

  function TopRows(i: PatchTomlInput): seq<Row> {
    [Quoted("", "app", i.stem),
     Quoted("", "primary_region", i.region),
     Blank,
     Header("", "[build]"),
     Quoted("  ", "dockerfile", "server/Dockerfile"),
     Blank]
  }

  function EnvRows(i: PatchTomlInput): seq<Row> {
    [Quoted("  ", "MODE", "all"),
     Quoted("  ", "STORAGE_ADAPTER", "s3"),
     Quoted("  ", "S3_BUCKET", i.stem),
     Quoted("  ", "S3_INTERNAL_BUCKET", i.stem + "-internal"),
     Quoted("  ", "S3_ENDPOINT", i.origin),
     Quoted("  ", "S3_FORCE_PATH_STYLE", "true"),
     Quoted("  ", "S3_REGION", i.s3Region),
     Quoted("  ", "PUBLIC_BASE_URL", i.publicBaseUrl),
     Quoted("  ", "INITIAL_ADMIN_EMAILS", i.email),
     Quoted("  ", "PATCH_SERVER_TAG", i.serverTag)]
  }

  function ServiceRows(): seq<Row> {
    [Header("", "[http_service]"),
     Plain("  ", "internal_port", "3000"),
     Plain("  ", "force_https", "true"),
     Quoted("  ", "auto_stop_machines", "suspend"),
     Plain("  ", "auto_start_machines", "true"),
     Plain("  ", "min_machines_running", "0"),
     Blank,
     Header("  ", "[[http_service.checks]]"),
     Quoted("    ", "method", "GET"),
     Quoted("    ", "path", "/health"),
     Quoted("    ", "interval", "15s"),
     Quoted("    ", "timeout", "5s"),
     Blank]
  }

  function VmRows(): seq<Row> {
    [Quoted("  ", "cpu_kind", "shared"), Plain("  ", "cpus", "1"), Quoted("  ", "memory", "512mb")]
  }

  function Rows(i: PatchTomlInput): seq<Row> {
    TopRows(i) + [Header("", "[env]")] + EnvRows(i) + [Blank] + ServiceRows() + [Header("", "[[vm]]")] + VmRows()
  }

  /** The file, or nothing when a value cannot be stored in it. */
  function PatchFlyToml(i: PatchTomlInput): Option<string> {
    if AllStorable(i) then Some(Join(PrintAll(Rows(i)), '\n') + "\n") else None
  }

  // ----- Reading --------------------------------------------------------------

  datatype Scalar = Switch(on: bool) | Number(n: real) | Text(text: string)

  datatype Vm = Vm(cpuKind: Option<string>, cpus: Option<real>, memoryMb: Option<real>)

  datatype Section = Outside | Env | Other | VmTable | VmDone

  datatype Saved = Saved(env: map<string, string>, vm: Option<Vm>, section: Section)

  /** What `.` does not match. */
  predicate IsTerminator(c: char) {
    c in {'\n', '\r', '\U{2028}', '\U{2029}'}
  }

  predicate OneLine(s: string) {
    forall k | 0 <= k < |s| :: !IsTerminator(s[k])
  }

  predicate IsKeyChar(c: char) {
    'A' <= c <= 'Z' || 'a' <= c <= 'z' || '0' <= c <= '9' || c == '_' || c == '.' || c == '-'
  }

  function BareLength(s: string): (n: nat)
    ensures n <= |s|
  {
    if s != "" && IsKeyChar(s[0]) then 1 + BareLength(s[1..]) else 0
  }

  /** The key a line begins with, its quotes off, and the rest of the line. */
  function KeyOf(line: string): Option<(string, string)> {
    var n := BareLength(line);
    if n > 0 then Some((line[..n], line[n..]))
    else if line == "" || line[0] !in {'"', '\''} then None
    else
      var end := Find(line[1..], line[0]);
      if end == 0 || end == |line| - 1 then None else Some((line[1..][..end], line[1..][end + 1..]))
  }

  /** The line as `key = value`: the pattern's two groups. */
  function Setting(line: string): Option<(string, string)> {
    match KeyOf(line)
    case None => None
    case Some((key, rest)) =>
      var after := TrimStart(rest);
      if after == "" || after[0] != '=' then None
      else
        var value := TrimStart(after[1..]);
        if value == "" || !OneLine(value) then None else Some((key, value))
  }

  function Unescaped(body: string): string
    decreases |body|
  {
    if body == "" then ""
    else if |body| >= 2 && body[0] == '\\' && body[1] in {'"', '\\'} then [body[1]] + Unescaped(body[2..])
    else [body[0]] + Unescaped(body[1..])
  }

  /** Where a comment's `#` stands: after white space. */
  function CommentAt(value: string, k: nat): (at: nat)
    requires 1 <= k
    ensures at <= |value|
    decreases |value| - k
  {
    if k >= |value| then |value|
    else if value[k] == '#' && IsSpace(value[k - 1]) then k
    else CommentAt(value, k + 1)
  }

  function WithoutComment(value: string): string {
    if CommentAt(value, 1) < |value| then TrimEnd(value[..CommentAt(value, 1)]) else value
  }

  predicate IsDecimal(s: string) {
    var dot := Find(s, '.');
    AllDigits(s[..dot]) && (dot < |s| ==> AllDigits(s[dot + 1..]))
  }

  function PowerOfTen(n: nat): (p: nat)
    ensures p > 0
  {
    if n == 0 then 1 else 10 * PowerOfTen(n - 1)
  }

  function RealValue(s: string): real
    requires IsDecimal(s)
  {
    var dot := Find(s, '.');
    DecimalValue(s[..dot]) as real +
    (if dot < |s| then DecimalValue(s[dot + 1..]) as real / PowerOfTen(|s| - dot - 1) as real else 0.0)
  }

  function TomlScalar(raw: string): Option<Scalar> {
    var value := Trim(raw);
    if value != "" && value[0] in {'"', '\''} then
      var end := Find(value[1..], value[0]);
      if end == |value| - 1 then None
      else Some(Text(if value[0] == '"' then Unescaped(value[1..][..end]) else value[1..][..end]))
    else
      var bare := WithoutComment(value);
      if bare == "true" || bare == "false" then Some(Switch(bare == "true"))
      else if StartsWith(bare, "-") && IsDecimal(bare[1..]) then Some(Number(0.0 - RealValue(bare[1..])))
      else if IsDecimal(bare) then Some(Number(RealValue(bare)))
      else None
  }

  function AmountLength(s: string): (n: nat)
    ensures n <= |s|
  {
    if s != "" && (IsDigit(s[0]) || s[0] == '.') then 1 + AmountLength(s[1..]) else 0
  }

  /** `512mb`, `1gb` or a bare number of megabytes. */
  function MemoryToMb(value: Scalar): Option<real> {
    match value
    case Switch(_) => None
    case Number(n) => Some(n)
    case Text(text) =>
      var s := Trim(text);
      var amount := s[..AmountLength(s)];
      var unit := Lower(TrimStart(s[AmountLength(s)..]));
      if !IsDecimal(amount) || unit !in {"", "mb", "gb"} then None
      else Some(if unit == "gb" then RealValue(amount) * 1024.0 else RealValue(amount))
  }

  /** `String(value)`; how a number prints is a parameter. */
  function Shown(value: Scalar, show: real -> string): string {
    match value
    case Switch(on) => if on then "true" else "false"
    case Number(n) => show(n)
    case Text(text) => text
  }

  function Head(line: string, s: Saved): Saved {
    if line == "[env]" then s.(section := Env)
    else if line == "[[vm]]" then
      s.(section := if s.vm.None? then VmTable else VmDone, vm := if s.vm.None? then Some(Vm(None, None, None)) else s.vm)
    else s.(section := Other)
  }

  function Machine(vm: Vm, key: string, value: Scalar): Vm {
    if key == "cpu_kind" && value.Text? then vm.(cpuKind := Some(value.text))
    else if key == "cpus" && value.Number? then vm.(cpus := Some(value.n))
    else if key == "memory_mb" && value.Number? then vm.(memoryMb := Some(value.n))
    else if key == "memory" && MemoryToMb(value).Some? then vm.(memoryMb := MemoryToMb(value))
    else vm
  }

  function Store(key: string, value: Scalar, s: Saved, show: real -> string): Saved {
    if s.section.Env? then s.(env := s.env[key := Shown(value, show)])
    else if s.vm.None? then s
    else s.(vm := Some(Machine(s.vm.value, key, value)))
  }

  function ReadLine(raw: string, s: Saved, show: real -> string): Saved {
    var line := Trim(raw);
    if line == "" || StartsWith(line, "#") then s
    else if StartsWith(line, "[") then Head(line, s)
    else if !s.section.Env? && !s.section.VmTable? then s
    else match Setting(line)
      case None => s
      case Some((key, text)) =>
        match TomlScalar(text)
        case None => s
        case Some(value) => Store(key, value, s, show)
  }

  function ReadLines(lines: seq<string>, s: Saved, show: real -> string): Saved
    decreases |lines|
  {
    if lines == [] then s else ReadLines(lines[1..], ReadLine(lines[0], s, show), show)
  }

  const NOTHING := Saved(map[], None, Outside)

  method ParseSavedFlyToml(contents: string, show: real -> string) returns (env: map<string, string>, vm: Option<Vm>)
    ensures var saved := ReadLines(Lines(contents), NOTHING, show); env == saved.env && vm == saved.vm
  {
    env, vm := map[], None;
    var section := Outside;
    var lines := Lines(contents);
    for k := 0 to |lines|
      invariant ReadLines(lines, NOTHING, show) == ReadLines(lines[k..], Saved(env, vm, section), show)
    {
      assert lines[k..][1..] == lines[k + 1..];
      var line := Trim(lines[k]);
      if line == "" || StartsWith(line, "#") {
        continue;
      }
      if StartsWith(line, "[") {
        if line == "[env]" {
          section := Env;
        } else if line == "[[vm]]" {
          section := if vm.None? then VmTable else VmDone;
          vm := if vm.None? then Some(Vm(None, None, None)) else vm;
        } else {
          section := Other;
        }
        continue;
      }
      if section != Env && section != VmTable {
        continue;
      }
      var pair := Setting(line);
      if pair.None? {
        continue;
      }
      var value := TomlScalar(pair.value.1);
      if value.None? {
        continue;
      }
      if section == Env {
        env := env[pair.value.0 := Shown(value.value, show)];
        continue;
      }
      if vm.Some? {
        vm := Some(Machine(vm.value, pair.value.0, value.value));
      }
    }
    assert lines[|lines|..] == [];
  }

  // ----- What a server cannot start without -----------------------------------

  const REQUIRED_FLY_ENV := ["MODE", "STORAGE_ADAPTER", "S3_BUCKET", "S3_INTERNAL_BUCKET", "S3_ENDPOINT", "PUBLIC_BASE_URL", "INITIAL_ADMIN_EMAILS"]

  predicate Blankish(env: map<string, string>, key: string) {
    key !in env || Trim(env[key]) == ""
  }

  function MissingOf(keys: seq<string>, env: map<string, string>): seq<string> {
    if keys == [] then [] else (if Blankish(env, keys[0]) then [keys[0]] else []) + MissingOf(keys[1..], env)
  }

  function MissingFlyEnv(env: map<string, string>): seq<string> {
    MissingOf(REQUIRED_FLY_ENV, env)
  }
}
