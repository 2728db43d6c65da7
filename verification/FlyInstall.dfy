/** What an install on Fly asks for and accepts, and why each `fly.toml` it writes is read
    back whole (cli/src/flySetup.ts, cli/src/commands/flyInstall.ts). */
module FlyInstall {
  import opened Wrappers
  import opened Strings
  import opened FlyToml
  import opened TomlTheorems

  /** `toLowerCase`. */
  type LowerCase = string -> string

  /** `new URL(endpoint).origin`, or nothing where the constructor throws. */
  type OriginOf = string -> Option<string>

  // ----- The company's name ---------------------------------------------------

  const MAX_NAME_LENGTH := 63

  predicate IsLetter(c: char) {
    'a' <= c <= 'z'
  }

  predicate IsSlugChar(c: char) {
    IsLetter(c) || IsDigit(c)
  }

  /** A dash for each run of other characters; `inRun` when one has just been put. */
  function Dashed(s: string, inRun: bool): string {
    if s == "" then ""
    else if IsSlugChar(s[0]) then [s[0]] + Dashed(s[1..], false)
    else (if inRun then "" else "-") + Dashed(s[1..], true)
  }

  function WithoutFirstDashes(s: string): string {
    if s != "" && s[0] == '-' then WithoutFirstDashes(s[1..]) else s
  }

  function WithoutLastDashes(s: string): string {
    if s != "" && s[|s| - 1] == '-' then WithoutLastDashes(s[..|s| - 1]) else s
  }

  function Slug(company: string, lower: LowerCase): string {
    WithoutLastDashes(WithoutFirstDashes(Dashed(lower(Trim(company)), false)))
  }

  const PATCH := "-patch"

  predicate EndsWith(s: string, end: string) {
    |end| <= |s| && s[|s| - |end|..] == end
  }

  function StemOf(slug: string): string {
    if EndsWith(slug, PATCH) then slug else slug + PATCH
  }

  /** Small letters, digits and single inner dashes, a letter first. */
  predicate IsStem(s: string) {
    && s != "" && IsLetter(s[0])
    && (forall k | 1 <= k < |s| :: IsSlugChar(s[k]) || (s[k] == '-' && k + 1 < |s| && IsSlugChar(s[k + 1])))
  }

  function CompanyStem(company: string, lower: LowerCase): Option<string> {
    var slug := Slug(company, lower);
    if slug == "" || !IsLetter(slug[0]) then None
    else
      var stem := StemOf(slug);
      if !IsStem(stem) || |stem + "-internal"| > MAX_NAME_LENGTH then None else Some(stem)
  }

  /** Slug characters with single dashes between them, and perhaps one at either end. */
  predicate SingleDashes(s: string) {
    && (forall k | 0 <= k < |s| :: IsSlugChar(s[k]) || s[k] == '-')
    && (forall k | 0 <= k < |s| - 1 :: s[k] == '-' ==> s[k + 1] != '-')
  }

  lemma {:induction false} DashedIsSingle(s: string, inRun: bool)
    ensures SingleDashes(Dashed(s, inRun))
    ensures inRun && Dashed(s, inRun) != "" ==> Dashed(s, inRun)[0] != '-'
    decreases |s|
  {
    if s != "" {
      DashedIsSingle(s[1..], !IsSlugChar(s[0]));
    }
  }

  lemma {:induction false} FirstDashesGo(s: string)
    requires SingleDashes(s)
    ensures var t := WithoutFirstDashes(s); SingleDashes(t) && (t == "" || t[0] != '-')
    decreases |s|
  {
    if s != "" && s[0] == '-' {
      FirstDashesGo(s[1..]);
    }
  }

  lemma {:induction false} LastDashesGo(s: string)
    requires SingleDashes(s) && (s == "" || s[0] != '-')
    ensures var t := WithoutLastDashes(s); SingleDashes(t) && (t == "" || (t[0] != '-' && t[|t| - 1] != '-'))
    decreases |s|
  {
    if s != "" && s[|s| - 1] == '-' {
      LastDashesGo(s[..|s| - 1]);
    }
  }

  lemma SlugIsSingle(company: string, lower: LowerCase)
    ensures var slug := Slug(company, lower);
      SingleDashes(slug) && (slug == "" || (slug[0] != '-' && slug[|slug| - 1] != '-'))
  {
    var dashed := Dashed(lower(Trim(company)), false);
    DashedIsSingle(lower(Trim(company)), false);
    FirstDashesGo(dashed);
    LastDashesGo(WithoutFirstDashes(dashed));
  }

  lemma StemIsStem(slug: string)
    requires SingleDashes(slug) && slug != "" && IsLetter(slug[0]) && slug[|slug| - 1] != '-'
    ensures IsStem(StemOf(slug)) && EndsWith(StemOf(slug), PATCH)
  {
    var stem := StemOf(slug);
    if !EndsWith(slug, PATCH) {
      assert stem[|slug|..] == PATCH;
      forall k | 1 <= k < |stem| ensures IsSlugChar(stem[k]) || (stem[k] == '-' && k + 1 < |stem| && IsSlugChar(stem[k + 1])) {
        if k < |slug| {
          assert stem[k] == slug[k];
        } else {
          assert stem[k] == PATCH[k - |slug|];
        }
      }
    }
  }

  /** A company is refused only for a name without a letter to begin with, or for its
      length; the shape check after that refuses nothing. */
  lemma RefusedExactlyWhen(company: string, lower: LowerCase)
    ensures var slug := Slug(company, lower);
      CompanyStem(company, lower).None? <==> slug == "" || !IsLetter(slug[0]) || |StemOf(slug)| + 9 > MAX_NAME_LENGTH
  {
    var slug := Slug(company, lower);
    SlugIsSingle(company, lower);
    if slug != "" && IsLetter(slug[0]) {
      StemIsStem(slug);
    }
  }

  lemma {:induction false} DashedFixed(s: string)
    requires SingleDashes(s)
    ensures Dashed(s, false) == s
    ensures s != "" && s[0] != '-' ==> Dashed(s, true) == s
    decreases |s|
  {
    if s != "" {
      DashedFixed(s[1..]);
      assert s == [s[0]] + s[1..];
    }
  }

  /** A stem given as the company is that stem again. */
  lemma StemIsFixed(company: string, lower: LowerCase)
    requires CompanyStem(company, lower).Some? && lower(CompanyStem(company, lower).value) == CompanyStem(company, lower).value
    ensures CompanyStem(CompanyStem(company, lower).value, lower) == CompanyStem(company, lower)
  {
    var stem := CompanyStem(company, lower).value;
    SlugIsSingle(company, lower);
    StemIsStem(Slug(company, lower));
    assert stem[|stem| - 1] == PATCH[5];
    TrimFixed(stem);
    DashedFixed(stem);
  }

  // ----- The other answers ----------------------------------------------------

  /** `checkAdminEmail`: no white space, one `@`, and a dot after it with text on both sides. */
  ghost predicate LooksLikeEmail(value: string) {
    exists at: nat, dot: nat :: PartedAt(value, at, dot)
  }

  predicate PartedAt(value: string, at: nat, dot: nat) {
    && 0 < at < dot - 1 && dot < |value| - 1 && value[at] == '@' && value[dot] == '.'
    && forall k | 0 <= k < |value| && k != at :: !IsSpace(value[k]) && value[k] != '@'
  }

  /** Text without white space or `@`, and some of it. */
  predicate IsPart(s: string) {
    s != "" && forall k | 0 <= k < |s| :: !IsSpace(s[k]) && s[k] != '@'
  }

  /** That is: a part, an `@`, a part, a dot, a part. */
  lemma EmailIsItsParts(value: string)
    ensures LooksLikeEmail(value) <==>
      exists name, host, domain | IsPart(name) && IsPart(host) && IsPart(domain) :: value == name + "@" + host + "." + domain
  {
    if at: nat, dot: nat :| PartedAt(value, at, dot) {
      var name, host, domain := value[..at], value[at + 1..dot], value[dot + 1..];
      assert IsPart(name) && IsPart(host) && IsPart(domain);
      assert value == name + "@" + host + "." + domain;
    }
    if name, host, domain :| IsPart(name) && IsPart(host) && IsPart(domain) && value == name + "@" + host + "." + domain {
      PartsLookLikeEmail(name, host, domain);
    }
  }

  lemma PartsLookLikeEmail(name: string, host: string, domain: string)
    requires IsPart(name) && IsPart(host) && IsPart(domain)
    ensures LooksLikeEmail(name + "@" + host + "." + domain)
  {
    var value, at := name + "@" + host + "." + domain, |name|;
    var dot := at + 1 + |host|;
    forall k | 0 <= k < |value| && k != at ensures !IsSpace(value[k]) && value[k] != '@' {
      assert value[k] == if k < at then name[k] else if k < dot then host[k - at - 1] else if k == dot then '.' else domain[k - dot - 1];
    }
    assert PartedAt(value, at, dot);
  }

  /** `checkEmail`. */
  ghost predicate EmailAccepted(value: string) {
    LooksLikeEmail(value) && '"' !in value && '\n' !in value && '\\' !in value
  }

  predicate IsRegion(value: string) {
    |value| == 3 && forall k | 0 <= k < 3 :: IsLetter(value[k])
  }

  const TAG := "codemagic-patch-server-v"

  ghost predicate IsServerTag(name: string) {
    exists a, b, c | AllDigits(a) && AllDigits(b) && AllDigits(c) :: name == TAG + a + "." + b + "." + c
  }

  function PublicBaseUrl(bucket: string): string {
    "https://" + bucket + ".t3.tigrisfiles.io"
  }

  // ----- The access key Tigris prints -----------------------------------------

  datatype AccessKeyExport = AccessKeyExport(
    accessKeyId: string,
    endpoint: Option<string>,
    region: Option<string>,
    secretAccessKey: string)

  predicate IsWordChar(c: char) {
    'A' <= c <= 'Z' || 'a' <= c <= 'z' || '0' <= c <= '9' || c == '_'
  }

  function WordLength(s: string): (n: nat)
    ensures n <= |s|
  {
    if s != "" && IsWordChar(s[0]) then 1 + WordLength(s[1..]) else 0
  }

  const EXPORT := "export"

  function WithoutExport(line: string): string {
    if StartsWith(line, EXPORT) && |line| > 6 && IsSpace(line[6]) then TrimStart(line[6..]) else line
  }

  function Unquoted(value: string): string {
    if value != "" && value[0] in {'"', '\''} && value[|value| - 1] == value[0]
    then (if |value| == 1 then "" else value[1..|value| - 1])
    else value
  }

  /** The line as `NAME=value`, an `export` before it or not. */
  function Exported(line: string): Option<(string, string)> {
    var text := WithoutExport(Trim(line));
    var n := WordLength(text);
    if n == 0 || n == |text| || text[n] != '=' || !OneLine(text[n + 1..]) then None
    else Some((text[..n], Unquoted(Trim(text[n + 1..]))))
  }

  function Exports(lines: seq<string>, values: map<string, string>): map<string, string>
    decreases |lines|
  {
    if lines == [] then values
    else
      Exports(lines[1..], match Exported(lines[0]) case None => values case Some((name, value)) => values[name := value])
  }

  /** `values.get(name) ?? values.get(other)`. */
  function Either(values: map<string, string>, name: string, other: string): Option<string> {
    if name in values then Some(values[name]) else Get(values, other)
  }

  function KeyIn(values: map<string, string>): Option<AccessKeyExport> {
    var accessKeyId := Either(values, "AWS_ACCESS_KEY_ID", "TIGRIS_STORAGE_ACCESS_KEY_ID");
    var secretAccessKey := Either(values, "AWS_SECRET_ACCESS_KEY", "TIGRIS_STORAGE_SECRET_ACCESS_KEY");
    if accessKeyId in {None, Some("")} || secretAccessKey in {None, Some("")} then None
    else Some(AccessKeyExport(
      accessKeyId.value,
      Either(values, "AWS_ENDPOINT_URL_S3", "TIGRIS_STORAGE_ENDPOINT"),
      Either(values, "AWS_REGION", "TIGRIS_STORAGE_REGION"),
      secretAccessKey.value))
  }

  function KeyOf(output: string): Option<AccessKeyExport> {
    KeyIn(Exports(Split(output, '\n'), map[]))
  }

  method ParseAccessKeyExport(output: string) returns (key: Option<AccessKeyExport>)
    ensures key == KeyOf(output)
  {
    var values: map<string, string> := map[];
    var lines := Split(output, '\n');
    for k := 0 to |lines|
      invariant Exports(lines, map[]) == Exports(lines[k..], values)
    {
      assert lines[k..][1..] == lines[k + 1..];
      var pair := Exported(lines[k]);
      if pair.None? {
        continue;
      }
      values := values[pair.value.0 := pair.value.1];
    }
    assert lines[|lines|..] == [];
    key := KeyIn(values);
  }

  lemma PartIsOneLine(s: string, from: nat, to: nat)
    requires OneLine(s) && from <= to <= |s|
    ensures OneLine(s[from..to])
  {
  }

  lemma {:induction false} TrimStartIsOneLine(s: string)
    requires OneLine(s)
    ensures OneLine(TrimStart(s))
    decreases |s|
  {
    if s != "" {
      TrimStartIsOneLine(s[1..]);
    }
  }

  lemma TrimIsOneLine(s: string)
    requires OneLine(s)
    ensures OneLine(Trim(s))
  {
    TrimStartIsOneLine(s);
    var t := TrimStart(s);
    assert TrimEnd(t) == t[..|TrimEnd(t)|];
  }

  predicate AllOneLine(values: map<string, string>) {
    forall name | name in values :: OneLine(values[name])
  }

  /** No value of the output breaks a line. */
  lemma {:induction false} ExportsAreOneLine(lines: seq<string>, values: map<string, string>)
    requires AllOneLine(values)
    ensures AllOneLine(Exports(lines, values))
    decreases |lines|
  {
    if lines != [] {
      ExportedIsOneLine(lines[0]);
      ExportsAreOneLine(lines[1..], match Exported(lines[0]) case None => values case Some((name, value)) => values[name := value]);
    }
  }

  lemma ExportedIsOneLine(line: string)
    ensures Exported(line).Some? ==> OneLine(Exported(line).value.1)
  {
    var text := WithoutExport(Trim(line));
    var n := WordLength(text);
    if n < |text| && OneLine(text[n + 1..]) {
      TrimIsOneLine(text[n + 1..]);
    }
  }

  // ----- The file -------------------------------------------------------------

  /** What an install has been told: answers, the release's tag, Tigris' output. */
  datatype Told = Told(company: string, region: string, email: string, tag: string, exported: string)

  const TIGRIS_ENDPOINT := "https://t3.storage.dev"

  function OrElse(value: Option<string>, other: string): string {
    if value in {None, Some("")} then other else value.value
  }

  /** Each check on the way to the file has passed. */
  ghost predicate Accepted(t: Told, lower: LowerCase, originOf: OriginOf) {
    && CompanyStem(t.company, lower).Some? && IsRegion(t.region) && EmailAccepted(t.email) && IsServerTag(t.tag)
    && KeyOf(t.exported).Some? && originOf(OrElse(KeyOf(t.exported).value.endpoint, TIGRIS_ENDPOINT)).Some?
  }

  ghost function FileInput(t: Told, lower: LowerCase, originOf: OriginOf): PatchTomlInput
    requires Accepted(t, lower, originOf)
  {
    var stem, key := CompanyStem(t.company, lower).value, KeyOf(t.exported).value;
    PatchTomlInput(t.email, originOf(OrElse(key.endpoint, TIGRIS_ENDPOINT)).value, PublicBaseUrl(stem), t.region, OrElse(key.region, "auto"),
                   t.tag, stem)
  }

  /** Serialised origins are printable ASCII, and no scheme, host or port holds a backslash. */
  ghost predicate Origins(originOf: OriginOf) {
    forall endpoint | originOf(endpoint).Some? :: IsOrigin(originOf(endpoint).value)
  }

  predicate IsOrigin(s: string) {
    s != "" && forall k | 0 <= k < |s| :: '!' <= s[k] <= '~' && s[k] != '\\'
  }

  /** Text without white space, quotes or backslashes. */
  predicate Solid(s: string) {
    s != "" && forall k | 0 <= k < |s| :: !IsSpace(s[k]) && s[k] != '"' && s[k] != '\\'
  }

  lemma SolidIsKept(s: string)
    requires Solid(s)
    ensures Storable(s) && OneLine(s) && Present(s)
  {
    TrimFixed(s);
  }

  lemma SolidCat(a: string, b: string)
    requires Solid(a) && Solid(b)
    ensures Solid(a + b)
  {
  }

  lemma StemIsSolid(stem: string)
    requires IsStem(stem)
    ensures Solid(stem) && Solid(stem + "-internal") && Solid(PublicBaseUrl(stem))
  {
    SolidCat(stem, "-internal");
    SolidCat("https://", stem);
    SolidCat("https://" + stem, ".t3.tigrisfiles.io");
  }

  lemma TagIsSolid(tag: string)
    requires IsServerTag(tag)
    ensures Solid(tag)
  {
    var a, b, c :| AllDigits(a) && AllDigits(b) && AllDigits(c) && tag == TAG + a + "." + b + "." + c;
    SolidCat(TAG, a);
    SolidCat(TAG + a, ".");
    SolidCat(TAG + a + ".", b);
    SolidCat(TAG + a + "." + b, ".");
    SolidCat(TAG + a + "." + b + ".", c);
  }

  lemma EmailIsSolid(email: string)
    requires EmailAccepted(email)
    ensures Solid(email)
  {
    assert !IsSpace('@');
  }

  /** What the checks leave: solid text, but for the two values that come from Tigris. */
  predicate WellTold(i: PatchTomlInput) {
    && Solid(i.stem) && Solid(i.stem + "-internal") && Solid(i.region) && Solid(i.publicBaseUrl) && Solid(i.email) && Solid(i.serverTag)
    && IsOrigin(i.origin) && OneLine(i.s3Region)
  }

  lemma AcceptedIsWellTold(t: Told, lower: LowerCase, originOf: OriginOf)
    requires Accepted(t, lower, originOf) && Origins(originOf)
    ensures WellTold(FileInput(t, lower, originOf))
  {
    hide IsStem, Slug, IsServerTag, EmailAccepted, Solid, PublicBaseUrl, IsOrigin;
    var stem := CompanyStem(t.company, lower).value;
    assert IsStem(stem);
    StemIsSolid(stem);
    TagIsSolid(t.tag);
    EmailIsSolid(t.email);
    CodeIsSolid(t.region);
    RegionIsOneLine(t.exported);
  }

  lemma CodeIsSolid(region: string)
    requires IsRegion(region)
    ensures Solid(region)
  {
  }

  lemma RegionIsOneLine(output: string)
    ensures KeyOf(output).Some? ==> OneLine(OrElse(KeyOf(output).value.region, "auto"))
  {
    hide Exports;
    ExportsAreOneLine(Split(output, '\n'), map[]);
  }

  lemma OriginIsKept(origin: string)
    requires IsOrigin(origin)
    ensures OneLine(origin) && (Storable(origin) <==> '"' !in origin) && Present(origin)
  {
    assert forall k | 0 <= k < |origin| :: !IsSpace(origin[k]);
    TrimFixed(origin);
  }

  lemma RegionIsKept(s3Region: string)
    requires OneLine(s3Region)
    ensures Storable(s3Region) <==> '"' !in s3Region && '\\' !in s3Region
  {
  }

  lemma WellToldIsKept(i: PatchTomlInput)
    requires WellTold(i)
    ensures AllStorable(i) <==> '"' !in i.origin && '"' !in i.s3Region && '\\' !in i.s3Region
    ensures OneLine(i.stem) && OneLine(i.origin) && OneLine(i.s3Region) && OneLine(i.publicBaseUrl) && OneLine(i.email) && OneLine(i.serverTag)
    ensures Present(i.stem) && Present(i.origin) && Present(i.publicBaseUrl) && Present(i.email)
  {
    hide Solid, IsOrigin, OneLine, Storable, Present;
    SolidIsKept(i.stem);
    SolidIsKept(i.stem + "-internal");
    SolidIsKept(i.region);
    SolidIsKept(i.publicBaseUrl);
    SolidIsKept(i.email);
    SolidIsKept(i.serverTag);
    OriginIsKept(i.origin);
    RegionIsKept(i.s3Region);
  }

  /** Every file an install writes is read back exactly at upgrade, with no key missing that
      a server needs; and it writes one unless the endpoint or the region that Tigris printed
      holds a quote, or the region a backslash. */
  lemma InstallIsReadBack(t: Told, lower: LowerCase, originOf: OriginOf, show: real -> string)
    requires Accepted(t, lower, originOf) && Origins(originOf)
    ensures var i := FileInput(t, lower, originOf);
      && (PatchFlyToml(i).Some? <==> '"' !in i.origin && '"' !in i.s3Region && '\\' !in i.s3Region)
      && (PatchFlyToml(i).Some? ==>
            Read(i, show).env == Written(i) && Read(i, show).vm == Some(SMALL_VM) && MissingFlyEnv(Read(i, show).env) == [])
  {
    hide Accepted, FileInput, WellTold, AllStorable, Read, Written, ReadsRow, Present, OneLine;
    var i := FileInput(t, lower, originOf);
    AcceptedIsWellTold(t, lower, originOf);
    WellToldIsKept(i);
    if AllStorable(i) {
      InstallReadsBack(i, show);
      NothingMissing(i, show);
    }
  }
}
