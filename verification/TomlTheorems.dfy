/** What a `fly.toml` holds is what is read out of it: exactly when no value of `[env]` holds
    a line terminator. */
module TomlTheorems {
  import opened Wrappers
  import opened Strings
  import opened TextLines
  import opened FlyToml

  // ----- One row --------------------------------------------------------------

  predicate Spaces(s: string) {
    forall k | 0 <= k < |s| :: s[k] == ' '
  }

  predicate BareKey(key: string) {
    key != "" && forall k | 0 <= k < |key| :: IsKeyChar(key[k])
  }

  lemma {:induction false} TrimIndent(indent: string, text: string)
    requires Spaces(indent) && text != "" && Trimmed(text)
    ensures Trim(indent + text) == text
    decreases |indent|
  {
    if indent == "" {
      assert indent + text == text;
      TrimFixed(text);
    } else {
      assert (indent + text)[1..] == indent[1..] + text;
      TrimIndent(indent[1..], text);
    }
  }

  lemma {:induction false} BareLengthIs(key: string, rest: string)
    requires (forall k | 0 <= k < |key| :: IsKeyChar(key[k])) && (rest == "" || !IsKeyChar(rest[0]))
    ensures BareLength(key + rest) == |key|
    decreases |key|
  {
    if key == "" {
      assert key + rest == rest;
    } else {
      assert (key + rest)[1..] == key[1..] + rest;
      BareLengthIs(key[1..], rest);
    }
  }

  /** A setting's line is its key and its text. */
  lemma SettingIs(key: string, text: string)
    requires BareKey(key) && text != "" && Trimmed(text)
    ensures Setting(key + " = " + text) == if OneLine(text) then Some((key, text)) else None
  {
    var line, rest := key + " = " + text, " = " + text;
    assert line == key + rest;
    BareLengthIs(key, rest);
    assert line[..|key|] == key && line[|key|..] == rest;
    var after := "= " + text;
    assert rest[1..] == after && TrimStart(rest) == after by {
      assert TrimStart(after) == after;
    }
    assert after[1..] == " " + text && (" " + text)[1..] == text;
    assert TrimStart(" " + text) == text;
  }

  lemma KeyStarts(key: string, text: string)
    requires BareKey(key) && text != "" && Trimmed(text)
    ensures var line := key + " = " + text;
      line != "" && Trimmed(line) && !StartsWith(line, "#") && !StartsWith(line, "[")
  {
    var line := key + " = " + text;
    assert line[0] == key[0] && line[|line| - 1] == text[|text| - 1] && IsKeyChar(key[0]);
    assert line[..1] == [line[0]];
  }

  /** Storing a setting as the reader does, its value already read. */
  function Take(key: string, text: string, s: Saved, show: real -> string): Saved {
    if (!s.section.Env? && !s.section.VmTable?) || !OneLine(text) || TomlScalar(text).None? then s
    else Store(key, TomlScalar(text).value, s, show)
  }

  lemma SettingReads(indent: string, key: string, text: string, s: Saved, show: real -> string)
    requires Spaces(indent) && BareKey(key) && text != "" && Trimmed(text)
    ensures ReadLine(indent + key + " = " + text, s, show) == Take(key, text, s, show)
  {
    var line := key + " = " + text;
    assert indent + key + " = " + text == indent + line;
    KeyStarts(key, text);
    TrimIndent(indent, line);
    SettingIs(key, text);
  }

  lemma {:induction false} UnescapedFixed(body: string)
    requires '\\' !in body
    ensures Unescaped(body) == body
    decreases |body|
  {
    if body != "" {
      UnescapedFixed(body[1..]);
      assert body == [body[0]] + body[1..];
    }
  }

  /** A storable value reads as itself. */
  lemma QuotedReads(value: string)
    requires Storable(value)
    ensures Trimmed(QUOTE + value + QUOTE) && TomlScalar(QUOTE + value + QUOTE) == Some(Text(value))
    ensures OneLine(QUOTE + value + QUOTE) <==> OneLine(value)
  {
    hide OneLine;
    var text := QUOTE + value + QUOTE;
    assert text[0] == '"' && text[|text| - 1] == '"' && !IsSpace('"');
    TrimFixed(text);
    assert text[1..] == value + QUOTE && (value + QUOTE)[|value|] == '"' && (value + QUOTE)[..|value|] == value;
    FindAt(value + QUOTE, '"', |value|);
    UnescapedFixed(value);
    QuotedOneLine(value);
  }

  lemma QuotedOneLine(value: string)
    ensures OneLine(QUOTE + value + QUOTE) <==> OneLine(value)
  {
    var text := QUOTE + value + QUOTE;
    assert forall k | 0 <= k < |value| :: value[k] == text[k + 1];
  }

  // ----- A row's meaning ------------------------------------------------------

  predicate Printable(s: string) {
    forall k | 0 <= k < |s| :: ' ' <= s[k] <= '~'
  }

  predicate Tidy(row: Row) {
    match row
    case Blank => true
    case Header(indent, name) => Spaces(indent) && StartsWith(name, "[") && Trimmed(name) && Printable(name)
    case Quoted(indent, key, value) => Spaces(indent) && BareKey(key) && Storable(value)
    case Plain(indent, key, text) => Spaces(indent) && BareKey(key) && text != "" && Trimmed(text) && Printable(text)
  }

  function Means(row: Row, s: Saved, show: real -> string): Saved {
    match row
    case Blank => s
    case Header(_, name) => Head(name, s)
    case Quoted(_, key, value) =>
      if (s.section.Env? || s.section.VmTable?) && OneLine(value) then Store(key, Text(value), s, show) else s
    case Plain(_, key, text) => Take(key, text, s, show)
  }

  lemma HeaderReads(indent: string, name: string, s: Saved, show: real -> string)
    requires Spaces(indent) && StartsWith(name, "[") && Trimmed(name)
    ensures ReadLine(indent + name, s, show) == Head(name, s)
  {
    TrimIndent(indent, name);
    assert name[..1][0] == '[';
    assert name[..1] == [name[0]];
  }

  lemma RowReads(row: Row, s: Saved, show: real -> string)
    requires Tidy(row)
    ensures ReadLine(Print(row), s, show) == Means(row, s, show)
  {
    match row
    case Blank => assert Trim("") == "";
    case Header(indent, name) => HeaderReads(indent, name, s, show);
    case Quoted(indent, key, value) =>
      QuotedReads(value);
      SettingReads(indent, key, QUOTE + value + QUOTE, s, show);
    case Plain(indent, key, text) => SettingReads(indent, key, text, s, show);
  }

  predicate AllTidy(rows: seq<Row>) {
    forall k | 0 <= k < |rows| :: Tidy(rows[k])
  }

  function MeansAll(rows: seq<Row>, s: Saved, show: real -> string): Saved
    decreases |rows|
  {
    if rows == [] then s else MeansAll(rows[1..], Means(rows[0], s, show), show)
  }

  lemma {:induction false} RowsRead(rows: seq<Row>, s: Saved, show: real -> string)
    requires AllTidy(rows)
    ensures ReadLines(PrintAll(rows) + [""], s, show) == MeansAll(rows, s, show)
    decreases |rows|
  {
    if rows == [] {
      assert PrintAll(rows) + [""] == [""] && [""][1..] == [];
      assert Trim("") == "";
    } else {
      RowReads(rows[0], s, show);
      var lines := PrintAll(rows) + [""];
      assert lines[1..] == PrintAll(rows[1..]) + [""];
      RowsRead(rows[1..], Means(rows[0], s, show), show);
    }
  }

  lemma {:induction false} MeansCat(a: seq<Row>, b: seq<Row>, s: Saved, show: real -> string)
    ensures MeansAll(a + b, s, show) == MeansAll(b, MeansAll(a, s, show), show)
    decreases |a|
  {
    if a == [] {
      assert a + b == b;
    } else {
      assert (a + b)[1..] == a[1..] + b;
      MeansCat(a[1..], b, Means(a[0], s, show), show);
    }
  }

  // ----- Sections -------------------------------------------------------------

  predicate Elsewhere(row: Row) {
    row.Header? ==> row.name != "[env]" && row.name != "[[vm]]"
  }

  /** Outside `[env]` and `[[vm]]` nothing is taken. */
  lemma {:induction false} Skipped(rows: seq<Row>, s: Saved, show: real -> string)
    requires s.section.Outside? || s.section.Other?
    requires forall k | 0 <= k < |rows| :: Elsewhere(rows[k])
    ensures var t := MeansAll(rows, s, show);
      t.env == s.env && t.vm == s.vm && (t.section.Outside? || t.section.Other?)
    decreases |rows|
  {
    if rows != [] {
      Skipped(rows[1..], Means(rows[0], s, show), show);
    }
  }

  /** After the other table's header, the same from any section. */
  lemma SkippedTable(rows: seq<Row>, s: Saved, show: real -> string)
    requires rows != [] && rows[0].Header? && forall k | 0 <= k < |rows| :: Elsewhere(rows[k])
    ensures var t := MeansAll(rows, s, show);
      t.env == s.env && t.vm == s.vm && (t.section.Outside? || t.section.Other?)
  {
    Skipped(rows[1..], Means(rows[0], s, show), show);
  }

  predicate QuotedRows(rows: seq<Row>) {
    forall k | 0 <= k < |rows| :: rows[k].Quoted?
  }

  function Kept(rows: seq<Row>, env: map<string, string>): map<string, string>
    requires QuotedRows(rows)
    decreases |rows|
  {
    if rows == [] then env
    else Kept(rows[1..], if OneLine(rows[0].value) then env[rows[0].key := rows[0].value] else env)
  }

  lemma {:induction false} EnvKept(rows: seq<Row>, s: Saved, show: real -> string)
    requires s.section.Env? && QuotedRows(rows)
    ensures MeansAll(rows, s, show) == s.(env := Kept(rows, s.env))
    decreases |rows|
  {
    if rows != [] {
      EnvKept(rows[1..], Means(rows[0], s, show), show);
    }
  }

  ghost predicate DistinctKeys(rows: seq<Row>)
    requires QuotedRows(rows)
  {
    forall i, j | 0 <= i < j < |rows| :: rows[i].key != rows[j].key
  }

  /** A key's value in the table, when it has one line. */
  ghost function RowOf(rows: seq<Row>, key: string): Option<string>
    requires QuotedRows(rows)
    decreases |rows|
  {
    if rows == [] then None
    else if rows[0].key == key then (if OneLine(rows[0].value) then Some(rows[0].value) else None)
    else RowOf(rows[1..], key)
  }

  lemma {:induction false} KeptIs(rows: seq<Row>, env: map<string, string>, key: string)
    requires QuotedRows(rows) && DistinctKeys(rows)
    ensures key in Kept(rows, env) <==> key in env || RowOf(rows, key).Some?
    ensures key in Kept(rows, env) ==> Kept(rows, env)[key] == if RowOf(rows, key).Some? then RowOf(rows, key).value else env[key]
    decreases |rows|
  {
    if rows != [] {
      KeptIs(rows[1..], if OneLine(rows[0].value) then env[rows[0].key := rows[0].value] else env, key);
      if rows[0].key == key {
        NotAgain(rows[1..], key);
      }
    }
  }

  lemma {:induction false} NotAgain(rows: seq<Row>, key: string)
    requires QuotedRows(rows) && forall k | 0 <= k < |rows| :: rows[k].key != key
    ensures RowOf(rows, key).None?
    decreases |rows|
  {
    if rows != [] {
      NotAgain(rows[1..], key);
    }
  }

  lemma {:induction false} RowOfAt(rows: seq<Row>, k: nat)
    requires QuotedRows(rows) && DistinctKeys(rows) && k < |rows|
    ensures RowOf(rows, rows[k].key) == if OneLine(rows[k].value) then Some(rows[k].value) else None
    decreases |rows|
  {
    if k > 0 {
      RowOfAt(rows[1..], k - 1);
    }
  }

  // ----- The file -------------------------------------------------------------

  lemma PrintIsLine(row: Row)
    requires Tidy(row)
    ensures '\n' !in Print(row) && !Returns(Print(row))
  {
    match row
    case Blank =>
    case Header(indent, name) =>
    case Quoted(indent, key, value) =>
    case Plain(indent, key, text) =>
  }

  lemma {:induction false} PrintedLines(rows: seq<Row>)
    requires AllTidy(rows)
    ensures |PrintAll(rows)| == |rows|
    ensures forall k | 0 <= k < |rows| :: '\n' !in PrintAll(rows)[k] && !Returns(PrintAll(rows)[k])
    decreases |rows|
  {
    if rows != [] {
      PrintIsLine(rows[0]);
      PrintedLines(rows[1..]);
    }
  }

  lemma TopKeysTidy(value: string)
    requires Storable(value)
    ensures Tidy(Quoted("", "app", value)) && Tidy(Quoted("", "primary_region", value))
  {
  }

  lemma BuildTableTidy()
    ensures Tidy(Header("", "[build]"))
  {
  }

  lemma BuildKeyTidy()
    ensures Tidy(Quoted("  ", "dockerfile", "server/Dockerfile"))
  {
    DockerfileStorable();
  }

  lemma DockerfileStorable()
    ensures Storable("server/Dockerfile")
  {
  }

  lemma TopTidy(i: PatchTomlInput)
    requires AllStorable(i)
    ensures AllTidy(TopRows(i)) && forall k | 0 <= k < |TopRows(i)| :: Elsewhere(TopRows(i)[k])
  {
    var rows := TopRows(i);
    TopKeysTidy(i.stem);
    TopKeysTidy(i.region);
    BuildTableTidy();
    BuildKeyTidy();
  }

  lemma EnvKeysTidy(value: string)
    requires Storable(value)
    ensures Tidy(Quoted("  ", "MODE", value)) && Tidy(Quoted("  ", "STORAGE_ADAPTER", value)) && Tidy(Quoted("  ", "S3_BUCKET", value))
    ensures Tidy(Quoted("  ", "S3_INTERNAL_BUCKET", value))
  {
  }

  lemma StorageKeysTidy(value: string)
    requires Storable(value)
    ensures Tidy(Quoted("  ", "S3_ENDPOINT", value)) && Tidy(Quoted("  ", "S3_FORCE_PATH_STYLE", value)) && Tidy(Quoted("  ", "S3_REGION", value))
  {
  }

  lemma ServerKeysTidy(value: string)
    requires Storable(value)
    ensures Tidy(Quoted("  ", "PUBLIC_BASE_URL", value))
    ensures Tidy(Quoted("  ", "INITIAL_ADMIN_EMAILS", value)) && Tidy(Quoted("  ", "PATCH_SERVER_TAG", value))
  {
  }

  lemma EnvTidy(i: PatchTomlInput)
    requires AllStorable(i)
    ensures AllTidy(EnvRows(i)) && QuotedRows(EnvRows(i))
  {
    var rows := EnvRows(i);
    forall k | 0 <= k < |rows| ensures Tidy(rows[k]) {
      assert Storable("all") && Storable("s3") && Storable("true");
      EnvKeysTidy(rows[k].value);
      StorageKeysTidy(rows[k].value);
      ServerKeysTidy(rows[k].value);
    }
  }

  lemma ServiceTableTidy()
    ensures Tidy(Header("", "[http_service]")) && Elsewhere(Header("", "[http_service]"))
  {
  }

  lemma ChecksTableTidy()
    ensures Tidy(Header("  ", "[[http_service.checks]]")) && Elsewhere(Header("  ", "[[http_service.checks]]"))
  {
  }

  lemma ServiceKeysTidy()
    ensures Tidy(Plain("  ", "internal_port", "3000")) && Tidy(Plain("  ", "force_https", "true"))
  {
  }

  lemma StartKeyTidy()
    ensures Tidy(Plain("  ", "auto_start_machines", "true"))
  {
  }

  lemma StopKeyTidy()
    ensures Tidy(Quoted("  ", "auto_stop_machines", "suspend"))
  {
  }

  lemma RunningKeyTidy()
    ensures Tidy(Plain("  ", "min_machines_running", "0"))
  {
  }

  lemma CheckKeysTidy()
    ensures Tidy(Quoted("    ", "method", "GET"))
    ensures Tidy(Quoted("    ", "path", "/health")) && Tidy(Quoted("    ", "interval", "15s")) && Tidy(Quoted("    ", "timeout", "5s"))
  {
  }

  lemma ServiceTidy()
    ensures AllTidy(ServiceRows()) && forall k | 0 <= k < |ServiceRows()| :: Elsewhere(ServiceRows()[k])
  {
    ServiceTableTidy();
    ChecksTableTidy();
    ServiceKeysTidy();
    StartKeyTidy();
    StopKeyTidy();
    RunningKeyTidy();
    CheckKeysTidy();
  }

  lemma VmTidy()
    ensures AllTidy(VmRows())
  {
    var rows := VmRows();
    assert Tidy(rows[0]) && Tidy(rows[1]) && Tidy(rows[2]);
  }

  lemma RowsTidy(i: PatchTomlInput)
    requires AllStorable(i)
    ensures AllTidy(Rows(i))
  {
    TopTidy(i);
    EnvTidy(i);
    ServiceTidy();
    VmTidy();
    HeadersTidy();
    TidyCat(TopRows(i), [Header("", "[env]")]);
    TidyCat(TopRows(i) + [Header("", "[env]")], EnvRows(i));
    TidyCat(TopRows(i) + [Header("", "[env]")] + EnvRows(i), [Blank]);
    TidyCat(TopRows(i) + [Header("", "[env]")] + EnvRows(i) + [Blank], ServiceRows());
    TidyCat(TopRows(i) + [Header("", "[env]")] + EnvRows(i) + [Blank] + ServiceRows(), [Header("", "[[vm]]")]);
    TidyCat(TopRows(i) + [Header("", "[env]")] + EnvRows(i) + [Blank] + ServiceRows() + [Header("", "[[vm]]")], VmRows());
  }

  lemma HeadersTidy()
    ensures Tidy(Header("", "[env]")) && Tidy(Header("", "[[vm]]"))
  {
  }

  lemma TidyCat(a: seq<Row>, b: seq<Row>)
    requires AllTidy(a) && AllTidy(b)
    ensures AllTidy(a + b)
  {
  }

  lemma NumberOne(s: Saved, show: real -> string)
    requires s.section.VmTable? && s.vm.Some?
    ensures Take("cpus", "1", s, show) == s.(vm := Some(s.vm.value.(cpus := Some(1.0))))
  {
    assert Trim("1") == "1" && WithoutComment("1") == "1";
    assert Find("1", '.') == 1 && "1"[..1] == "1" && "1"[..0] == "";
    assert DecimalValue("1") == 1;
    assert TomlScalar("1") == Some(Number(1.0));
  }

  lemma FiveTwelve()
    ensures MemoryToMb(Text("512mb")) == Some(512.0)
  {
    hide Trim, TrimStart, Lower, AmountLength, IsDecimal, RealValue;
    var s := "512mb";
    TrimOf512mb();
    AmountOf512mb();
    UnitOfMb();
    DigitsOf512();
    assert s[..3] == "512" && s[3..] == "mb";
  }

  lemma UnitOfMb()
    ensures Lower(TrimStart("mb")) == "mb"
  {
    assert "mb"[1..] == "b" && "b"[1..] == "";
    assert Lower("b") == "b" + Lower("");
  }

  lemma TrimOf512mb()
    ensures Trim("512mb") == "512mb"
  {
    TrimFixed("512mb");
  }

  lemma AmountOf512mb()
    ensures AmountLength("512mb") == 3
  {
    var s := "512mb";
    assert s[1..] == "12mb" && s[1..][1..] == "2mb" && s[1..][1..][1..] == "mb";
    assert AmountLength("mb") == 0;
    assert AmountLength("2mb") == 1;
    assert AmountLength("12mb") == 2;
  }

  lemma DigitsOf512()
    ensures IsDecimal("512") && RealValue("512") == 512.0
  {
    var s := "512";
    assert '.' !in s && Find(s, '.') == 3 && s[..3] == s;
    assert s[..2] == "51" && s[..2][..1] == "5" && s[..2][..1][..0] == "";
    assert DecimalValue("5") == 5;
    assert DecimalValue("51") == 51;
    assert DecimalValue("512") == 512;
  }

  const SMALL_VM := Vm(Some("shared"), Some(1.0), Some(512.0))

  lemma VmRead(s: Saved, show: real -> string)
    requires s.section.VmTable? && s.vm == Some(Vm(None, None, None))
    ensures MeansAll(VmRows(), s, show) == s.(vm := Some(SMALL_VM))
  {
    hide MemoryToMb, TomlScalar;
    var rows := VmRows();
    var s1 := s.(vm := Some(Vm(Some("shared"), None, None)));
    assert OneLine("shared") && OneLine("512mb");
    assert Means(rows[0], s, show) == s1;
    var s2 := s.(vm := Some(Vm(Some("shared"), Some(1.0), None)));
    NumberOne(s1, show);
    assert Means(rows[1], s1, show) == s2;
    FiveTwelve();
    assert Means(rows[2], s2, show) == s.(vm := Some(SMALL_VM));
    assert rows[1..][0] == rows[1] && rows[1..][1..][0] == rows[2] && rows[1..][1..][1..] == [];
  }

  /** The rows after `[env]`'s own. */
  lemma RestRead(s: Saved, show: real -> string)
    requires s.section.Env? && s.vm.None?
    ensures var t := MeansAll([Blank] + ServiceRows() + [Header("", "[[vm]]")] + VmRows(), s, show);
      t.env == s.env && t.vm == Some(SMALL_VM)
  {
    MeansCat([Blank] + ServiceRows() + [Header("", "[[vm]]")], VmRows(), s, show);
    MeansCat([Blank] + ServiceRows(), [Header("", "[[vm]]")], s, show);
    MeansCat([Blank], ServiceRows(), s, show);
    assert MeansAll([Blank], s, show) == s;
    ServiceTidy();
    SkippedTable(ServiceRows(), s, show);
    var t := MeansAll(ServiceRows(), s, show);
    assert MeansAll([Header("", "[[vm]]")], t, show) == t.(section := VmTable, vm := Some(Vm(None, None, None)));
    VmRead(t.(section := VmTable, vm := Some(Vm(None, None, None))), show);
  }

  lemma FileMeans(i: PatchTomlInput, show: real -> string)
    requires AllStorable(i) && QuotedRows(EnvRows(i))
    ensures var t := MeansAll(Rows(i), NOTHING, show);
      t.env == Kept(EnvRows(i), map[]) && t.vm == Some(SMALL_VM)
  {
    var env, rest := [Header("", "[env]")], [Blank] + ServiceRows() + [Header("", "[[vm]]")] + VmRows();
    hide EnvRows, ServiceRows, VmRows, Kept;
    assert Rows(i) == TopRows(i) + (env + (EnvRows(i) + rest));
    MeansCat(TopRows(i), env + (EnvRows(i) + rest), NOTHING, show);
    TopTidy(i);
    Skipped(TopRows(i), NOTHING, show);
    var top := MeansAll(TopRows(i), NOTHING, show);
    MeansCat(env, EnvRows(i) + rest, top, show);
    assert MeansAll(env, top, show) == Saved(map[], None, Env);
    MeansCat(EnvRows(i), rest, Saved(map[], None, Env), show);
    EnvKept(EnvRows(i), Saved(map[], None, Env), show);
    RestRead(Saved(Kept(EnvRows(i), map[]), None, Env), show);
  }

  lemma FileReads(i: PatchTomlInput, show: real -> string)
    requires AllStorable(i)
    ensures QuotedRows(EnvRows(i))
    ensures var saved := ReadLines(Lines(PatchFlyToml(i).value), NOTHING, show);
      saved.env == Kept(EnvRows(i), map[]) && saved.vm == Some(SMALL_VM)
  {
    EnvTidy(i);
    RowsTidy(i);
    PrintedLines(Rows(i));
    LinesRead(PrintAll(Rows(i)));
    RowsRead(Rows(i), NOTHING, show);
    FileMeans(i, show);
  }

  // ----- What comes back ------------------------------------------------------

  lemma EnvKeysApart(i: PatchTomlInput)
    requires QuotedRows(EnvRows(i))
    ensures DistinctKeys(EnvRows(i))
  {
    var rows := EnvRows(i);
    forall a, b | 0 <= a < b < |rows| ensures rows[a].key != rows[b].key {
      assert |rows[a].key| != |rows[b].key| || rows[a].key[3] != rows[b].key[3];
    }
  }

  /** The table with the rows put in. */
  function Table(rows: seq<Row>, env: map<string, string>): map<string, string>
    requires QuotedRows(rows)
    decreases |rows|
  {
    if rows == [] then env else Table(rows[1..], env[rows[0].key := rows[0].value])
  }

  function Get(env: map<string, string>, key: string): Option<string> {
    if key in env then Some(env[key]) else None
  }

  lemma KeptAt(rows: seq<Row>, k: nat)
    requires QuotedRows(rows) && DistinctKeys(rows) && k < |rows|
    ensures Get(Kept(rows, map[]), rows[k].key) == if OneLine(rows[k].value) then Some(rows[k].value) else None
  {
    KeptIs(rows, map[], rows[k].key);
    RowOfAt(rows, k);
  }

  /** The table read back is the table written exactly when no value breaks its line. */
  lemma KeptExactly(rows: seq<Row>)
    requires QuotedRows(rows) && DistinctKeys(rows)
    ensures Kept(rows, map[]) == Table(rows, map[]) <==> forall k | 0 <= k < |rows| :: OneLine(rows[k].value)
  {
    if forall k | 0 <= k < |rows| :: OneLine(rows[k].value) {
      AllKept(rows, map[]);
    } else {
      var k :| 0 <= k < |rows| && !OneLine(rows[k].value);
      KeptAt(rows, k);
      InTable(rows, map[], k);
    }
  }

  lemma {:induction false} AllKept(rows: seq<Row>, env: map<string, string>)
    requires QuotedRows(rows) && forall k | 0 <= k < |rows| :: OneLine(rows[k].value)
    ensures Kept(rows, env) == Table(rows, env)
    decreases |rows|
  {
    if rows != [] {
      AllKept(rows[1..], env[rows[0].key := rows[0].value]);
    }
  }

  lemma {:induction false} StaysInTable(rows: seq<Row>, env: map<string, string>, key: string)
    requires QuotedRows(rows) && key in env
    ensures key in Table(rows, env)
    decreases |rows|
  {
    if rows != [] {
      StaysInTable(rows[1..], env[rows[0].key := rows[0].value], key);
    }
  }

  lemma {:induction false} InTable(rows: seq<Row>, env: map<string, string>, k: nat)
    requires QuotedRows(rows) && k < |rows|
    ensures rows[k].key in Table(rows, env)
    decreases |rows|
  {
    var put := env[rows[0].key := rows[0].value];
    if k == 0 {
      StaysInTable(rows[1..], put, rows[0].key);
    } else {
      InTable(rows[1..], put, k - 1);
    }
  }

  /** What an install means to store. */
  function Written(i: PatchTomlInput): map<string, string> {
    map["MODE" := "all", "STORAGE_ADAPTER" := "s3", "S3_BUCKET" := i.stem, "S3_INTERNAL_BUCKET" := i.stem + "-internal",
        "S3_ENDPOINT" := i.origin, "S3_FORCE_PATH_STYLE" := "true", "S3_REGION" := i.s3Region,
        "PUBLIC_BASE_URL" := i.publicBaseUrl, "INITIAL_ADMIN_EMAILS" := i.email, "PATCH_SERVER_TAG" := i.serverTag]
  }

  lemma {:induction false} TableCat(a: seq<Row>, b: seq<Row>, env: map<string, string>)
    requires QuotedRows(a) && QuotedRows(b)
    ensures QuotedRows(a + b) && Table(a + b, env) == Table(b, Table(a, env))
    decreases |a|
  {
    if a == [] {
      assert a + b == b;
    } else {
      assert (a + b)[1..] == a[1..] + b;
      TableCat(a[1..], b, env[a[0].key := a[0].value]);
    }
  }

  lemma Five(a: Row, b: Row, c: Row, d: Row, e: Row, env: map<string, string>)
    requires a.Quoted? && b.Quoted? && c.Quoted? && d.Quoted? && e.Quoted?
    ensures QuotedRows([a, b, c, d, e]) && Table([a, b, c, d, e], env) ==
      env[a.key := a.value][b.key := b.value][c.key := c.value][d.key := d.value][e.key := e.value]
  {
    assert [a, b, c, d, e][1..] == [b, c, d, e];
    assert [b, c, d, e][1..] == [c, d, e];
    assert [c, d, e][1..] == [d, e] && [d, e][1..] == [e];
    assert [e][1..] == [];
    var two := env[a.key := a.value][b.key := b.value];
    var four := two[c.key := c.value][d.key := d.value];
    assert Table([a, b, c, d, e], env) == Table([c, d, e], two);
    assert Table([c, d, e], two) == Table([e], four);
    assert Table([e], four) == four[e.key := e.value];
  }

  lemma TableIsWritten(i: PatchTomlInput)
    requires QuotedRows(EnvRows(i))
    ensures Table(EnvRows(i), map[]) == Written(i)
  {
    hide Table;
    var r := EnvRows(i);
    var a, b := [r[0], r[1], r[2], r[3], r[4]], [r[5], r[6], r[7], r[8], r[9]];
    assert r == a + b;
    TableCat(a, b, map[]);
    Five(r[0], r[1], r[2], r[3], r[4], map[]);
    Five(r[5], r[6], r[7], r[8], r[9], Table(a, map[]));
  }

  ghost function Read(i: PatchTomlInput, show: real -> string): Saved
    requires AllStorable(i)
  {
    ReadLines(Lines(PatchFlyToml(i).value), NOTHING, show)
  }

  /** A row's value is in the table under its key, unless it breaks its line. */
  predicate ReadsRow(env: map<string, string>, row: Row) {
    row.Quoted? && Get(env, row.key) == if OneLine(row.value) then Some(row.value) else None
  }

  /** An upgrade reads back, for every input an install could store, the machine it wrote
      and each `[env]` value that is one line; and exactly the `[env]` it wrote when all of
      them are. */
  lemma InstallReadsBack(i: PatchTomlInput, show: real -> string)
    requires AllStorable(i)
    ensures QuotedRows(EnvRows(i)) && DistinctKeys(EnvRows(i))
    ensures Read(i, show).vm == Some(SMALL_VM)
    ensures forall k | 0 <= k < |EnvRows(i)| :: ReadsRow(Read(i, show).env, EnvRows(i)[k])
    ensures Read(i, show).env == Written(i) <==>
      OneLine(i.stem) && OneLine(i.origin) && OneLine(i.s3Region) && OneLine(i.publicBaseUrl) && OneLine(i.email) && OneLine(i.serverTag)
  {
    FileReads(i, show);
    EnvKeysApart(i);
    var rows := EnvRows(i);
    forall k | 0 <= k < |rows| ensures ReadsRow(Read(i, show).env, rows[k]) {
      KeptAt(rows, k);
    }
    KeptExactly(rows);
    TableIsWritten(i);
    OneLineRows(i);
  }

  lemma OneLineRows(i: PatchTomlInput)
    requires QuotedRows(EnvRows(i))
    ensures (forall k | 0 <= k < |EnvRows(i)| :: OneLine(EnvRows(i)[k].value)) <==>
      OneLine(i.stem) && OneLine(i.origin) && OneLine(i.s3Region) && OneLine(i.publicBaseUrl) && OneLine(i.email) && OneLine(i.serverTag)
  {
    var rows := EnvRows(i);
    OneLineCat(i.stem, "-internal");
    assert OneLine("all") && OneLine("s3") && OneLine("true") && OneLine("-internal");
    assert rows[2].value == i.stem && rows[3].value == i.stem + "-internal" && rows[4].value == i.origin && rows[6].value == i.s3Region;
    assert rows[7].value == i.publicBaseUrl && rows[8].value == i.email && rows[9].value == i.serverTag;
  }

  lemma OneLineCat(a: string, b: string)
    ensures OneLine(a + b) <==> OneLine(a) && OneLine(b)
  {
    assert forall k | 0 <= k < |a| :: (a + b)[k] == a[k];
    assert forall k | 0 <= k < |b| :: (a + b)[|a| + k] == b[k];
  }

  // ----- Nothing is missing ---------------------------------------------------

  predicate Present(value: string) {
    OneLine(value) && Trim(value) != ""
  }

  lemma {:induction false} MissingNone(keys: seq<string>, env: map<string, string>)
    ensures MissingOf(keys, env) == [] <==> forall k | 0 <= k < |keys| :: !Blankish(env, keys[k])
    decreases |keys|
  {
    if keys != [] {
      MissingNone(keys[1..], env);
    }
  }

  lemma {:induction false} EndsInText(s: string)
    requires s != "" && !IsSpace(s[|s| - 1])
    ensures Trim(s) != ""
    decreases |s|
  {
    if IsSpace(s[0]) {
      EndsInText(s[1..]);
    }
  }

  lemma BlankishAt(i: PatchTomlInput, show: real -> string, k: nat)
    requires AllStorable(i) && k < 10
    ensures |EnvRows(i)| == 10 && EnvRows(i)[k].Quoted?
    ensures Blankish(Read(i, show).env, EnvRows(i)[k].key) <==> !Present(EnvRows(i)[k].value)
  {
    InstallReadsBack(i, show);
    assert ReadsRow(Read(i, show).env, EnvRows(i)[k]);
  }

  lemma InternalPresent(stem: string)
    ensures Present(stem + "-internal") <==> OneLine(stem)
    ensures Present("all") && Present("s3")
  {
    OneLineCat(stem, "-internal");
    assert OneLine("-internal") && OneLine("all") && OneLine("s3");
    assert (stem + "-internal")[|stem| + 8] == 'l';
    EndsInText(stem + "-internal");
    EndsInText("all");
    EndsInText("s3");
  }

  /** Nothing a server needs is missing from an install's own file exactly when the stem,
      the endpoint, the public URL and the e-mail addresses are one-line and not blank. */
  lemma NothingMissing(i: PatchTomlInput, show: real -> string)
    requires AllStorable(i)
    ensures MissingFlyEnv(Read(i, show).env) == [] <==>
      Present(i.stem) && Present(i.origin) && Present(i.publicBaseUrl) && Present(i.email)
  {
    hide Read, AllStorable, MissingFlyEnv, Blankish, OneLine, Trim;
    var env, rows := Read(i, show).env, EnvRows(i);
    BlankishAt(i, show, 0);
    BlankishAt(i, show, 1);
    BlankishAt(i, show, 2);
    BlankishAt(i, show, 3);
    BlankishAt(i, show, 4);
    BlankishAt(i, show, 7);
    BlankishAt(i, show, 8);
    InternalPresent(i.stem);
    RequiredKeys(i, env);
  }

  lemma RequiredKeys(i: PatchTomlInput, env: map<string, string>)
    ensures |EnvRows(i)| == 10 && forall k | 0 <= k < 10 :: EnvRows(i)[k].Quoted?
    ensures var rows := EnvRows(i);
      MissingFlyEnv(env) == [] <==>
      && !Blankish(env, rows[0].key) && !Blankish(env, rows[1].key) && !Blankish(env, rows[2].key) && !Blankish(env, rows[3].key)
      && !Blankish(env, rows[4].key) && !Blankish(env, rows[7].key) && !Blankish(env, rows[8].key)
  {
    var rows := EnvRows(i);
    var keys := REQUIRED_FLY_ENV;
    MissingNone(keys, env);
    assert keys[0] == rows[0].key && keys[1] == rows[1].key && keys[2] == rows[2].key && keys[3] == rows[3].key;
    assert keys[4] == rows[4].key && keys[5] == rows[7].key && keys[6] == rows[8].key;
    Seven(keys, env);
  }

  lemma Seven(keys: seq<string>, env: map<string, string>)
    requires |keys| == 7
    ensures (forall k | 0 <= k < |keys| :: !Blankish(env, keys[k])) <==>
      && !Blankish(env, keys[0]) && !Blankish(env, keys[1]) && !Blankish(env, keys[2]) && !Blankish(env, keys[3])
      && !Blankish(env, keys[4]) && !Blankish(env, keys[5]) && !Blankish(env, keys[6])
  {
  }
}
