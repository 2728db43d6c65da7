/** The access key as Tigris prints it for a shell, and as the install reads it
    (cli/src/flySetup.ts). */
module KeyWriting {
  import opened Wrappers
  import opened Strings
  import opened FlyToml
  import opened TomlTheorems
  import opened FlyInstall

  /** A value between quotes of one kind. */
  function Assigned(name: string, value: string, quote: char, exported: bool): string {
    (if exported then "export " else "") + (name + "=" + ([quote] + value + [quote]))
  }

  predicate IsVariable(name: string) {
    name != "" && forall k | 0 <= k < |name| :: IsWordChar(name[k])
  }

  lemma {:induction false} WordLengthIs(name: string, rest: string)
    requires (forall k | 0 <= k < |name| :: IsWordChar(name[k])) && (rest == "" || !IsWordChar(rest[0]))
    ensures WordLength(name + rest) == |name|
    decreases |name|
  {
    if name == "" {
      assert name + rest == rest;
    } else {
      assert (name + rest)[1..] == name[1..] + rest;
      WordLengthIs(name[1..], rest);
    }
  }

  lemma ExportIsTakenOff(name: string, rest: string)
    requires IsVariable(name)
    ensures WithoutExport("export " + (name + "=" + rest)) == name + "=" + rest
    ensures WithoutExport(name + "=" + rest) == name + "=" + rest
  {
    var text := name + "=" + rest;
    var line := "export " + text;
    assert line[..6] == EXPORT && line[6] == ' ' && line[6..] == " " + text;
    assert (" " + text)[1..] == text && text[0] == name[0] && !IsSpace(name[0]);
    assert TrimStart(text) == text;
    if |text| > 6 {
      assert text[6] == if |name| > 6 then name[6] else if |name| == 6 then '=' else rest[5 - |name|];
      if |name| < 6 {
        assert text[..6][|name|] == '=' && EXPORT[|name|] != '=';
      }
    }
  }

  /** An assignment reads as its name and its value, whatever the value holds but a line's end. */
  lemma AssignmentReads(name: string, value: string, quote: char, exported: bool)
    requires IsVariable(name) && OneLine(value) && quote in {'"', '\''}
    ensures Exported(Assigned(name, value, quote, exported)) == Some((name, value))
  {
    hide Trim, WithoutExport, WordLength, Unquoted, OneLine, IsVariable, Exported;
    var quoted := [quote] + value + [quote];
    LineIsTrimmed(name, quoted, quote, exported);
    ExportIsTakenOff(name, quoted);
    var text := name + "=" + quoted;
    assert "" + text == text;
    assert WithoutExport(Trim(Assigned(name, value, quote, exported))) == text;
    QuotedIsTidy(value, quote);
    CutReads(Assigned(name, value, quote, exported), name, quoted);
  }

  lemma CutReads(line: string, name: string, quoted: string)
    requires IsVariable(name) && WithoutExport(Trim(line)) == name + "=" + quoted && OneLine(quoted)
    ensures Exported(line) == Some((name, Unquoted(Trim(quoted))))
  {
    TextIsCut(name, quoted);
    assert name != "";
    hide Trim, WithoutExport, WordLength, Unquoted, OneLine, IsVariable;
  }

  lemma LineIsTrimmed(name: string, quoted: string, quote: char, exported: bool)
    requires IsVariable(name) && quoted != "" && quoted[|quoted| - 1] == quote && quote in {'"', '\''}
    ensures var line := (if exported then "export " else "") + (name + "=" + quoted); Trim(line) == line
  {
    var line := (if exported then "export " else "") + (name + "=" + quoted);
    assert line[0] == (if exported then 'e' else name[0]) && line[|line| - 1] == quote && !IsSpace(quote) && !IsSpace(name[0]);
    TrimFixed(line);
  }

  lemma TextIsCut(name: string, quoted: string)
    requires IsVariable(name)
    ensures var text := name + "=" + quoted;
      WordLength(text) == |name| && text[..|name|] == name && text[|name|] == '=' && text[|name| + 1..] == quoted
  {
    var text := name + "=" + quoted;
    WordLengthIs(name, "=" + quoted);
    assert text == name + ("=" + quoted);
  }

  lemma QuotedIsTidy(value: string, quote: char)
    requires OneLine(value) && quote in {'"', '\''}
    ensures var quoted := [quote] + value + [quote];
      OneLine(quoted) && Trim(quoted) == quoted && Unquoted(quoted) == value
  {
    var quoted := [quote] + value + [quote];
    assert quoted[0] == quote && quoted[|quoted| - 1] == quote;
    TrimFixed(quoted);
    assert quoted[1..|quoted| - 1] == value;
  }

  // ----- The four of them -------------------------------------------------------

  /** The names printed for AWS, and Tigris' own. */
  function Variables(aws: bool): seq<string> {
    if aws then ["AWS_ACCESS_KEY_ID", "AWS_SECRET_ACCESS_KEY", "AWS_ENDPOINT_URL_S3", "AWS_REGION"]
    else ["TIGRIS_STORAGE_ACCESS_KEY_ID", "TIGRIS_STORAGE_SECRET_ACCESS_KEY", "TIGRIS_STORAGE_ENDPOINT", "TIGRIS_STORAGE_REGION"]
  }

  function PrintedKey(names: seq<string>, id: string, secret: string, endpoint: string, region: string): seq<string>
    requires |names| == 4
  {
    [Assigned(names[0], id, '\'', true), Assigned(names[1], secret, '"', true),
     Assigned(names[2], endpoint, '"', false), Assigned(names[3], region, '\'', true)]
  }

  lemma OneExport(line: string, rest: seq<string>, values: map<string, string>, name: string, value: string)
    requires Exported(line) == Some((name, value))
    ensures Exports([line] + rest, values) == Exports(rest, values[name := value])
  {
    assert ([line] + rest)[1..] == rest;
  }

  lemma VariablesAre(aws: bool)
    ensures forall k | 0 <= k < 4 :: IsVariable(Variables(aws)[k])
  {
    hide IsVariable;
    if aws { AwsVariables(); } else { TigrisVariables(); }
  }

  lemma AwsVariables()
    ensures IsVariable("AWS_ACCESS_KEY_ID") && IsVariable("AWS_SECRET_ACCESS_KEY") && IsVariable("AWS_ENDPOINT_URL_S3") && IsVariable("AWS_REGION")
  {
  }

  lemma TigrisVariables()
    ensures IsVariable("TIGRIS_STORAGE_ACCESS_KEY_ID") && IsVariable("TIGRIS_STORAGE_SECRET_ACCESS_KEY")
    ensures IsVariable("TIGRIS_STORAGE_ENDPOINT") && IsVariable("TIGRIS_STORAGE_REGION")
  {
  }

  lemma FourExports(names: seq<string>, id: string, secret: string, endpoint: string, region: string)
    requires |names| == 4 && forall k | 0 <= k < 4 :: IsVariable(names[k])
    requires OneLine(id) && OneLine(secret) && OneLine(endpoint) && OneLine(region)
    ensures Exports(PrintedKey(names, id, secret, endpoint, region), map[]) ==
      map[][names[0] := id][names[1] := secret][names[2] := endpoint][names[3] := region]
  {
    hide Exported, Assigned, IsVariable, OneLine, Exports;
    AssignmentReads(names[0], id, '\'', true);
    AssignmentReads(names[1], secret, '"', true);
    AssignmentReads(names[2], endpoint, '"', false);
    AssignmentReads(names[3], region, '\'', true);
    var lines := PrintedKey(names, id, secret, endpoint, region);
    var m1 := map[][names[0] := id];
    var m2 := m1[names[1] := secret];
    var m3 := m2[names[2] := endpoint];
    assert lines == [lines[0]] + ([lines[1]] + ([lines[2]] + ([lines[3]] + [])));
    OneExport(lines[0], [lines[1]] + ([lines[2]] + ([lines[3]] + [])), map[], names[0], id);
    OneExport(lines[1], [lines[2]] + ([lines[3]] + []), m1, names[1], secret);
    OneExport(lines[2], [lines[3]] + [], m2, names[2], endpoint);
    OneExport(lines[3], [], m3, names[3], region);
    NoExports(m3[names[3] := region]);
  }

  lemma NoExports(values: map<string, string>)
    ensures Exports([], values) == values
  {
  }

  /** A key printed under either set of names, quoted so or so, reads back as that key, each
      value from its own name; and without an id or a secret there is none. */
  lemma PrintedKeyReads(aws: bool, id: string, secret: string, endpoint: string, region: string)
    requires OneLine(id) && OneLine(secret) && OneLine(endpoint) && OneLine(region)
    ensures FlyInstall.KeyOf(Join(PrintedKey(Variables(aws), id, secret, endpoint, region), '\n')) ==
      if id == "" || secret == "" then None else Some(AccessKeyExport(id, Some(endpoint), Some(region), secret))
  {
    hide OneLine, Exports;
    var names := Variables(aws);
    var lines := PrintedKey(names, id, secret, endpoint, region);
    VariablesAre(aws);
    FourExports(names, id, secret, endpoint, region);
    LinesAreWhole(names, id, secret, endpoint, region);
    SplitJoin(lines, '\n');
    var values := Exports(lines, map[]);
    NamesApart(aws);
    KeyFrom(aws, values, id, secret, endpoint, region);
  }

  lemma LinesAreWhole(names: seq<string>, id: string, secret: string, endpoint: string, region: string)
    requires |names| == 4 && forall k | 0 <= k < 4 :: IsVariable(names[k])
    requires OneLine(id) && OneLine(secret) && OneLine(endpoint) && OneLine(region)
    ensures var lines := PrintedKey(names, id, secret, endpoint, region);
      forall k | 0 <= k < |lines| :: '\n' !in lines[k]
  {
    hide Assigned;
    AssignedIsWhole(names[0], id, '\'', true);
    AssignedIsWhole(names[1], secret, '"', true);
    AssignedIsWhole(names[2], endpoint, '"', false);
    AssignedIsWhole(names[3], region, '\'', true);
  }

  lemma AssignedIsWhole(name: string, value: string, quote: char, exported: bool)
    requires IsVariable(name) && OneLine(value) && quote in {'"', '\''}
    ensures '\n' !in Assigned(name, value, quote, exported)
  {
    assert '\n' !in name && '\n' !in value && '\n' !in "export ";
  }

  lemma NamesApart(aws: bool)
    ensures var names := Variables(aws);
      names[0] != names[1] && names[0] != names[2] && names[0] != names[3]
      && names[1] != names[2] && names[1] != names[3] && names[2] != names[3]
    ensures forall k, m | 0 <= k < 4 && 0 <= m < 4 :: Variables(true)[k] != Variables(false)[m]
  {
    assert forall k | 0 <= k < 4 :: Variables(true)[k][0] == 'A' && Variables(false)[k][0] == 'T';
    assert Variables(aws)[1] != Variables(aws)[0] && Variables(true)[2][4] == 'E' && Variables(true)[1][4] == 'S' && Variables(true)[3][4] == 'R';
    assert Variables(true)[0][4] == 'A';
    assert Variables(false)[0][15] == 'A' && Variables(false)[1][15] == 'S' && Variables(false)[2][15] == 'E' && Variables(false)[3][15] == 'R';
  }

  lemma KeyFrom(aws: bool, values: map<string, string>, id: string, secret: string, endpoint: string, region: string)
    requires var names := Variables(aws);
      && values == map[][names[0] := id][names[1] := secret][names[2] := endpoint][names[3] := region]
      && names[0] != names[1] && names[0] != names[2] && names[0] != names[3]
      && names[1] != names[2] && names[1] != names[3] && names[2] != names[3]
    requires forall k, m | 0 <= k < 4 && 0 <= m < 4 :: Variables(true)[k] != Variables(false)[m]
    ensures KeyIn(values) == if id == "" || secret == "" then None else Some(AccessKeyExport(id, Some(endpoint), Some(region), secret))
  {
    var names := Variables(aws);
    assert values[names[0]] == id && values[names[1]] == secret && values[names[2]] == endpoint && values[names[3]] == region;
    var others := Variables(!aws);
    assert others[0] !in values && others[1] !in values && others[2] !in values && others[3] !in values;
  }
}
