/** The forms in which a saved `fly.toml` may hold a setting, each written and read back:
    keys bare and quoted, strings basic and literal, numbers, switches, comments, memory
    sizes; and which of several `[[vm]]` tables counts. */
module ScalarReading {
  import opened Wrappers
  import opened Strings
  import opened FlyToml
  import opened TomlTheorems

  // ----- Strings --------------------------------------------------------------

  /** A value as a basic string holds it; it can hold no quote. */
  function Doubled(value: string): string {
    if value == "" then "" else (if value[0] == '\\' then "\\\\" else [value[0]]) + Doubled(value[1..])
  }

  lemma {:induction false} DoubledReads(value: string)
    requires '"' !in value
    ensures Unescaped(Doubled(value)) == value && '"' !in Doubled(value)
    decreases |value|
  {
    if value != "" {
      DoubledReads(value[1..]);
      var rest := Doubled(value[1..]);
      assert value == [value[0]] + value[1..];
      if value[0] == '\\' {
        var body := "\\\\" + rest;
        assert body[0] == '\\' && body[1] == '\\' && body[2..] == rest;
      } else {
        var body := [value[0]] + rest;
        assert body[0] == value[0] && body[1..] == rest;
      }
    }
  }

  lemma QuotedScalar(quote: char, body: string, rest: string)
    requires quote in {'"', '\''} && quote !in body && (rest == "" || !IsSpace(rest[|rest| - 1]))
    ensures TomlScalar([quote] + body + [quote] + rest) == Some(Text(if quote == '"' then Unescaped(body) else body))
  {
    hide IsDecimal, RealValue, WithoutComment, Unescaped;
    var text := [quote] + body + [quote] + rest;
    assert text[0] == quote && !IsSpace(quote) && !IsSpace(text[|text| - 1]);
    TrimFixed(text);
    var inner := text[1..];
    assert inner == body + [quote] + rest && inner[|body|] == quote && inner[..|body|] == body;
    FindAt(inner, quote, |body|);
  }

  /** Both kinds of string give back their value, whatever stands behind them. */
  lemma StringsRead(value: string, rest: string)
    requires rest == "" || !IsSpace(rest[|rest| - 1])
    ensures '"' !in value ==> TomlScalar("\"" + Doubled(value) + "\"" + rest) == Some(Text(value))
    ensures '\'' !in value ==> TomlScalar("'" + value + "'" + rest) == Some(Text(value))
  {
    hide TomlScalar;
    if '"' !in value {
      DoubledReads(value);
      QuotedScalar('"', Doubled(value), rest);
    }
    if '\'' !in value {
      QuotedScalar('\'', value, rest);
    }
  }

  // ----- Bare values ------------------------------------------------------------

  /** Nothing, or a comment behind white space. */
  predicate IsRemark(remark: string) {
    remark == "" || (exists k | 0 < k < |remark| :: AllSpace(remark[..k]) && remark[k] == '#' && !IsSpace(remark[|remark| - 1]))
  }

  predicate IsBare(text: string) {
    text != "" && forall k | 0 <= k < |text| :: !IsSpace(text[k]) && text[k] != '"' && text[k] != '\'' && text[k] != '#'
  }

  lemma {:induction false} CommentFound(value: string, from: nat, at: nat)
    requires 1 <= from <= at < |value| && value[at] == '#' && IsSpace(value[at - 1])
    requires forall k | from <= k < at :: value[k] != '#'
    ensures CommentAt(value, from) == at
    decreases at - from
  {
    if from < at {
      CommentFound(value, from + 1, at);
    }
  }

  lemma {:induction false} NoComment(value: string, from: nat)
    requires 1 <= from && '#' !in value
    ensures CommentAt(value, from) == |value|
    decreases |value| - from
  {
    if from < |value| {
      NoComment(value, from + 1);
    }
  }

  lemma RemarkGoes(text: string, remark: string)
    requires IsBare(text) && IsRemark(remark)
    ensures Trim(text + remark) == text + remark && WithoutComment(text + remark) == text
  {
    var value := text + remark;
    assert value[0] == text[0];
    if remark == "" {
      assert value == text;
      TrimFixed(value);
      NoComment(value, 1);
    } else {
      assert value[|value| - 1] == remark[|remark| - 1];
      TrimFixed(value);
      var k :| 0 < k < |remark| && AllSpace(remark[..k]) && remark[k] == '#' && !IsSpace(remark[|remark| - 1]);
      var at := |text| + k;
      assert value[at] == '#' && value[at - 1] == remark[..k][k - 1];
      forall j | 1 <= j < at ensures value[j] != '#' {
        if j >= |text| {
          assert value[j] == remark[..k][j - |text|];
        }
      }
      CommentFound(value, 1, at);
      assert value[..at] == text + remark[..k];
      TrimEndAround(text, remark[..k]);
    }
  }

  lemma BareScalar(text: string, remark: string)
    requires IsBare(text) && IsRemark(remark)
    ensures TomlScalar(text + remark) ==
      if text == "true" || text == "false" then Some(Switch(text == "true"))
      else if StartsWith(text, "-") && IsDecimal(text[1..]) then Some(Number(0.0 - RealValue(text[1..])))
      else if IsDecimal(text) then Some(Number(RealValue(text)))
      else None
  {
    hide IsDecimal, RealValue, Trim, WithoutComment, IsRemark;
    RemarkGoes(text, remark);
    assert (text + remark)[0] == text[0];
  }

  lemma {:induction false} DigitsAreDecimal(digits: string)
    requires AllDigits(digits)
    ensures IsDecimal(digits) && RealValue(digits) == DecimalValue(digits) as real && IsBare(digits)
  {
    assert '.' !in digits;
    assert digits[..|digits|] == digits;
  }

  /** Whole numbers, either sign, and switches, with a comment behind them or without. */
  lemma BareValuesRead(digits: string, remark: string)
    requires AllDigits(digits) && IsRemark(remark)
    ensures TomlScalar(digits + remark) == Some(Number(DecimalValue(digits) as real))
    ensures TomlScalar("-" + digits + remark) == Some(Number(0.0 - DecimalValue(digits) as real))
    ensures TomlScalar("true" + remark) == Some(Switch(true)) && TomlScalar("false" + remark) == Some(Switch(false))
  {
    hide TomlScalar, IsDecimal, RealValue, DecimalValue, IsRemark;
    DigitsAreDecimal(digits);
    assert IsDigit(digits[0]);
    assert digits != "true" && digits != "false" && !StartsWith(digits, "-") by {
      assert "true"[0] == 't' && "false"[0] == 'f';
      assert digits[..1] == [digits[0]];
    }
    BareScalar(digits, remark);
    var negative := "-" + digits;
    assert negative[..1] == "-" && negative[1..] == digits && negative[0] == '-';
    assert negative != "true" && negative != "false" by {
      assert "true"[0] == 't' && "false"[0] == 'f';
    }
    BareScalar(negative, remark);
    BareScalar("true", remark);
    BareScalar("false", remark);
  }

  // ----- Memory ---------------------------------------------------------------

  lemma {:induction false} AmountIs(amount: string, rest: string)
    requires forall k | 0 <= k < |amount| :: IsDigit(amount[k]) || amount[k] == '.'
    requires rest == "" || !(IsDigit(rest[0]) || rest[0] == '.')
    ensures AmountLength(amount + rest) == |amount|
    decreases |amount|
  {
    if amount == "" {
      assert amount + rest == rest;
    } else {
      assert (amount + rest)[1..] == amount[1..] + rest;
      AmountIs(amount[1..], rest);
    }
  }

  /** A size in megabytes, in gigabytes, each in any case, or without a unit. */
  lemma MemoryReads(digits: string, space: string, unit: string)
    requires AllDigits(digits) && AllSpace(space) && Lower(unit) in {"", "mb", "gb"}
    ensures MemoryToMb(Text(digits + space + unit)) ==
      Some(if Lower(unit) == "gb" then 1024.0 * DecimalValue(digits) as real else DecimalValue(digits) as real)
  {
    hide IsDecimal, RealValue, Trim, AmountLength, MemoryToMb, DecimalValue, TrimStart;
    UnitIsPlain(unit);
    DigitsAreDecimal(digits);
    if unit == "" {
      assert digits + space + unit == "" + digits + space;
      TrimAround("", digits, space);
      TrimNothing();
      assert digits + "" == digits;
      AmountIs(digits, "");
      MemoryFrom(digits + space + unit, digits, "", "");
    } else {
      var rest := space + unit;
      var text := digits + rest;
      assert digits + space + unit == text && text[0] == digits[0] && text[|text| - 1] == unit[|unit| - 1];
      assert IsDigit(digits[0]);
      TrimFixed(text);
      assert rest[0] == if space == "" then unit[0] else space[0];
      AmountIs(digits, rest);
      TrimStartAround(space, unit);
      MemoryFrom(text, digits, rest, unit);
    }
  }

  lemma TrimNothing()
    ensures TrimStart("") == ""
  {
  }

  lemma MemoryFrom(text: string, digits: string, rest: string, unit: string)
    requires Trim(text) == digits + rest && AmountLength(digits + rest) == |digits| && TrimStart(rest) == unit
    requires IsDecimal(digits) && Lower(unit) in {"", "mb", "gb"}
    ensures MemoryToMb(Text(text)) == Some(if Lower(unit) == "gb" then 1024.0 * RealValue(digits) else RealValue(digits))
  {
    hide IsDecimal, RealValue, Trim, AmountLength, TrimStart, Lower;
    assert (digits + rest)[..|digits|] == digits && (digits + rest)[|digits|..] == rest;
  }

  lemma UnitIsPlain(unit: string)
    requires Lower(unit) in {"", "mb", "gb"}
    ensures unit == "" || (|unit| == 2 && unit[0] in {'m', 'g', 'M', 'G'} && unit[1] in {'b', 'B'})
  {
    if unit != "" {
      assert |Lower(unit)| == |unit| == 2;
      assert Lower(unit)[0] == if 'A' <= unit[0] <= 'Z' then unit[0] + 32 as char else unit[0];
      var rest := unit[1..];
      assert Lower(unit)[1] == Lower(rest)[0] && Lower(rest)[0] == if 'A' <= rest[0] <= 'Z' then rest[0] + 32 as char else rest[0];
    }
  }

  // ----- Keys -----------------------------------------------------------------

  /** A key bare or quoted, white space or none around the sign. */
  lemma KeysRead(key: string, before: string, after: string, text: string)
    requires AllSpace(before) && AllSpace(after) && text != "" && !IsSpace(text[0]) && OneLine(text)
    ensures BareKey(key) ==> Setting(key + before + "=" + after + text) == Some((key, text))
    ensures key != "" && '"' !in key ==> Setting("\"" + key + "\"" + before + "=" + after + text) == Some((key, text))
    ensures key != "" && '\'' !in key ==> Setting("'" + key + "'" + before + "=" + after + text) == Some((key, text))
  {
    hide Setting, BareKey, KeyOf, OneLine;
    var rest := before + "=" + after + text;
    if BareKey(key) {
      BareKeyIs(key, rest, before);
      RestJoins(key, before, after, text);
      SettingFrom(key + rest, key, before, after, text);
    }
    if key != "" && '"' !in key {
      QuotedKeyIs('"', key, rest);
      RestJoins("\"" + key + "\"", before, after, text);
      SettingFrom("\"" + key + "\"" + rest, key, before, after, text);
    }
    if key != "" && '\'' !in key {
      QuotedKeyIs('\'', key, rest);
      RestJoins("'" + key + "'", before, after, text);
      SettingFrom("'" + key + "'" + rest, key, before, after, text);
    }
  }

  lemma RestJoins(key: string, before: string, after: string, text: string)
    ensures key + before + "=" + after + text == key + (before + "=" + after + text)
  {
  }

  lemma BareKeyIs(key: string, rest: string, before: string)
    requires BareKey(key) && AllSpace(before) && before + "=" <= rest
    ensures KeyOf(key + rest) == Some((key, rest))
  {
    assert rest[0] == (before + "=")[0];
    BareLengthIs(key, rest);
    assert (key + rest)[..|key|] == key && (key + rest)[|key|..] == rest;
  }

  lemma QuotedKeyIs(quote: char, key: string, rest: string)
    requires quote in {'"', '\''} && key != "" && quote !in key
    ensures KeyOf([quote] + key + [quote] + rest) == Some((key, rest))
  {
    var line := [quote] + key + [quote] + rest;
    assert line[0] == quote && line[1..] == key + [quote] + rest;
    assert BareLength(line) == 0;
    var inner := line[1..];
    assert inner[|key|] == quote && inner[..|key|] == key && inner[|key| + 1..] == rest;
    FindAt(inner, quote, |key|);
  }

  lemma SettingFrom(line: string, key: string, before: string, after: string, text: string)
    requires KeyOf(line) == Some((key, before + "=" + after + text))
    requires AllSpace(before) && AllSpace(after) && text != "" && !IsSpace(text[0]) && OneLine(text)
    ensures Setting(line) == Some((key, text))
  {
    hide KeyOf, OneLine;
    var sign := "=" + after + text;
    assert before + "=" + after + text == before + sign;
    TrimStartAround(before, sign);
    assert sign[0] == '=' && sign[1..] == after + text;
    TrimStartAround(after, text);
  }

  // ----- Lines that say nothing, and switches in `[env]` ---------------------------

  /** Blank lines and comments are passed over, in every section. */
  lemma OtherLinesPassed(line: string, s: Saved, show: real -> string)
    ensures Trim(line) == "" || (Trim(line) != "" && Trim(line)[0] == '#') ==> ReadLine(line, s, show) == s
  {
    if Trim(line) != "" && Trim(line)[0] == '#' {
      assert Trim(line)[..1] == "#";
    }
  }

  /** In `[env]` a text is itself, a switch its name, a number as numbers are shown. */
  lemma EnvTakes(key: string, value: Scalar, s: Saved, show: real -> string)
    requires s.section.Env?
    ensures var t := Store(key, value, s, show);
      && t == s.(env := t.env) && key in t.env && t.env - {key} == s.env - {key}
      && (value.Text? ==> t.env[key] == value.text)
      && (value.Switch? ==> t.env[key] in {"true", "false"} && (t.env[key] == "true" <==> value.on))
      && (value.Number? ==> t.env[key] == show(value.n))
  {
  }

  // ----- The first `[[vm]]` ---------------------------------------------------------

  /** Once a machine has been read, another `[[vm]]` table changes nothing. */
  lemma {:induction false} LaterMachineIgnored(rows: seq<Row>, s: Saved, show: real -> string)
    requires s.vm.Some? && (s.section.VmDone? || s.section.Other?)
    requires forall k | 0 <= k < |rows| :: rows[k].Header? ==> rows[k].name != "[env]"
    ensures MeansAll(rows, s, show).vm == s.vm && MeansAll(rows, s, show).env == s.env
    decreases |rows|
  {
    if rows != [] {
      LaterMachineIgnored(rows[1..], Means(rows[0], s, show), show);
    }
  }

  lemma SecondMachine(rows: seq<Row>, s: Saved, show: real -> string)
    requires s.vm.Some? && forall k | 0 <= k < |rows| :: rows[k].Header? ==> rows[k].name != "[env]"
    ensures var t := MeansAll([Header("", "[[vm]]")] + rows, s, show); t.vm == s.vm && t.env == s.env
  {
    assert ([Header("", "[[vm]]")] + rows)[1..] == rows;
    LaterMachineIgnored(rows, s.(section := VmDone), show);
  }

  /** What a machine's table says: kind, number and size under their keys, and nothing under others. */
  lemma MachineReads(vm: Vm, key: string, value: Scalar)
    ensures Machine(vm, key, value).cpuKind == (if key == "cpu_kind" && value.Text? then Some(value.text) else vm.cpuKind)
    ensures Machine(vm, key, value).cpus == (if key == "cpus" && value.Number? then Some(value.n) else vm.cpus)
    ensures Machine(vm, key, value).memoryMb ==
      if key == "memory_mb" && value.Number? then Some(value.n)
      else if key == "memory" && MemoryToMb(value).Some? then MemoryToMb(value) else vm.memoryMb
  {
  }
}
