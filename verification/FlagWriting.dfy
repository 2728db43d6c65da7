/** A command line written from settings, flag by flag, and read by the parser: each key has
    its last setting, a list all of its texts in their order, any other key its default. */
module FlagWriting {
  import opened Wrappers
  import opened Strings
  import opened Flags
  import BackupManifest
  import ManifestTheorems
  import ArgvTheorems

  /** A flag to be set, in its `--name=value` form or not. */
  datatype Setting = Setting(entry: Entry, value: Value, joined: bool)

  // ----- Names ----------------------------------------------------------------

  /** The key a public name was made of: a letter behind a dash was a capital. */
  function Camel(name: string): string
    decreases |name|
  {
    if name == "" then ""
    else if name[0] == '-' && |name| > 1 && 'a' <= name[1] <= 'z' then [name[1] - 32 as char] + Camel(name[2..])
    else [name[0]] + Camel(name[1..])
  }

  lemma {:induction false} KebabReadsBack(key: string)
    requires '-' !in key
    ensures Camel(ToKebabCase(key)) == key
    decreases |key|
  {
    if key != "" {
      KebabHead(key);
      KebabReadsBack(key[1..]);
      assert key == [key[0]] + key[1..];
      if 'A' <= key[0] <= 'Z' {
        assert ToKebabCase(key)[0] == '-' && ToKebabCase(key)[2..] == ToKebabCase(key[1..]);
      } else {
        assert ToKebabCase(key)[0] == key[0] != '-' && ToKebabCase(key)[1..] == ToKebabCase(key[1..]);
      }
    }
  }

  // ----- Writing --------------------------------------------------------------

  /** One of the command's flags, or a global one whose name the command does not use. */
  ghost predicate Known(entry: Entry, t: Table) {
    entry in t.command ||
    (entry in t.global && forall other | other in t.command :: ToKebabCase(other.key) != ToKebabCase(entry.key))
  }

  ghost predicate Fits(s: Setting) {
    match s.entry.kind
    case Boolean => s.value.Switch?
    case Integer => s.value.Number? && Finite(s.value.n)
    case Text => s.value.Word? && (!s.joined ==> !StartsWith(s.value.text, "--"))
    case TextList => s.value.Words? && |s.value.texts| == 1 && (!s.joined ==> !StartsWith(s.value.texts[0], "--"))
  }

  ghost predicate Writable(s: Setting, t: Table) {
    Known(s.entry, t) && '=' !in ToKebabCase(s.entry.key) && Fits(s)
  }

  function TextOf(value: Value): string {
    match value
    case Switch(on) => if on then "true" else "false"
    case Number(n) => if n < 0 then "-" + BackupManifest.Decimal(-n) else BackupManifest.Decimal(n)
    case Word(text) => text
    case Words(texts) => if texts == [] then "" else texts[0]
  }

  function Write(s: Setting): seq<string> {
    var name := "--" + ToKebabCase(s.entry.key);
    if s.value == Switch(true) && !s.joined then [name]
    else if s.joined || s.value.Switch? then [name + "=" + TextOf(s.value)]
    else [name, TextOf(s.value)]
  }

  function WriteAll(settings: seq<Setting>): seq<string> {
    if settings == [] then [] else Write(settings[0]) + WriteAll(settings[1..])
  }

  function Read(s: Setting): Occurrence {
    Occurrence(Write(s), ToKebabCase(s.entry.key), s.entry, s.value)
  }

  function ReadAll(settings: seq<Setting>): seq<Occurrence> {
    if settings == [] then [] else [Read(settings[0])] + ReadAll(settings[1..])
  }

  // ----- One setting ------------------------------------------------------------

  lemma KnownIsFound(entry: Entry, t: Table)
    requires Wellformed(t) && Known(entry, t)
    ensures Lookup(t, ToKebabCase(entry.key)) == Some(entry)
  {
    NamedIs(t.command, ToKebabCase(entry.key));
    NamedIs(t.global, ToKebabCase(entry.key));
    if entry in t.command {
      var k :| 0 <= k < |t.command| && t.command[k] == entry;
    } else {
      var k :| 0 <= k < |t.global| && t.global[k] == entry;
    }
  }

  lemma TextReads(s: Setting)
    requires Fits(s)
    ensures s.entry.kind.Boolean? ==> BooleanOf(ToKebabCase(s.entry.key), Some(TextOf(s.value))) == Ok(s.value)
    ensures !s.entry.kind.Boolean? ==> ValueOf(s.entry.kind, ToKebabCase(s.entry.key), TextOf(s.value)) == Ok(s.value)
    ensures !s.joined && !s.entry.kind.Boolean? ==> !StartsWith(TextOf(s.value), "--")
  {
    if s.entry.kind.Integer? {
      NumberReads(s.value.n);
    } else if s.entry.kind.TextList? {
      assert s.value.texts == [s.value.texts[0]];
    }
  }

  lemma NumberReads(n: int)
    ensures var text := TextOf(Number(n));
      AllDigits(Digits(text)) && IntegerValue(text) == n && !StartsWith(text, "--")
  {
    var m := if n < 0 then -n else n;
    ManifestTheorems.DecimalReads(m);
    var digits := BackupManifest.Decimal(m);
    var text := TextOf(Number(n));
    assert IsDigit(digits[0]);
    hide BackupManifest.Decimal, DecimalValue;
    if n < 0 {
      assert text[1..] == digits && text[..1] == "-" && text[1] == digits[0];
    } else {
      assert text[..1] == [digits[0]];
    }
    NoDashes(text);
  }

  lemma NoDashes(text: string)
    requires text != "" && (text[0] != '-' || (|text| > 1 && text[1] != '-'))
    ensures !StartsWith(text, "--")
  {
    assert |text| >= 2 ==> text[..2] == [text[0], text[1]];
  }

  lemma WordParts(name: string, text: string)
    requires '=' !in name
    ensures StartsWith("--" + name, "--") && WordName("--" + name) == name && WordValue("--" + name) == None
    ensures var word := "--" + name + "=" + text;
      StartsWith(word, "--") && WordName(word) == name && WordValue(word) == Some(text)
  {
    var bare, word := "--" + name, "--" + name + "=" + text;
    assert bare[..2] == "--" && bare[2..] == name && word[..2] == "--";
    var body := word[2..];
    assert body == name + "=" + text;
    assert body[|name|] == '=' && body[..|name|] == name && body[|name| + 1..] == text;
    FindAt(body, '=', |name|);
  }

  /** What is written is what the parser reads first, whatever follows. */
  lemma FirstReads(s: Setting, rest: seq<string>, t: Table)
    requires Wellformed(t) && Writable(s, t)
    ensures First(Write(s) + rest, t) == Ok(Read(s))
  {
    hide Lookup, WordName, WordValue, ToKebabCase, TextOf, BooleanOf, ValueOf, Finite;
    var name := ToKebabCase(s.entry.key);
    KnownIsFound(s.entry, t);
    TextReads(s);
    WordParts(name, TextOf(s.value));
    var args := Write(s) + rest;
    assert args[0] == Write(s)[0] && args[..|Write(s)|] == Write(s);
    if |Write(s)| == 2 {
      assert args[1] == TextOf(s.value);
    } else if s.value == Switch(true) && !s.joined {
      BareIsOn(name);
    }
  }

  lemma BareIsOn(name: string)
    ensures BooleanOf(name, None) == Ok(Switch(true))
  {
  }

  lemma {:induction false} WrittenOccurrences(settings: seq<Setting>, t: Table)
    requires Wellformed(t) && forall k | 0 <= k < |settings| :: Writable(settings[k], t)
    ensures Occurrences(WriteAll(settings), t) == Ok(ReadAll(settings))
    decreases |settings|
  {
    if settings != [] {
      hide First, Write, Writable, Wellformed;
      FirstReads(settings[0], WriteAll(settings[1..]), t);
      WrittenOccurrences(settings[1..], t);
      var args := Write(settings[0]) + WriteAll(settings[1..]);
      assert args[|Write(settings[0])|..] == WriteAll(settings[1..]);
      WriteIsSome(settings[0]);
    }
  }

  lemma WriteIsSome(s: Setting)
    ensures Write(s) != []
  {
  }

  // ----- All of them ------------------------------------------------------------

  /** What a key holds in the end: texts gather, anything else is overwritten. */
  function Final(before: Option<Value>, settings: seq<Setting>, key: string): Option<Value> {
    if settings == [] then before
    else
      var last := settings[|settings| - 1];
      var earlier := Final(before, settings[..|settings| - 1], key);
      if last.entry.key != key then earlier
      else if last.value.Words? && earlier.Some? && earlier.value.Words? then Some(Words(earlier.value.texts + last.value.texts))
      else Some(last.value)
  }

  lemma {:induction false} ReadAllSnoc(settings: seq<Setting>, last: Setting)
    ensures ReadAll(settings + [last]) == ReadAll(settings) + [Read(last)]
    decreases |settings|
  {
    if settings == [] {
      assert [last][1..] == [] && settings + [last] == [last];
    } else {
      assert (settings + [last])[1..] == settings[1..] + [last];
      ReadAllSnoc(settings[1..], last);
    }
  }

  lemma {:induction false} PutAllSnoc(flags: FlagValues, os: seq<Occurrence>, last: Occurrence)
    ensures PutAll(flags, os + [last]) == Put(PutAll(flags, os), last)
    decreases |os|
  {
    if os == [] {
      assert os + [last] == [last] && [last][1..] == [];
      assert PutAll(Put(flags, last), []) == Put(flags, last);
    } else {
      assert (os + [last])[1..] == os[1..] + [last];
      PutAllSnoc(Put(flags, os[0]), os[1..], last);
    }
  }

  lemma {:induction false} FinalIs(flags: FlagValues, settings: seq<Setting>, key: string)
    ensures Get(PutAll(flags, ReadAll(settings)), key) == Final(Get(flags, key), settings, key)
    decreases |settings|
  {
    if settings != [] {
      var before, last := settings[..|settings| - 1], settings[|settings| - 1];
      assert settings == before + [last];
      ReadAllSnoc(before, last);
      PutAllSnoc(flags, ReadAll(before), Read(last));
      FinalIs(flags, before, key);
      assert last.value.Words? ==> [] + last.value.texts == last.value.texts;
    }
  }

  /** Every written command line parses, and each key has in the end what was set. */
  lemma WrittenIsParsed(settings: seq<Setting>, t: Table, defaults: map<string, string>)
    requires Wellformed(t) && forall k | 0 <= k < |settings| :: Writable(settings[k], t)
    ensures ParseFlagsSpec(t, WriteAll(settings), defaults).Ok?
    ensures forall key ::
      Get(ParseFlagsSpec(t, WriteAll(settings), defaults).value, key) == Final(Get(Start(t, defaults), key), settings, key)
  {
    WrittenOccurrences(settings, t);
    forall key ensures Get(PutAll(Start(t, defaults), ReadAll(settings)), key) == Final(Get(Start(t, defaults), key), settings, key) {
      FinalIs(Start(t, defaults), settings, key);
    }
  }

  function TextsFor(settings: seq<Setting>, key: string): seq<string> {
    if settings == [] then []
    else (if settings[0].entry.key == key && settings[0].value.Words? then settings[0].value.texts else []) + TextsFor(settings[1..], key)
  }

  lemma {:induction false} TextsSnoc(settings: seq<Setting>, last: Setting, key: string)
    ensures TextsFor(settings + [last], key) ==
      TextsFor(settings, key) + (if last.entry.key == key && last.value.Words? then last.value.texts else [])
    decreases |settings|
  {
    if settings == [] {
      assert [] + [last] == [last] && [last][1..] == [];
    } else {
      assert (settings + [last])[1..] == settings[1..] + [last];
      TextsSnoc(settings[1..], last, key);
    }
  }

  /** So a list's key holds its texts in the order of the command line. */
  lemma {:induction false} ListInOrder(before: Option<Value>, settings: seq<Setting>, key: string)
    requires before.Some? ==> !before.value.Words?
    requires forall k | 0 <= k < |settings| && settings[k].entry.key == key :: settings[k].value.Words?
    requires exists k | 0 <= k < |settings| :: settings[k].entry.key == key
    ensures Final(before, settings, key) == Some(Words(TextsFor(settings, key)))
    decreases |settings|
  {
    var earlier, last := settings[..|settings| - 1], settings[|settings| - 1];
    assert settings == earlier + [last];
    assert last.entry.key == key ==> last.value.Words?;
    TextsSnoc(earlier, last, key);
    if exists k | 0 <= k < |earlier| :: earlier[k].entry.key == key {
      ListInOrder(before, earlier, key);
      assert TextsFor(earlier, key) + [] == TextsFor(earlier, key);
    } else {
      assert forall k | 0 <= k < |earlier| :: earlier[k] == settings[k] && earlier[k].entry.key != key;
      NothingFor(before, earlier, key);
      assert last.entry.key == key && [] + last.value.texts == last.value.texts;
    }
  }

  lemma {:induction false} NothingFor(before: Option<Value>, settings: seq<Setting>, key: string)
    requires forall k | 0 <= k < |settings| :: settings[k].entry.key != key
    ensures Final(before, settings, key) == before && TextsFor(settings, key) == []
    decreases |settings|
  {
    if settings != [] {
      var earlier, last := settings[..|settings| - 1], settings[|settings| - 1];
      NothingFor(before, earlier, key);
      assert settings == earlier + [last];
      TextsSnoc(earlier, last, key);
    }
  }

  /** Defaults: a known key's text, which for a switch has to be `true` to switch it on. */
  lemma DefaultsStart(t: Table, defaults: map<string, string>, key: string)
    ensures key in Start(t, defaults) <==>
      key in defaults && exists entry | entry in t.command + t.global :: entry.key == key
    ensures key in Start(t, defaults) ==>
      Start(t, defaults)[key] in {Word(defaults[key]), Switch(true), Switch(false)}
      && (Start(t, defaults)[key] == Switch(true) ==> defaults[key] == "true")
  {
    KindIsKnown(t.command, key);
    KindIsKnown(t.global, key);
    assert (exists entry | entry in t.command + t.global :: entry.key == key) <==>
      (exists entry | entry in t.command :: entry.key == key) || (exists entry | entry in t.global :: entry.key == key);
  }

  lemma {:induction false} KindIsKnown(schema: Schema, key: string)
    ensures KindOf(schema, key).Some? <==> exists entry | entry in schema :: entry.key == key
    decreases |schema|
  {
    if schema != [] && schema[0].key != key {
      KindIsKnown(schema[1..], key);
    }
  }

  // ----- Nothing else is accepted -------------------------------------------------

  /** What a flag's words say of its value. */
  ghost predicate SaysValue(o: Occurrence, text: string) {
    match o.entry.kind
    case Boolean => (text == "true" && o.value == Switch(true)) || (text == "false" && o.value == Switch(false))
    case Integer => AllDigits(Digits(text)) && o.value == Number(IntegerValue(text)) && Finite(IntegerValue(text))
    case Text => o.value == Word(text)
    case TextList => o.value == Words([text])
  }

  /** A known flag in one of its forms: bare if it is a switch, with `=`, or with the word
      behind it, which then is no flag. */
  ghost predicate SpelledOut(o: Occurrence, t: Table) {
    && Known(o.entry, t) && o.name == ToKebabCase(o.entry.key)
    && (|| (o.words == ["--" + o.name] && o.entry.kind.Boolean? && o.value == Switch(true))
        || (exists text :: o.words == ["--" + o.name + "=" + text] && SaysValue(o, text))
        || (|o.words| == 2 && o.words[0] == "--" + o.name && !o.entry.kind.Boolean?
            && !StartsWith(o.words[1], "--") && SaysValue(o, o.words[1])))
  }

  lemma FoundIsKnown(t: Table, name: string)
    requires Wellformed(t) && Lookup(t, name).Some?
    ensures Known(Lookup(t, name).value, t)
  {
    NamedIs(t.command, name);
    NamedIs(t.global, name);
    if k :| 0 <= k < |t.command| && ToKebabCase(t.command[k].key) == name {
      assert Lookup(t, name) == Some(t.command[k]);
    } else {
      var k :| 0 <= k < |t.global| && ToKebabCase(t.global[k].key) == name;
      assert Lookup(t, name) == Some(t.global[k]);
    }
  }

  lemma AcceptedIsSpelledOut(o: Occurrence, t: Table)
    requires Wellformed(t) && ArgvTheorems.Legible(o, t)
    ensures SpelledOut(o, t)
  {
    ArgvTheorems.Shape(o, t);
    ArgvTheorems.WordIs(o.words[0]);
    FoundIsKnown(t, o.name);
    hide Lookup, Known, WordName, WordValue, First, ToKebabCase, Wellformed;
    if |o.words| == 1 {
      assert o.words == [o.words[0]];
    }
  }

  /** An argv is accepted only as such flags end to end. */
  lemma OnlySpelledOut(args: seq<string>, t: Table)
    requires Wellformed(t) && Occurrences(args, t).Ok?
    ensures var os := Occurrences(args, t).value;
      ArgvTheorems.Flatten(os) == args && forall k | 0 <= k < |os| :: SpelledOut(os[k], t)
  {
    hide SpelledOut;
    var os := Occurrences(args, t).value;
    ArgvTheorems.Unflatten(args, t);
    forall k | 0 <= k < |os| ensures SpelledOut(os[k], t) {
      AcceptedIsSpelledOut(os[k], t);
    }
  }
}
