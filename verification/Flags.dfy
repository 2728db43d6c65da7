/** The flag parser every command shares (cli/src/commandParsers.ts): a schema's public
    names, and the walk over argv that reads them. */
module Flags {
  import opened Wrappers
  import opened Strings

  datatype Kind = Boolean | Integer | Text | TextList

  /** One property of a schema object: the internal key and its descriptor. */
  datatype Entry = Entry(key: string, kind: Kind)

  type Schema = seq<Entry>

  datatype Value = Switch(on: bool) | Number(n: int) | Word(text: string) | Words(texts: seq<string>)

  type FlagValues = map<string, Value>

  datatype ParseError =
    | DuplicateFlagName(name: string)
    | UnexpectedPositional(token: string)
    | UnknownFlag(name: string)
    | OnlyTrueOrFalse(name: string)
    | RequiresValue(name: string)
    | RequiresInteger(name: string)

  // ----- Public names ---------------------------------------------------------

  function ToKebabCase(flagName: string): string {
    if flagName == "" then ""
    else (if 'A' <= flagName[0] <= 'Z' then "-" + Lower(flagName[..1]) else flagName[..1]) + ToKebabCase(flagName[1..])
  }

  /** Keys without a dash never collide. */
  lemma {:induction false} KebabInjective(a: string, b: string)
    requires '-' !in a && '-' !in b && ToKebabCase(a) == ToKebabCase(b)
    ensures a == b
    decreases |a|
  {
    if a == "" || b == "" {
      KebabNonEmpty(a);
      KebabNonEmpty(b);
    } else {
      KebabHead(a);
      KebabHead(b);
      var n := if 'A' <= a[0] <= 'Z' then 2 else 1;
      assert ToKebabCase(a[1..]) == ToKebabCase(a)[n..] == ToKebabCase(b[1..]);
      KebabInjective(a[1..], b[1..]);
      assert a == [a[0]] + a[1..] && b == [b[0]] + b[1..];
    }
  }

  lemma KebabNonEmpty(a: string)
    ensures a != "" ==> ToKebabCase(a) != ""
  {
  }

  lemma KebabHead(a: string)
    requires a != "" && '-' !in a
    ensures var upper := 'A' <= a[0] <= 'Z';
      && (upper <==> ToKebabCase(a)[0] == '-')
      && |ToKebabCase(a)| >= (if upper then 2 else 1)
      && (upper ==> ToKebabCase(a)[1] == a[0] + 32 as char)
      && (!upper ==> ToKebabCase(a)[0] == a[0])
      && ToKebabCase(a)[if upper then 2 else 1..] == ToKebabCase(a[1..])
  {
    assert a[0] in a;
    var c := a[..1];
    assert c[0] == a[0] && c[1..] == "";
    assert Lower("") == "";
    if 'A' <= a[0] <= 'Z' {
      assert Lower(c) == [a[0] + 32 as char] + Lower(c[1..]);
      assert "-" + Lower(c) + ToKebabCase(a[1..]) == ToKebabCase(a);
    }
  }

  predicate NamesDistinct(schema: Schema) {
    forall i, j | 0 <= i < j < |schema| :: ToKebabCase(schema[i].key) != ToKebabCase(schema[j].key)
  }

  /** The entry a public name stands for in one schema. */
  function Named(schema: Schema, name: string): (found: Option<Entry>)
    ensures found.Some? ==> ToKebabCase(found.value.key) == name
  {
    if schema == [] then None
    else if ToKebabCase(schema[0].key) == name then Some(schema[0])
    else Named(schema[1..], name)
  }

  lemma {:induction false} NamedIs(schema: Schema, name: string)
    ensures Named(schema, name).Some? <==> exists k | 0 <= k < |schema| :: ToKebabCase(schema[k].key) == name
    ensures NamesDistinct(schema) ==>
      forall k | 0 <= k < |schema| && ToKebabCase(schema[k].key) == name :: Named(schema, name) == Some(schema[k])
    decreases |schema|
  {
    if schema != [] && ToKebabCase(schema[0].key) != name {
      NamedIs(schema[1..], name);
      assert forall k | 1 <= k < |schema| :: schema[k] == schema[1..][k - 1];
    }
  }

  lemma {:induction false} NamedAppend(schema: Schema, entry: Entry, name: string)
    ensures Named(schema + [entry], name) ==
      if Named(schema, name).Some? then Named(schema, name)
      else if ToKebabCase(entry.key) == name then Some(entry) else None
    decreases |schema|
  {
    if schema != [] {
      assert (schema + [entry])[1..] == schema[1..] + [entry];
      NamedAppend(schema[1..], entry, name);
    }
  }

  function Get<T>(m: map<string, T>, key: string): Option<T> {
    if key in m then Some(m[key]) else None
  }

  lemma DistinctAppend(schema: Schema, i: nat)
    requires i < |schema| && NamesDistinct(schema[..i])
    ensures NamesDistinct(schema[..i + 1]) <==> Named(schema[..i], ToKebabCase(schema[i].key)).None?
    ensures !NamesDistinct(schema[..i + 1]) ==> !NamesDistinct(schema)
  {
    NamedIs(schema[..i], ToKebabCase(schema[i].key));
  }

  /** The map of public names, or an exception when two keys share one. */
  method FlagSchemaDefinition(schema: Schema) returns (r: Result<map<string, Entry>, ParseError>)
    ensures r.Ok? <==> NamesDistinct(schema)
    ensures r.Ok? ==> forall name :: Get(r.value, name) == Named(schema, name)
    ensures r.Err? ==> r.error.DuplicateFlagName? && Named(schema, r.error.name).Some?
  {
    var byPublicName: map<string, Entry> := map[];
    for i := 0 to |schema|
      invariant NamesDistinct(schema[..i])
      invariant forall name :: Get(byPublicName, name) == Named(schema[..i], name)
    {
      var publicName := ToKebabCase(schema[i].key);
      DistinctAppend(schema, i);
      if publicName in byPublicName {
        assert Get(byPublicName, publicName).Some?;
        NamedIs(schema, publicName);
        return Err(DuplicateFlagName(publicName));
      }
      assert Get(byPublicName, publicName).None?;
      byPublicName := byPublicName[publicName := schema[i]];
      assert schema[..i + 1] == schema[..i] + [schema[i]];
      forall name ensures Get(byPublicName, name) == Named(schema[..i + 1], name) {
        NamedAppend(schema[..i], schema[i], name);
      }
    }
    assert schema[..|schema|] == schema;
    return Ok(byPublicName);
  }

  // ----- One flag -------------------------------------------------------------

  /** A command's schema over the one every command has. */
  datatype Table = Table(command: Schema, global: Schema)

  function Lookup(t: Table, name: string): (found: Option<Entry>)
    ensures found.Some? ==> ToKebabCase(found.value.key) == name
  {
    if Named(t.command, name).Some? then Named(t.command, name) else Named(t.global, name)
  }

  function Power(base: int, exponent: nat): int {
    if exponent == 0 then 1 else base * Power(base, exponent - 1)
  }

  /** The least magnitude an IEEE 754 double rounds to infinity. */
  const TOO_LARGE: int := Power(2, 1024) - Power(2, 970)

  predicate Finite(n: int) {
    -TOO_LARGE < n < TOO_LARGE
  }

  function Digits(raw: string): string {
    if StartsWith(raw, "-") then raw[1..] else raw
  }

  function IntegerValue(raw: string): int
    requires AllDigits(Digits(raw))
  {
    if StartsWith(raw, "-") then -(DecimalValue(Digits(raw)) as int) else DecimalValue(Digits(raw))
  }

  /** A flag as it stands in argv: its words there, and what they say. */
  datatype Occurrence = Occurrence(words: seq<string>, name: string, entry: Entry, value: Value)

  function ValueOf(kind: Kind, name: string, raw: string): Result<Value, ParseError>
    requires !kind.Boolean?
  {
    match kind
    case Integer =>
      if !AllDigits(Digits(raw)) || !Finite(IntegerValue(raw)) then Err(RequiresInteger(name)) else Ok(Number(IntegerValue(raw)))
    case TextList => Ok(Words([raw]))
    case _ => Ok(Word(raw))
  }

  function BooleanOf(name: string, explicit: Option<string>): Result<Value, ParseError> {
    if explicit == None || explicit == Some("true") then Ok(Switch(true))
    else if explicit == Some("false") then Ok(Switch(false))
    else Err(OnlyTrueOrFalse(name))
  }

  /** The name in a flag's word, and the value behind its `=`. */
  function WordName(word: string): string
    requires |word| >= 2
  {
    word[2..][..Find(word[2..], '=')]
  }

  function WordValue(word: string): Option<string>
    requires |word| >= 2
  {
    var body := word[2..];
    if Find(body, '=') == |body| then None else Some(body[Find(body, '=') + 1..])
  }

  /** The flag that `args` begins with. */
  function First(args: seq<string>, t: Table): (r: Result<Occurrence, ParseError>)
    requires args != []
    ensures r.Ok? ==> 1 <= |r.value.words| <= |args| && r.value.words == args[..|r.value.words|]
  {
    if !StartsWith(args[0], "--") then Err(UnexpectedPositional(args[0]))
    else
      var name := WordName(args[0]);
      match Lookup(t, name)
      case None => Err(UnknownFlag(name))
      case Some(entry) =>
        if entry.kind.Boolean? then Read(args[..1], name, entry, BooleanOf(name, WordValue(args[0])))
        else if WordValue(args[0]).Some? then Read(args[..1], name, entry, ValueOf(entry.kind, name, WordValue(args[0]).value))
        else if |args| < 2 || StartsWith(args[1], "--") then Err(RequiresValue(name))
        else Read(args[..2], name, entry, ValueOf(entry.kind, name, args[1]))
  }

  function Read(words: seq<string>, name: string, entry: Entry, value: Result<Value, ParseError>): Result<Occurrence, ParseError> {
    match value
    case Err(e) => Err(e)
    case Ok(v) => Ok(Occurrence(words, name, entry, v))
  }

  // ----- All of them ----------------------------------------------------------

  /** A later occurrence overwrites an earlier one; only a list grows. */
  function Put(flags: FlagValues, o: Occurrence): FlagValues {
    var key := o.entry.key;
    var before := if key in flags && flags[key].Words? then flags[key].texts else [];
    flags[key := if o.value.Words? then Words(before + o.value.texts) else o.value]
  }

  function PutAll(flags: FlagValues, os: seq<Occurrence>): FlagValues
    decreases |os|
  {
    if os == [] then flags else PutAll(Put(flags, os[0]), os[1..])
  }

  function Occurrences(args: seq<string>, t: Table): Result<seq<Occurrence>, ParseError>
    decreases |args|
  {
    if args == [] then Ok([])
    else match First(args, t)
      case Err(e) => Err(e)
      case Ok(o) =>
        match Occurrences(args[|o.words|..], t)
        case Err(e) => Err(e)
        case Ok(os) => Ok([o] + os)
  }

  /** A key's descriptor, the command's own first. */
  function KindOf(schema: Schema, key: string): Option<Kind> {
    if schema == [] then None else if schema[0].key == key then Some(schema[0].kind) else KindOf(schema[1..], key)
  }

  function KnownKind(t: Table, key: string): Option<Kind> {
    if KindOf(t.command, key).Some? then KindOf(t.command, key) else KindOf(t.global, key)
  }

  /** The defaults a command starts from: text, except that a boolean's has to say "true". */
  function Start(t: Table, defaults: map<string, string>): FlagValues {
    map key | key in defaults && KnownKind(t, key).Some? ::
      if KnownKind(t, key).value.Boolean? then Switch(defaults[key] == "true") else Word(defaults[key])
  }

  function ParseFrom(flags: FlagValues, args: seq<string>, t: Table): Result<FlagValues, ParseError> {
    match Occurrences(args, t)
    case Err(e) => Err(e)
    case Ok(os) => Ok(PutAll(flags, os))
  }

  lemma ParseStep(flags: FlagValues, args: seq<string>, t: Table)
    requires args != []
    ensures ParseFrom(flags, args, t) ==
      match First(args, t)
      case Err(e) => Err(e)
      case Ok(o) => ParseFrom(Put(flags, o), args[|o.words|..], t)
  {
    if First(args, t).Ok? && Occurrences(args[|First(args, t).value.words|..], t).Ok? {
      var o := First(args, t).value;
      var os := Occurrences(args, t).value;
      assert os[0] == o && os[1..] == Occurrences(args[|o.words|..], t).value;
    }
  }

  /** Neither schema has two keys with one public name. */
  predicate Wellformed(t: Table) {
    NamesDistinct(t.command) && NamesDistinct(t.global)
  }

  function ParseFlagsSpec(t: Table, args: seq<string>, defaults: map<string, string>): Result<FlagValues, ParseError>
    requires Wellformed(t)
  {
    ParseFrom(Start(t, defaults), args, t)
  }

  method ParseFlags(args: seq<string>, t: Table, defaults: map<string, string>) returns (r: Result<FlagValues, ParseError>)
    ensures Wellformed(t) ==> r == ParseFlagsSpec(t, args, defaults)
    ensures !Wellformed(t) ==> r.Err? && r.error.DuplicateFlagName?
  {
    var commandSchema := FlagSchemaDefinition(t.command);
    if commandSchema.Err? {
      return Err(commandSchema.error);
    }
    var globalSchema := FlagSchemaDefinition(t.global);
    if globalSchema.Err? {
      return Err(globalSchema.error);
    }
    var flags := Start(t, defaults);
    var index := 0;
    while index < |args|
      invariant 0 <= index <= |args|
      invariant ParseFlagsSpec(t, args, defaults) == ParseFrom(flags, args[index..], t)
    {
      var token := args[index];
      var rest := args[index..];
      ParseStep(flags, rest, t);
      if !StartsWith(token, "--") {
        return Err(UnexpectedPositional(token));
      }
      var withoutPrefix := token[2..];
      var equalsIndex := Find(withoutPrefix, '=');
      var rawName := withoutPrefix[..equalsIndex];
      assert rawName == WordName(rest[0]);
      assert Get(commandSchema.value, rawName) == Named(t.command, rawName);
      assert Get(globalSchema.value, rawName) == Named(t.global, rawName);
      var flag := if Get(commandSchema.value, rawName).Some? then Get(commandSchema.value, rawName) else Get(globalSchema.value, rawName);
      if flag.None? {
        return Err(UnknownFlag(rawName));
      }
      var value, width := ReadFlag(rest, flag.value, rawName);
      if value.Err? {
        assert First(rest, t) == Err(value.error);
        return Err(value.error);
      }
      var o := Occurrence(rest[..width], rawName, flag.value, value.value);
      assert First(rest, t) == Ok(o);
      flags := Put(flags, o);
      index := index + width;
      assert args[index..] == rest[width..];
    }
    assert args[index..] == [];
    return Ok(flags);
  }

  /** One round of the loop for a known flag: the value read, and how many words it took. */
  method ReadFlag(args: seq<string>, flag: Entry, rawName: string) returns (value: Result<Value, ParseError>, width: nat)
    requires args != [] && StartsWith(args[0], "--") && rawName == WordName(args[0])
    ensures value.Ok? ==> 1 <= width <= |args|
    ensures forall t | Lookup(t, rawName) == Some(flag) ::
      First(args, t) == (match value case Err(e) => Err(e) case Ok(v) => Ok(Occurrence(args[..width], rawName, flag, v)))
  {
    width := 1;
    var explicit := WordValue(args[0]);
    if flag.kind.Boolean? {
      return BooleanOf(rawName, explicit), 1;
    }
    var rawValue;
    if explicit.Some? {
      rawValue := explicit.value;
    } else {
      if |args| == 1 || StartsWith(args[1], "--") {
        return Err(RequiresValue(rawName)), 1;
      }
      rawValue := args[1];
      width := 2;
    }
    value := ValueOf(flag.kind, rawName, rawValue);
  }
}
