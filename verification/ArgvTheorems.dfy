/** The readers of raw argv against the parser they must never disagree with: what each
    says of a command line the parser accepts, and the one place where one does disagree. */
module ArgvTheorems {
  import opened Wrappers
  import opened Strings
  import opened Flags
  import opened Argv

  function Spelling(name: string): string {
    "--" + name
  }

  // ----- A command line is its occurrences end to end --------------------------

  function Flatten(os: seq<Occurrence>): seq<string>
    decreases |os|
  {
    if os == [] then [] else os[0].words + Flatten(os[1..])
  }

  /** The parser reads these words as this occurrence. */
  ghost predicate Legible(o: Occurrence, t: Table) {
    o.words != [] && First(o.words, t) == Ok(o)
  }

  ghost predicate AllLegible(os: seq<Occurrence>, t: Table) {
    forall k | 0 <= k < |os| :: Legible(os[k], t)
  }

  lemma FirstIsLocal(args: seq<string>, t: Table)
    requires args != [] && First(args, t).Ok?
    ensures Legible(First(args, t).value, t)
  {
    var o := First(args, t).value;
    assert args[..1][0] == args[0] && args[..1][..1] == args[..1];
    assert |args| >= 2 ==> args[..2][1] == args[1] && args[..2][..2] == args[..2] && args[..2][..1] == args[..1];
  }

  lemma FirstExtends(o: Occurrence, rest: seq<string>, t: Table)
    requires Legible(o, t)
    ensures First(o.words + rest, t) == Ok(o)
  {
    var args := o.words + rest;
    assert args[0] == o.words[0] && args[..1] == o.words[..1];
    if |o.words| > 1 {
      assert args[1] == o.words[1] && args[..2] == o.words[..2];
    }
  }

  lemma {:induction false} Unflatten(args: seq<string>, t: Table)
    requires Occurrences(args, t).Ok?
    ensures AllLegible(Occurrences(args, t).value, t) && Flatten(Occurrences(args, t).value) == args
    decreases |args|
  {
    hide First;
    if args != [] {
      var o := First(args, t).value;
      FirstIsLocal(args, t);
      Unflatten(args[|o.words|..], t);
      var os := Occurrences(args, t).value;
      assert os[1..] == Occurrences(args[|o.words|..], t).value;
      assert args == o.words + args[|o.words|..];
    }
  }

  lemma {:induction false} Reflatten(os: seq<Occurrence>, t: Table)
    requires AllLegible(os, t)
    ensures Occurrences(Flatten(os), t) == Ok(os)
    decreases |os|
  {
    hide First;
    if os != [] {
      FirstExtends(os[0], Flatten(os[1..]), t);
      Reflatten(os[1..], t);
      assert os == [os[0]] + os[1..];
      OccurrencesFrom(os[0], Flatten(os[1..]), os[1..], t);
    }
  }

  lemma OccurrencesFrom(o: Occurrence, rest: seq<string>, os: seq<Occurrence>, t: Table)
    requires o.words != [] && First(o.words + rest, t) == Ok(o) && Occurrences(rest, t) == Ok(os)
    ensures Occurrences(o.words + rest, t) == Ok([o] + os)
  {
    hide First;
    assert (o.words + rest)[|o.words|..] == rest;
  }

  // ----- The shape of one occurrence -------------------------------------------

  /** The text a reader of raw argv sees behind the option. */
  function Raw(o: Occurrence): Option<string>
    requires o.words != [] && |o.words[0]| >= 2
  {
    if |o.words| == 2 then Some(o.words[1]) else WordValue(o.words[0])
  }

  lemma Shape(o: Occurrence, t: Table)
    requires Legible(o, t)
    ensures '=' !in o.name && Lookup(t, o.name) == Some(o.entry)
    ensures 1 <= |o.words| <= 2 && StartsWith(o.words[0], "--") && WordName(o.words[0]) == o.name
    ensures |o.words| == 2 ==> !StartsWith(o.words[1], "--") && !o.entry.kind.Boolean? && WordValue(o.words[0]).None?
    ensures o.entry.kind.Boolean? ==> BooleanOf(o.name, Raw(o)) == Ok(o.value)
    ensures !o.entry.kind.Boolean? ==> Raw(o).Some? && ValueOf(o.entry.kind, o.name, Raw(o).value) == Ok(o.value)
    ensures o.value.Words? <==> o.entry.kind.TextList?
  {
  }

  /** How a flag's word is put together. */
  lemma WordIs(word: string)
    requires StartsWith(word, "--")
    ensures word == if WordValue(word).None? then Spelling(WordName(word)) else Spelling(WordName(word)) + "=" + WordValue(word).value
  {
    hide StartsWith;
    DashesFirst(word);
    var body := word[2..];
    var i := Find(body, '=');
    if i < |body| {
      Cut(body, i);
      Regroup("--", body[..i], "=", body[i + 1..]);
    } else {
      assert body[..i] == body;
    }
  }

  lemma DashesFirst(word: string)
    requires StartsWith(word, "--")
    ensures |word| >= 2 && word == "--" + word[2..]
  {
  }

  lemma Regroup(a: string, b: string, c: string, d: string)
    ensures a + (b + c + d) == a + b + c + d
  {
  }

  /** Which option a flag's word spells. */
  lemma SpellsItsName(word: string, name: string)
    requires StartsWith(word, "--") && '=' !in name
    ensures Spells(word, Spelling(name)) <==> WordName(word) == name
    ensures Spells(word, Spelling(name)) ==> (StartsWith(word, Spelling(name) + "=") <==> WordValue(word).Some?)
    ensures StartsWith(word, Spelling(name) + "=") ==> WordValue(word) == Some(word[|Spelling(name)| + 1..])
  {
    WordIs(word);
    if WordName(word) == name && WordValue(word).Some? {
      assert word[..|name| + 3] == Spelling(name) + "=";
    }
    var body := word[2..];
    if word == Spelling(name) {
      assert body == name;
    } else if StartsWith(word, Spelling(name) + "=") {
      assert word[..|name| + 3] == Spelling(name) + "=";
      assert body[..|name|] == (Spelling(name) + "=")[2..|name| + 2] == name;
      assert body[|name|] == (Spelling(name) + "=")[|name| + 2] == '=';
      FindAt(body, '=', |name|);
      assert body[|name| + 1..] == word[|name| + 3..];
    }
  }

  lemma SpellingStarts(word: string, name: string)
    requires Spells(word, Spelling(name))
    ensures StartsWith(word, "--")
  {
    assert Spelling(name)[..2] == "--" && (Spelling(name) + "=")[..2] == "--";
    assert word != Spelling(name) ==> word[..|name| + 3][..2] == word[..2];
  }

  /** A word that does not begin a flag spells none. */
  lemma ValuesSpellNothing(word: string, name: string)
    requires !StartsWith(word, "--")
    ensures !Spells(word, Spelling(name))
  {
    if Spells(word, Spelling(name)) {
      SpellingStarts(word, name);
    }
  }

  /** What follows an occurrence is the next flag, never a stray value. */
  lemma NothingStray(os: seq<Occurrence>, t: Table)
    requires AllLegible(os, t)
    ensures Flatten(os) == [] || StartsWith(Flatten(os)[0], "--")
  {
    if os != [] {
      Shape(os[0], t);
    }
  }

  // ----- Removing an option ---------------------------------------------------

  function Keep(os: seq<Occurrence>, name: string): seq<Occurrence>
    decreases |os|
  {
    if os == [] then [] else if os[0].name == name then Keep(os[1..], name) else [os[0]] + Keep(os[1..], name)
  }

  lemma {:induction false} KeepLegible(os: seq<Occurrence>, name: string, t: Table)
    requires AllLegible(os, t)
    ensures AllLegible(Keep(os, name), t)
    decreases |os|
  {
    hide First;
    if os != [] {
      KeepLegible(os[1..], name, t);
    }
  }

  lemma WithoutOne(o: Occurrence, rest: seq<string>, name: string, t: Table)
    requires Legible(o, t) && '=' !in name && (rest == [] || StartsWith(rest[0], "--"))
    ensures Without(o.words + rest, Spelling(name)) ==
      (if o.name == name then [] else o.words) + Without(rest, Spelling(name))
  {
    hide First, Lookup, WordName, WordValue, BooleanOf, ValueOf, Spelling;
    Shape(o, t);
    SpellsItsName(o.words[0], name);
    if |o.words| == 2 {
      WordIs(o.words[0]);
      ValuesSpellNothing(o.words[1], name);
      assert o.words == [o.words[0], o.words[1]];
      WithoutPair(o.words[0], o.words[1], rest, Spelling(name));
    } else {
      assert o.words == [o.words[0]];
      WithoutSingle(o.words[0], rest, Spelling(name));
    }
  }

  lemma WithoutSingle(word: string, rest: seq<string>, option: string)
    requires rest == [] || StartsWith(rest[0], "--")
    ensures Without([word] + rest, option) == (if Spells(word, option) then [] else [word]) + Without(rest, option)
  {
    assert ([word] + rest)[1..] == rest;
  }

  lemma WithoutPair(word: string, value: string, rest: seq<string>, option: string)
    requires !StartsWith(value, "--") && !Spells(value, option)
    requires Spells(word, option) ==> word == option
    ensures Without([word, value] + rest, option) ==
      (if Spells(word, option) then [] else [word, value]) + Without(rest, option)
  {
    var all := [word, value] + rest;
    assert all[1..] == [value] + rest && all[2..] == rest && ([value] + rest)[1..] == rest;
    assert [word] + ([value] + Without(rest, option)) == [word, value] + Without(rest, option);
  }

  lemma {:induction false} WithoutKeeps(os: seq<Occurrence>, name: string, t: Table)
    requires AllLegible(os, t) && '=' !in name
    ensures Without(Flatten(os), Spelling(name)) == Flatten(Keep(os, name))
    decreases |os|
  {
    hide First;
    if os != [] {
      NothingStray(os[1..], t);
      WithoutOne(os[0], Flatten(os[1..]), name, t);
      WithoutKeeps(os[1..], name, t);
      FlattenCons(os[0], Keep(os[1..], name));
    }
  }

  lemma FlattenCons(o: Occurrence, os: seq<Occurrence>)
    ensures Flatten([o] + os) == o.words + Flatten(os)
  {
    assert ([o] + os)[1..] == os;
  }

  lemma PutAllCons(flags: FlagValues, o: Occurrence, os: seq<Occurrence>)
    ensures PutAll(flags, [o] + os) == PutAll(Put(flags, o), os)
  {
    assert ([o] + os)[1..] == os;
  }

  /** The same everywhere but at one key. */
  ghost predicate SameBut(a: FlagValues, b: FlagValues, key: string) {
    forall other | other != key :: Get(a, other) == Get(b, other)
  }

  lemma {:induction false} PutAllKept(a: FlagValues, b: FlagValues, os: seq<Occurrence>, entry: Entry, name: string)
    requires SameBut(a, b, entry.key)
    requires forall k | 0 <= k < |os| :: os[k].entry.key == entry.key <==> os[k].name == name
    ensures SameBut(PutAll(a, os), PutAll(b, Keep(os, name)), entry.key)
    ensures Get(PutAll(b, Keep(os, name)), entry.key) == Get(b, entry.key)
    decreases |os|
  {
    if os != [] {
      var o, rest := os[0], os[1..];
      assert forall k | 0 <= k < |rest| :: rest[k] == os[k + 1];
      PutSame(a, b, o, entry.key);
      if o.name == name {
        PutAllKept(Put(a, o), b, rest, entry, name);
      } else {
        PutAllKept(Put(a, o), Put(b, o), rest, entry, name);
        PutAllCons(b, o, Keep(rest, name));
      }
    }
  }

  lemma PutSame(a: FlagValues, b: FlagValues, o: Occurrence, key: string)
    requires SameBut(a, b, key)
    ensures o.entry.key == key ==> SameBut(Put(a, o), b, key)
    ensures o.entry.key != key ==> SameBut(Put(a, o), Put(b, o), key) && Get(Put(b, o), key) == Get(b, key)
  {
    if o.entry.key != key {
      assert Get(a, o.entry.key) == Get(b, o.entry.key);
    }
    forall other | other != key
      ensures Get(Put(a, o), other) == Get(if o.entry.key == key then b else Put(b, o), other)
    {
      assert Get(a, other) == Get(b, other);
    }
  }

  /** Keys and public names go together. */
  lemma KeysAreNames(os: seq<Occurrence>, name: string, entry: Entry, t: Table)
    requires AllLegible(os, t) && Lookup(t, name) == Some(entry)
    ensures forall k | 0 <= k < |os| :: os[k].entry.key == entry.key <==> os[k].name == name
  {
    forall k | 0 <= k < |os| ensures os[k].entry.key == entry.key <==> os[k].name == name {
      Shape(os[k], t);
    }
  }

  lemma {:induction false} UnknownKeepsAll(os: seq<Occurrence>, name: string, t: Table)
    requires AllLegible(os, t) && Lookup(t, name).None?
    ensures Keep(os, name) == os
    decreases |os|
  {
    if os != [] {
      Shape(os[0], t);
      UnknownKeepsAll(os[1..], name, t);
    }
  }

  /** On a command line the parser accepts, taking an option off takes exactly that option
      off: its key falls back to its default and every other flag, lists in their order
      included, parses as before. */
  lemma WithoutCommutes(args: seq<string>, t: Table, defaults: map<string, string>, name: string)
    requires Wellformed(t) && '=' !in name && ParseFlagsSpec(t, args, defaults).Ok?
    ensures var before, after := ParseFlagsSpec(t, args, defaults), ParseFlagsSpec(t, Without(args, Spelling(name)), defaults);
      && after.Ok?
      && (Lookup(t, name).None? ==> after == before)
      && (Lookup(t, name).Some? ==>
            && Get(after.value, Lookup(t, name).value.key) == Get(Start(t, defaults), Lookup(t, name).value.key)
            && SameBut(before.value, after.value, Lookup(t, name).value.key))
  {
    hide First;
    var os := Occurrences(args, t).value;
    Unflatten(args, t);
    WithoutKeeps(os, name, t);
    KeepLegible(os, name, t);
    Reflatten(Keep(os, name), t);
    match Lookup(t, name)
    case None => UnknownKeepsAll(os, name, t);
    case Some(entry) =>
      KeysAreNames(os, name, entry, t);
      PutAllKept(Start(t, defaults), Start(t, defaults), os, entry, name);
  }

  // ----- Reading an option ----------------------------------------------------

  function Last(os: seq<Occurrence>, name: string): Option<Occurrence>
    decreases |os|
  {
    if os == [] then None
    else if Last(os[1..], name).Some? then Last(os[1..], name)
    else if os[0].name == name then Some(os[0]) else None
  }

  lemma {:induction false} LastIs(os: seq<Occurrence>, name: string, t: Table)
    requires AllLegible(os, t)
    ensures Last(os, name).Some? ==> Last(os, name).value.name == name && Legible(Last(os, name).value, t)
    decreases |os|
  {
    if os != [] {
      LastIs(os[1..], name, t);
    }
  }

  /** The last occurrence is what is left of a flag that is not a list. */
  lemma {:induction false} LastWins(flags: FlagValues, os: seq<Occurrence>, entry: Entry, name: string, t: Table)
    requires AllLegible(os, t) && Lookup(t, name) == Some(entry) && !entry.kind.TextList?
    ensures Get(PutAll(flags, os), entry.key) ==
      if Last(os, name).Some? then Some(Last(os, name).value.value) else Get(flags, entry.key)
    decreases |os|
  {
    if os != [] {
      Shape(os[0], t);
      LastWins(Put(flags, os[0]), os[1..], entry, name, t);
    }
  }

  ghost predicate Spelled(args: seq<string>, option: string) {
    exists i | 0 <= i < |args| :: Spells(args[i], option)
  }

  lemma {:induction false} ReadSuffix(a: seq<string>, b: seq<string>, option: string, m: nat)
    requires m <= |b|
    ensures ReadFrom(a + b, option, |a| + m) ==
      if Spelled(b[..m], option) then ReadFrom(b, option, m) else ReadFrom(a + b, option, |a|)
    decreases m
  {
    if m > 0 {
      ReadSuffix(a, b, option, m - 1);
      SpelledIn(b[..m - 1], [b[m - 1]], option);
      assert b[..m] == b[..m - 1] + [b[m - 1]];
      assert Spelled([b[m - 1]], option) <==> Spells([b[m - 1]][0], option);
      assert (a + b)[|a| + m - 1] == b[m - 1];
      assert m < |b| ==> (a + b)[|a| + m] == b[m];
      assert ValueAt(a + b, |a| + m) <==> ValueAt(b, m);
    }
  }

  lemma ReadShort(o: Occurrence, rest: seq<string>, name: string, t: Table)
    requires Legible(o, t) && |o.words| == 1 && '=' !in name && (rest == [] || StartsWith(rest[0], "--"))
    ensures |o.words[0]| >= 2
    ensures ReadFrom(o.words + rest, Spelling(name), 1) == if o.name == name then Raw(o) else None
    ensures Spells(o.words[0], Spelling(name)) <==> o.name == name
  {
    var all, option := o.words + rest, Spelling(name);
    Shape(o, t);
    SpellsItsName(o.words[0], name);
    assert all[0] == o.words[0];
    assert rest != [] ==> all[1] == rest[0];
    assert !ValueAt(all, 1);
    assert ReadFrom(all, option, 0) == None;
  }

  lemma ReadLong(o: Occurrence, rest: seq<string>, name: string, t: Table)
    requires Legible(o, t) && |o.words| == 2 && '=' !in name
    ensures |o.words[0]| >= 2
    ensures ReadFrom(o.words + rest, Spelling(name), 2) == if o.name == name then Raw(o) else None
    ensures Spells(o.words[0], Spelling(name)) <==> o.name == name
    ensures !Spells(o.words[1], Spelling(name))
  {
    var all, option := o.words + rest, Spelling(name);
    Shape(o, t);
    SpellsItsName(o.words[0], name);
    ValuesSpellNothing(o.words[1], name);
    assert all[0] == o.words[0] && all[1] == o.words[1];
    assert ValueAt(all, 1);
    assert ReadFrom(all, option, 0) == None;
    assert ReadFrom(all, option, 2) == ReadFrom(all, option, 1);
  }

  lemma ReadOne(o: Occurrence, rest: seq<string>, name: string, t: Table)
    requires Legible(o, t) && '=' !in name && (rest == [] || StartsWith(rest[0], "--"))
    ensures |o.words[0]| >= 2
    ensures ReadFrom(o.words + rest, Spelling(name), |o.words|) == if o.name == name then Raw(o) else None
    ensures Spelled(o.words, Spelling(name)) <==> o.name == name
  {
    Shape(o, t);
    if |o.words| == 1 {
      ReadShort(o, rest, name, t);
    } else {
      ReadLong(o, rest, name, t);
    }
    assert Spells(o.words[0], Spelling(name)) ==> Spelled(o.words, Spelling(name));
  }

  lemma ReadPair(o: Occurrence, rest: seq<string>, name: string, t: Table)
    requires Legible(o, t) && '=' !in name && (rest == [] || StartsWith(rest[0], "--"))
    ensures |o.words[0]| >= 2
    ensures var all := o.words + rest;
      && ReadFrom(all, Spelling(name), |all|) ==
           (if Spelled(rest, Spelling(name)) then ReadFrom(rest, Spelling(name), |rest|) else if o.name == name then Raw(o) else None)
      && (Spelled(all, Spelling(name)) <==> o.name == name || Spelled(rest, Spelling(name)))
  {
    hide First;
    ReadOne(o, rest, name, t);
    ReadSuffix(o.words, rest, Spelling(name), |rest|);
    assert rest[..|rest|] == rest;
    SpelledIn(o.words, rest, Spelling(name));
  }

  lemma {:induction false} ReadsLast(os: seq<Occurrence>, name: string, t: Table)
    requires AllLegible(os, t) && '=' !in name
    ensures Spelled(Flatten(os), Spelling(name)) <==> Last(os, name).Some?
    ensures Last(os, name).None? ==> ReadFrom(Flatten(os), Spelling(name), |Flatten(os)|) == None
    ensures Last(os, name).Some? ==>
      && Last(os, name).value.words != [] && |Last(os, name).value.words[0]| >= 2
      && ReadFrom(Flatten(os), Spelling(name), |Flatten(os)|) == Raw(Last(os, name).value)
    decreases |os|
  {
    hide First;
    if os != [] {
      NothingStray(os[1..], t);
      ReadsLast(os[1..], name, t);
      ReadPair(os[0], Flatten(os[1..]), name, t);
    }
  }

  lemma SpelledIn(a: seq<string>, b: seq<string>, option: string)
    ensures Spelled(a + b, option) <==> Spelled(a, option) || Spelled(b, option)
  {
    forall i | 0 <= i < |b| && Spells(b[i], option) ensures Spells((a + b)[|a| + i], option) {
    }
    forall i | 0 <= i < |a| && Spells(a[i], option) ensures Spells((a + b)[i], option) {
    }
  }

  /** What the parser makes of a flag is what `readOptionValue` reads for it, and a flag
      nobody spelled keeps its default. */
  lemma ParsedIsRead(args: seq<string>, t: Table, defaults: map<string, string>, name: string, entry: Entry)
    requires Wellformed(t) && '=' !in name && Lookup(t, name) == Some(entry) && !entry.kind.TextList?
    requires ParseFlagsSpec(t, args, defaults).Ok?
    ensures var parsed := Get(ParseFlagsSpec(t, args, defaults).value, entry.key);
      var read := ReadFrom(args, Spelling(name), |args|);
      if !Spelled(args, Spelling(name)) then read == None && parsed == Get(Start(t, defaults), entry.key)
      else
        && parsed.Some?
        && (entry.kind.Boolean? ==> BooleanOf(name, read) == Ok(parsed.value))
        && (!entry.kind.Boolean? ==> read.Some? && ValueOf(entry.kind, name, read.value) == Ok(parsed.value))
  {
    hide First;
    var os := Occurrences(args, t).value;
    Unflatten(args, t);
    ReadsLast(os, name, t);
    LastWins(Start(t, defaults), os, entry, name, t);
    LastIs(os, name, t);
    if Last(os, name).Some? {
      Shape(Last(os, name).value, t);
    }
  }

  /** For a string option: `readOptionValue` is the parsed value, exactly when spelled. */
  lemma ReadOptionValueAgrees(args: seq<string>, t: Table, defaults: map<string, string>, name: string, entry: Entry)
    requires Wellformed(t) && '=' !in name && Lookup(t, name) == Some(entry) && entry.kind.Text?
    requires ParseFlagsSpec(t, args, defaults).Ok?
    ensures var read := ReadFrom(args, Spelling(name), |args|);
      && (read.Some? <==> Spelled(args, Spelling(name)))
      && Get(ParseFlagsSpec(t, args, defaults).value, entry.key) ==
         if read.Some? then Some(Word(read.value)) else Get(Start(t, defaults), entry.key)
  {
    ParsedIsRead(args, t, defaults, name, entry);
  }

  // ----- Reading a switch -----------------------------------------------------

  ghost predicate SwitchedOn(args: seq<string>, option: string) {
    exists i | 0 <= i < |args| :: SwitchesOn(args[i], option)
  }

  /** A word that spells a switch turns it on unless it ends in `=false`. */
  lemma {:induction false} OffIsRead(args: seq<string>, option: string, n: nat)
    requires n <= |args|
    requires exists i | 0 <= i < n :: Spells(args[i], option)
    requires forall i | 0 <= i < n :: !SwitchesOn(args[i], option)
    ensures ReadFrom(args, option, n) == Some("false")
    decreases n
  {
    if Spells(args[n - 1], option) {
      assert !SwitchesOn(args[n - 1], option);
      assert args[n - 1] == option + "=false";
      assert args[n - 1][|option| + 1..] == "false";
    } else {
      OffIsRead(args, option, n - 1);
    }
  }

  /** On an accepted command line a spelled switch parses to true exactly when
      `hasBooleanOption` finds it and its last spelling is not `=false`; so the reader and
      the parser disagree exactly when both an on-spelling and a final `=false` are there. */
  lemma HasBooleanOptionAgrees(args: seq<string>, t: Table, defaults: map<string, string>, name: string, entry: Entry)
    requires Wellformed(t) && '=' !in name && Lookup(t, name) == Some(entry) && entry.kind.Boolean?
    requires ParseFlagsSpec(t, args, defaults).Ok? && Spelled(args, Spelling(name))
    ensures var on := Get(ParseFlagsSpec(t, args, defaults).value, entry.key) == Some(Switch(true));
      var found := SwitchedOn(args, Spelling(name));
      var endsOff := ReadFrom(args, Spelling(name), |args|) == Some("false");
      && (on <==> found && !endsOff)
      && ((found <==> on) <==> !(found && endsOff))
  {
    ParsedIsRead(args, t, defaults, name, entry);
    if !SwitchedOn(args, Spelling(name)) {
      OffIsRead(args, Spelling(name), |args|);
    }
    ReadsAsSwitch(name, ReadFrom(args, Spelling(name), |args|));
  }

  lemma ReadsAsSwitch(name: string, read: Option<string>)
    requires BooleanOf(name, read).Ok?
    ensures BooleanOf(name, read) == Ok(Switch(read != Some("false")))
  {
    assert "true" != "false";
  }

  lemma SwitchIsLegible(o: Occurrence, t: Table)
    requires |o.words| == 1 && StartsWith(o.words[0], "--") && WordName(o.words[0]) == o.name
    requires Lookup(t, o.name) == Some(o.entry) && o.entry.kind.Boolean? && BooleanOf(o.name, WordValue(o.words[0])) == Ok(o.value)
    ensures Legible(o, t)
  {
    assert o.words[..1] == o.words;
  }

  lemma WordsRead(word: string, name: string, value: string)
    requires '=' !in name
    ensures word == Spelling(name) ==> StartsWith(word, "--") && WordName(word) == name && WordValue(word) == None
    ensures word == Spelling(name) + "=" + value ==> StartsWith(word, "--") && WordName(word) == name && WordValue(word) == Some(value)
  {
    if word == Spelling(name) {
      assert word[2..] == name && word[..2] == "--" && name[..|name|] == name;
    } else if word == Spelling(name) + "=" + value {
      var body := name + "=" + value;
      assert word == "--" + body && word[2..] == body;
      assert body[|name|] == '=' && body[..|name|] == name && body[|name| + 1..] == value;
      FindAt(body, '=', |name|);
    }
  }

  /** The disagreement, of every boolean flag: spelled alone and then with `=false`, it
      parses to false and reads as present. */
  lemma LastSpellingOff(t: Table, name: string, entry: Entry)
    requires Wellformed(t) && '=' !in name && Lookup(t, name) == Some(entry) && entry.kind.Boolean?
    ensures var args := [Spelling(name), Spelling(name) + "=false"];
      && ParseFlagsSpec(t, args, map[]) == Ok(map[entry.key := Switch(false)])
      && SwitchedOn(args, Spelling(name))
  {
    var args := [Spelling(name), Spelling(name) + "=false"];
    var on := Occurrence([args[0]], name, entry, Switch(true));
    var off := Occurrence([args[1]], name, entry, Switch(false));
    assert args[1] == Spelling(name) + "=" + "false";
    WordsRead(args[0], name, "");
    WordsRead(args[1], name, "false");
    SwitchIsLegible(on, t);
    SwitchIsLegible(off, t);
    Reflatten([on, off], t);
    OnThenOff(on, off, args);
    assert SwitchesOn(args[0], Spelling(name));
    assert Start(t, map[]) == map[];
  }

  lemma OnThenOff(on: Occurrence, off: Occurrence, args: seq<string>)
    requires |args| == 2 && on.words == [args[0]] && off.words == [args[1]]
    requires on.value.Switch? && off.value.Switch? && on.entry == off.entry
    ensures Flatten([on, off]) == args
    ensures PutAll(map[], [on, off]) == map[on.entry.key := off.value]
  {
    FlattenCons(on, [off]);
    FlattenCons(off, []);
    assert [on] + [off] == [on, off] && [off] + [] == [off];
    PutAllCons(map[], on, [off]);
    PutAllCons(Put(map[], on), off, []);
  }

  // ----- Blanking the token ---------------------------------------------------

  const SECRET := "token"

  function Blank(o: Occurrence): Occurrence {
    if o.name != SECRET then o
    else o.(words := if |o.words| == 2 then [TOKEN, REDACTED_VALUE] else [TOKEN + "=" + REDACTED_VALUE], value := Word(REDACTED_VALUE))
  }

  function BlankAll(os: seq<Occurrence>): seq<Occurrence>
    decreases |os|
  {
    if os == [] then [] else [Blank(os[0])] + BlankAll(os[1..])
  }

  /** `token` is a string flag wherever a schema has it. */
  ghost predicate TokenIsText(t: Table) {
    Lookup(t, SECRET).Some? ==> Lookup(t, SECRET).value.kind.Text?
  }

  lemma BlankLegible(o: Occurrence, t: Table)
    requires Legible(o, t) && TokenIsText(t)
    ensures Legible(Blank(o), t)
  {
    hide First, Lookup, WordName, WordValue, BooleanOf, ValueOf;
    Shape(o, t);
    if o.name == SECRET {
      assert TOKEN == Spelling(SECRET);
      assert TOKEN + "=" + REDACTED_VALUE == Spelling(SECRET) + "=" + REDACTED_VALUE;
      WordsRead(TOKEN, SECRET, "");
      WordsRead(TOKEN + "=" + REDACTED_VALUE, SECRET, REDACTED_VALUE);
      assert REDACTED_VALUE[0] == '<';
      TextIsLegible(Blank(o), t);
    }
  }

  lemma TextIsLegible(o: Occurrence, t: Table)
    requires 1 <= |o.words| <= 2 && StartsWith(o.words[0], "--") && WordName(o.words[0]) == o.name
    requires |o.words| == 2 <==> WordValue(o.words[0]).None?
    requires |o.words| == 2 ==> !StartsWith(o.words[1], "--")
    requires Lookup(t, o.name) == Some(o.entry) && o.entry.kind.Text? && o.value == Word(Raw(o).value)
    ensures Legible(o, t)
  {
    if |o.words| == 2 {
      assert o.words[..2] == o.words;
    } else {
      assert o.words[..1] == o.words;
    }
  }

  lemma RedactOne(o: Occurrence, rest: seq<string>, t: Table)
    requires Legible(o, t) && TokenIsText(t)
    ensures Redact(o.words + rest) == Blank(o).words + Redact(rest)
  {
    hide First, Lookup, WordName, WordValue, BooleanOf, ValueOf, Redact;
    Shape(o, t);
    SpellsItsName(o.words[0], SECRET);
    assert TOKEN == Spelling(SECRET);
    if |o.words| == 2 {
      var word, value := o.words[0], o.words[1];
      assert o.words == [word, value];
      if o.name == SECRET {
        WordIs(word);
        RedactValue(value, rest);
      } else {
        ValuesSpellNothing(value, SECRET);
        assert [word, value] + rest == [word] + ([value] + rest);
        RedactPlain(word, [value] + rest);
        RedactPlain(value, rest);
      }
    } else {
      var word := o.words[0];
      assert o.words == [word];
      if o.name == SECRET {
        RedactJoined(word, rest);
      } else {
        RedactPlain(word, rest);
      }
    }
  }

  lemma RedactValue(value: string, rest: seq<string>)
    requires !StartsWith(value, "--")
    ensures Redact([TOKEN, value] + rest) == [TOKEN, REDACTED_VALUE] + Redact(rest)
  {
    var all := [TOKEN, value] + rest;
    assert ValueAt(all, 1) && all[2..] == rest;
  }

  lemma RedactJoined(word: string, rest: seq<string>)
    requires StartsWith(word, TOKEN + "=")
    ensures Redact([word] + rest) == [TOKEN + "=" + REDACTED_VALUE] + Redact(rest)
  {
    assert ([word] + rest)[1..] == rest;
    assert |word| > |TOKEN|;
  }

  lemma RedactPlain(word: string, rest: seq<string>)
    requires !Spells(word, TOKEN)
    ensures Redact([word] + rest) == [word] + Redact(rest)
  {
    assert ([word] + rest)[1..] == rest;
  }

  lemma {:induction false} RedactBlanks(os: seq<Occurrence>, t: Table)
    requires AllLegible(os, t) && TokenIsText(t)
    ensures Redact(Flatten(os)) == Flatten(BlankAll(os)) && AllLegible(BlankAll(os), t)
    decreases |os|
  {
    hide First;
    if os != [] {
      RedactOne(os[0], Flatten(os[1..]), t);
      BlankLegible(os[0], t);
      RedactBlanks(os[1..], t);
      FlattenCons(Blank(os[0]), BlankAll(os[1..]));
    }
  }

  lemma {:induction false} PutAllBlanked(a: FlagValues, b: FlagValues, os: seq<Occurrence>, key: string)
    requires SameBut(a, b, key)
    requires forall k | 0 <= k < |os| :: os[k].entry.key == key <==> os[k].name == SECRET
    ensures SameBut(PutAll(a, os), PutAll(b, BlankAll(os)), key)
    ensures Get(PutAll(b, BlankAll(os)), key) == if Last(os, SECRET).Some? then Some(Word(REDACTED_VALUE)) else Get(b, key)
    decreases |os|
  {
    if os != [] {
      var o, rest := os[0], os[1..];
      assert forall k | 0 <= k < |rest| :: rest[k] == os[k + 1];
      PutSame(a, b, o, key);
      PutSame(b, b, Blank(o), key);
      PutAllBlanked(Put(a, o), Put(b, Blank(o)), rest, key);
      PutAllCons(b, Blank(o), BlankAll(rest));
    }
  }

  /** A redacted command line still parses, to the same flags, except that a token spelled
      in it has become the placeholder. */
  lemma RedactKeepsAllButTheToken(args: seq<string>, t: Table, defaults: map<string, string>)
    requires Wellformed(t) && TokenIsText(t) && ParseFlagsSpec(t, args, defaults).Ok?
    ensures var before, after := ParseFlagsSpec(t, args, defaults), ParseFlagsSpec(t, Redact(args), defaults);
      && after.Ok?
      && (Lookup(t, SECRET).None? ==> after == before)
      && (Lookup(t, SECRET).Some? ==>
            && SameBut(before.value, after.value, Lookup(t, SECRET).value.key)
            && Get(after.value, Lookup(t, SECRET).value.key) ==
               if Spelled(args, TOKEN) then Some(Word(REDACTED_VALUE)) else Get(Start(t, defaults), Lookup(t, SECRET).value.key))
  {
    hide First;
    var os := Occurrences(args, t).value;
    assert TOKEN == Spelling(SECRET) && '=' !in SECRET;
    Unflatten(args, t);
    RedactBlanks(os, t);
    Reflatten(BlankAll(os), t);
    ReadsLast(os, SECRET, t);
    match Lookup(t, SECRET)
    case None => NoneToBlank(os, t);
    case Some(entry) =>
      KeysAreNames(os, SECRET, entry, t);
      PutAllBlanked(Start(t, defaults), Start(t, defaults), os, entry.key);
  }

  lemma {:induction false} NoneToBlank(os: seq<Occurrence>, t: Table)
    requires AllLegible(os, t) && Lookup(t, SECRET).None?
    ensures BlankAll(os) == os
    decreases |os|
  {
    hide First;
    if os != [] {
      Shape(os[0], t);
      NoneToBlank(os[1..], t);
    }
  }
}
