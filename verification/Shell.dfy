/** Command lines the CLI prints to be pasted (cli/src/argv.ts), and the shell that reads
    them: token recognition and quote removal after sections 2.2 and 2.3 of the IEEE Std
    1003.1-2017 Shell Command Language. */
module Shell {
  import opened Wrappers
  import opened Strings

  // ----- The printer ----------------------------------------------------------

  predicate IsPlain(c: char) {
    'A' <= c <= 'Z' || 'a' <= c <= 'z' || IsDigit(c) || c in {'_', '@', '%', '+', '=', ':', ',', '.', '/', '-'}
  }

  predicate AllPlain(value: string) {
    forall k | 0 <= k < |value| :: IsPlain(value[k])
  }

  const APOSTROPHE: char := 39 as char
  const BACKSLASH: char := 92 as char
  const SINGLE := [APOSTROPHE]
  const ESCAPED := [APOSTROPHE, BACKSLASH, APOSTROPHE, APOSTROPHE]

  /** Every single quote closed, escaped and reopened. */
  function Reopened(value: string): string {
    if value == "" then "" else (if value[0] == APOSTROPHE then ESCAPED else [value[0]]) + Reopened(value[1..])
  }

  function QuoteForShell(value: string): string {
    if value == "" then SINGLE + SINGLE else if AllPlain(value) then value else SINGLE + Reopened(value) + SINGLE
  }

  function QuoteAll(args: seq<string>): seq<string> {
    if args == [] then [] else [QuoteForShell(args[0])] + QuoteAll(args[1..])
  }

  function RenderCommand(args: seq<string>): string {
    Join(QuoteAll(args), ' ')
  }

  // ----- The shell ------------------------------------------------------------

  datatype Mode = Between | InWord | Quoted

  /** Characters that mean something to the shell when nothing quotes them: operators,
      expansions, patterns, comments, tildes, braces, double quotes and the newline. */
  predicate Live(c: char) {
    c in {'|', '&', ';', '<', '>', '(', ')', '$', '`', '"', '\n', '*', '?', '[', ']', '#', '~', '{', '}', '!', '^'}
  }

  /** The words of one simple command, with their quotes removed; none when a quote stays
      open or the shell would do anything but read words. */
  function Scan(s: string, mode: Mode, word: string, words: seq<string>): Option<seq<string>>
    decreases |s|
  {
    if s == "" then
      match mode
      case Between => Some(words)
      case InWord => Some(words + [word])
      case Quoted => None
    else
      var c := s[0];
      if mode.Quoted? then Scan(s[1..], if c == APOSTROPHE then InWord else Quoted, if c == APOSTROPHE then word else word + [c], words)
      else if c == APOSTROPHE then Scan(s[1..], Quoted, word, words)
      else if c == BACKSLASH then
        if |s| < 2 then None
        else if s[1] == '\n' then Scan(s[2..], mode, word, words)
        else Scan(s[2..], InWord, word + [s[1]], words)
      else if c == ' ' || c == '\t' then
        if mode.Between? then Scan(s[1..], Between, "", words) else Scan(s[1..], Between, "", words + [word])
      else if Live(c) then None
      else Scan(s[1..], InWord, word + [c], words)
  }

  function Words(line: string): Option<seq<string>> {
    Scan(line, Between, "", [])
  }

  // ----- The round trip -------------------------------------------------------

  lemma {:induction false} ScanPlain(line: string, value: string, rest: string, mode: Mode, word: string, words: seq<string>)
    requires line == value + rest && value != "" && AllPlain(value) && !mode.Quoted?
    ensures Scan(line, mode, word, words) == Scan(rest, InWord, word + value, words)
    decreases |value|
  {
    assert IsPlain(line[0]) && !Live(line[0]);
    assert line[1..] == value[1..] + rest;
    if |value| == 1 {
      assert value == [line[0]] && line[1..] == rest;
    } else {
      assert value[1..] != "";
      ScanPlain(line[1..], value[1..], rest, InWord, word + [line[0]], words);
      assert word + [line[0]] + value[1..] == word + value;
    }
  }

  lemma ScanEscape(line: string, rest: string, word: string, words: seq<string>)
    requires line == ESCAPED + rest
    ensures Scan(line, Quoted, word, words) == Scan(rest, Quoted, word + SINGLE, words)
  {
    assert line[0] == APOSTROPHE && line[1] == BACKSLASH && line[2] == APOSTROPHE && line[3] == APOSTROPHE && line[4..] == rest;
    assert line[1..][0] == BACKSLASH && line[1..][1] == APOSTROPHE && line[1..][2..] == line[3..];
    assert line[3..][0] == APOSTROPHE && line[3..][1..] == rest;
    assert Scan(line, Quoted, word, words) == Scan(line[1..], InWord, word, words);
    assert Scan(line[1..], InWord, word, words) == Scan(line[3..], InWord, word + [APOSTROPHE], words);
  }

  lemma {:induction false} ScanReopened(line: string, value: string, rest: string, word: string, words: seq<string>)
    requires line == Reopened(value) + rest
    ensures Scan(line, Quoted, word, words) == Scan(rest, Quoted, word + value, words)
    decreases |value|
  {
    if value == "" {
      assert line == rest && word + value == word;
    } else {
      var next := Reopened(value[1..]) + rest;
      if value[0] == APOSTROPHE {
        assert line == ESCAPED + next;
        ScanEscape(line, next, word, words);
      } else {
        assert line == [value[0]] + next && line[1..] == next;
      }
      ScanReopened(next, value[1..], rest, word + [value[0]], words);
      assert word + [value[0]] + value[1..] == word + value;
    }
  }

  lemma ScanQuoted(line: string, value: string, rest: string, words: seq<string>)
    requires line == SINGLE + Reopened(value) + SINGLE + rest
    ensures Scan(line, Between, "", words) == Scan(rest, InWord, value, words)
  {
    var inner := Reopened(value) + (SINGLE + rest);
    assert line[1..] == inner;
    ScanReopened(inner, value, SINGLE + rest, "", words);
    assert (SINGLE + rest)[1..] == rest;
    assert "" + value == value;
  }

  lemma ScanOne(line: string, value: string, rest: string, words: seq<string>)
    requires line == QuoteForShell(value) + rest
    ensures Scan(line, Between, "", words) == Scan(rest, InWord, value, words)
  {
    if value == "" {
      assert line == SINGLE + Reopened(value) + SINGLE + rest;
      ScanQuoted(line, value, rest, words);
    } else if AllPlain(value) {
      ScanPlain(line, value, rest, Between, "", words);
      assert "" + value == value;
    } else {
      ScanQuoted(line, value, rest, words);
    }
  }

  lemma {:induction false} ScanAll(args: seq<string>, words: seq<string>)
    ensures Scan(RenderCommand(args), Between, "", words) == Some(words + args)
    decreases |args|
  {
    if args != [] {
      var line, quoted := RenderCommand(args), QuoteAll(args);
      assert quoted[1..] == QuoteAll(args[1..]);
      if |args| == 1 {
        assert quoted == [QuoteForShell(args[0])] && line == QuoteForShell(args[0]) + "";
        ScanOne(line, args[0], "", words);
        assert args == [args[0]];
      } else {
        assert |quoted| > 1 by {
          assert |QuoteAll(args[1..])| > 0;
        }
        var rest := " " + RenderCommand(args[1..]);
        assert line == QuoteForShell(args[0]) + rest;
        ScanOne(line, args[0], rest, words);
        assert rest[1..] == RenderCommand(args[1..]);
        ScanAll(args[1..], words + [args[0]]);
        assert words + [args[0]] + args[1..] == words + args;
      }
    } else {
      assert words + args == words;
    }
  }

  /** What is pasted is what was meant: for every list of arguments, whatever characters
      they hold, the shell reads exactly those arguments and nothing else happens. */
  lemma ShellRoundTrip(args: seq<string>)
    ensures Words(RenderCommand(args)) == Some(args)
  {
    ScanAll(args, []);
    assert [] + args == args;
  }

  /** Two command lines printed alike are the same command line. */
  lemma RenderInjective(a: seq<string>, b: seq<string>)
    requires RenderCommand(a) == RenderCommand(b)
    ensures a == b
  {
    ShellRoundTrip(a);
    ShellRoundTrip(b);
  }
}
