/** Reading raw argv before, beside or after the parser (cli/src/argv.ts): presence, the
    last value, the same words without one option, and with its secret blanked. */
module Argv {
  import opened Wrappers
  import opened Seqs
  import opened Strings

  const REDACTED_VALUE := "<redacted>"

  /** A word that spells the option, alone or with a value behind `=`. */
  predicate Spells(arg: string, option: string) {
    arg == option || StartsWith(arg, option + "=")
  }

  /** Whether the word after position `n - 1` is a value and not the next flag. */
  predicate ValueAt(argv: seq<string>, n: nat) {
    n < |argv| && !StartsWith(argv[n], "--")
  }

  method HasOption(argv: seq<string>, option: string) returns (found: bool)
    ensures found <==> exists i | 0 <= i < |argv| :: Spells(argv[i], option)
  {
    for i := 0 to |argv|
      invariant forall j | 0 <= j < i :: !Spells(argv[j], option)
    {
      if argv[i] == option || StartsWith(argv[i], option + "=") {
        return true;
      }
    }
    return false;
  }

  /** What `hasBooleanOption` looks for. */
  predicate SwitchesOn(arg: string, option: string) {
    arg == option || (StartsWith(arg, option + "=") && arg != option + "=false")
  }

  method HasBooleanOption(argv: seq<string>, option: string) returns (found: bool)
    ensures found <==> exists i | 0 <= i < |argv| :: SwitchesOn(argv[i], option)
  {
    for i := 0 to |argv|
      invariant forall j | 0 <= j < i :: !SwitchesOn(argv[j], option)
    {
      if argv[i] == option || (StartsWith(argv[i], option + "=") && argv[i] != option + "=false") {
        return true;
      }
    }
    return false;
  }

  /** What the last spelling among the first `n` words reads as. */
  function ReadFrom(argv: seq<string>, option: string, n: nat): Option<string>
    requires n <= |argv|
  {
    if n == 0 then None
    else if StartsWith(argv[n - 1], option + "=") then Some(argv[n - 1][|option| + 1..])
    else if argv[n - 1] == option then (if ValueAt(argv, n) then Some(argv[n]) else None)
    else ReadFrom(argv, option, n - 1)
  }

  /** The last spelling decides; the words behind it do not. */
  lemma {:induction false} ReadIsLast(argv: seq<string>, option: string, n: nat, i: nat)
    requires i < n <= |argv| && Spells(argv[i], option)
    requires forall j | i < j < n :: !Spells(argv[j], option)
    ensures ReadFrom(argv, option, n) == ReadFrom(argv, option, i + 1)
    decreases n
  {
    if i < n - 1 {
      assert !Spells(argv[n - 1], option);
      ReadIsLast(argv, option, n - 1, i);
    }
  }

  method ReadOptionValue(argv: seq<string>, option: string) returns (value: Option<string>)
    ensures value == ReadFrom(argv, option, |argv|)
  {
    var equalsPrefix := option + "=";
    var index := |argv| - 1;
    while index >= 0
      invariant -1 <= index < |argv|
      invariant ReadFrom(argv, option, |argv|) == ReadFrom(argv, option, index + 1)
    {
      var arg := argv[index];
      if StartsWith(arg, equalsPrefix) {
        return Some(arg[|equalsPrefix|..]);
      }
      if arg == option {
        return if index + 1 < |argv| && !StartsWith(argv[index + 1], "--") then Some(argv[index + 1]) else None;
      }
      index := index - 1;
    }
    return None;
  }

  function Without(argv: seq<string>, option: string): seq<string>
    decreases |argv|
  {
    if argv == [] then []
    else if argv[0] == option then Without(argv[if ValueAt(argv, 1) then 2 else 1..], option)
    else if StartsWith(argv[0], option + "=") then Without(argv[1..], option)
    else [argv[0]] + Without(argv[1..], option)
  }

  method WithoutOption(argv: seq<string>, option: string) returns (kept: seq<string>)
    ensures kept == Without(argv, option)
  {
    kept := [];
    var index := 0;
    while index < |argv|
      invariant 0 <= index <= |argv|
      invariant Without(argv, option) == kept + Without(argv[index..], option)
    {
      var arg, rest := argv[index], argv[index..];
      assert rest[1..] == argv[index + 1..];
      if arg == option {
        if index + 1 < |argv| && !StartsWith(argv[index + 1], "--") {
          assert ValueAt(rest, 1);
          assert rest[2..] == argv[index + 2..];
          index := index + 1;
        }
        index := index + 1;
        continue;
      }
      if StartsWith(arg, option + "=") {
        index := index + 1;
        continue;
      }
      Associate(kept, [arg], Without(rest[1..], option));
      kept := kept + [arg];
      index := index + 1;
    }
  }

  const TOKEN := "--token"

  function Redact(args: seq<string>): (redacted: seq<string>)
    ensures |redacted| == |args|
    decreases |args|
  {
    if args == [] then []
    else if args[0] == TOKEN then
      if ValueAt(args, 1) then [args[0], REDACTED_VALUE] + Redact(args[2..]) else [args[0]] + Redact(args[1..])
    else if StartsWith(args[0], TOKEN + "=") then [TOKEN + "=" + REDACTED_VALUE] + Redact(args[1..])
    else [args[0]] + Redact(args[1..])
  }

  method RedactSecretFlags(args: seq<string>) returns (redacted: seq<string>)
    ensures redacted == Redact(args)
  {
    redacted := [];
    var index := 0;
    while index < |args|
      invariant 0 <= index <= |args|
      invariant Redact(args) == redacted + Redact(args[index..])
    {
      var arg, rest := args[index], args[index..];
      assert rest[1..] == args[index + 1..];
      if arg == TOKEN {
        if index + 1 < |args| && !StartsWith(args[index + 1], "--") {
          assert ValueAt(rest, 1) && rest[2..] == args[index + 2..];
          Associate(redacted, [arg, REDACTED_VALUE], Redact(rest[2..]));
          redacted := redacted + [arg, REDACTED_VALUE];
          index := index + 2;
          continue;
        }
        assert !ValueAt(rest, 1);
        Associate(redacted, [arg], Redact(rest[1..]));
        redacted := redacted + [arg];
        index := index + 1;
        continue;
      }
      var pushed := if StartsWith(arg, TOKEN + "=") then TOKEN + "=" + REDACTED_VALUE else arg;
      Associate(redacted, [pushed], Redact(rest[1..]));
      redacted := redacted + [pushed];
      index := index + 1;
    }
  }

  // ----- On any argv at all ---------------------------------------------------

  /** Nothing spells a removed option, whatever the argv was. */
  lemma {:induction false} WithoutLeavesNone(argv: seq<string>, option: string)
    ensures forall k | 0 <= k < |Without(argv, option)| :: !Spells(Without(argv, option)[k], option)
    decreases |argv|
  {
    if argv != [] {
      if argv[0] == option {
        WithoutLeavesNone(argv[if ValueAt(argv, 1) then 2 else 1..], option);
      } else {
        WithoutLeavesNone(argv[1..], option);
      }
    }
  }

  /** So nothing is read for it, and removing it again changes nothing. */
  lemma {:induction false} ReadsNothing(argv: seq<string>, option: string, n: nat)
    requires n <= |argv| && forall k | 0 <= k < n :: !Spells(argv[k], option)
    ensures ReadFrom(argv, option, n) == None
    decreases n
  {
    if n > 0 {
      assert !Spells(argv[n - 1], option);
      ReadsNothing(argv, option, n - 1);
    }
  }

  lemma {:induction false} WithoutFixed(argv: seq<string>, option: string)
    requires forall k | 0 <= k < |argv| :: !Spells(argv[k], option)
    ensures Without(argv, option) == argv
    decreases |argv|
  {
    if argv != [] {
      assert !Spells(argv[0], option);
      forall k | 0 <= k < |argv[1..]| ensures !Spells(argv[1..][k], option) {
        assert argv[1..][k] == argv[k + 1];
      }
      WithoutFixed(argv[1..], option);
      assert argv == [argv[0]] + argv[1..];
    }
  }

  lemma RemovedIsGone(argv: seq<string>, option: string)
    ensures var kept := Without(argv, option);
      ReadFrom(kept, option, |kept|) == None && Without(kept, option) == kept
  {
    WithoutLeavesNone(argv, option);
    var kept := Without(argv, option);
    ReadsNothing(kept, option, |kept|);
    WithoutFixed(kept, option);
  }

  /** Word by word, on any argv: a token's value is blanked in both of its forms, and no
      other word changes. */
  lemma {:induction false} RedactAt(args: seq<string>, k: nat)
    requires k < |args|
    ensures Redact(args)[k] ==
      if StartsWith(args[k], TOKEN + "=") then TOKEN + "=" + REDACTED_VALUE
      else if k > 0 && args[k - 1] == TOKEN && !StartsWith(args[k], "--") then REDACTED_VALUE
      else args[k]
    decreases |args|
  {
    assert StartsWith(TOKEN, "--") && StartsWith(TOKEN + "=", "--");
    if args[0] == TOKEN && ValueAt(args, 1) {
      if k >= 2 {
        RedactAt(args[2..], k - 2);
      }
    } else if k >= 1 {
      RedactAt(args[1..], k - 1);
    }
  }
}
