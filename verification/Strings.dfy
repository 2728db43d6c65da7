/** The handful of JavaScript string operations the modelled code is written in. */
module Strings {
  import opened Seqs

  /** `s.startsWith(prefix)`. */
  predicate StartsWith(s: string, prefix: string) {
    |prefix| <= |s| && s[..|prefix|] == prefix
  }

  /** `s.includes(part)`. */
  predicate Includes(s: string, part: string) {
    exists i | 0 <= i <= |s| :: StartsWith(s[i..], part)
  }

  /** `s.indexOf(c)`, with `|s|` for a miss. */
  function Find(s: string, c: char): (i: nat)
    ensures i <= |s|
    ensures i < |s| ==> s[i] == c
    ensures c !in s[..i]
    ensures i == |s| <==> c !in s
  {
    if s == [] then 0 else if s[0] == c then 0 else 1 + Find(s[1..], c)
  }

  lemma FindAt(s: string, c: char, i: nat)
    requires i < |s| && s[i] == c && c !in s[..i]
    ensures Find(s, c) == i
  {
    var j := Find(s, c);
    assert forall k | 0 <= k < i :: s[k] == s[..i][k] != c;
    assert forall k | 0 <= k < j :: s[k] == s[..j][k] != c;
  }

  /** `s.split(c)`: one piece more than there are separators. */
  function Split(s: string, c: char): (pieces: seq<string>)
    ensures |pieces| >= 1
    ensures forall k | 0 <= k < |pieces| :: c !in pieces[k]
    decreases |s|
  {
    var i := Find(s, c);
    if i == |s| then [s] else [s[..i]] + Split(s[i + 1..], c)
  }

  /** `pieces.join(c)`. */
  function Join(pieces: seq<string>, c: char): string {
    if pieces == [] then "" else if |pieces| == 1 then pieces[0] else pieces[0] + [c] + Join(pieces[1..], c)
  }

  lemma SplitFirst(s: string, a: string, rest: string, c: char)
    requires s == a + [c] + rest && c !in a
    ensures Split(s, c) == [a] + Split(rest, c)
  {
    assert s[..|a|] == a && s[|a| + 1..] == rest;
    FindAt(s, c, |a|);
  }

  lemma {:induction false} SplitCat(s: string, a: string, b: string, c: char)
    requires s == a + [c] + b
    ensures Split(s, c) == Split(a, c) + Split(b, c)
    decreases |a|
  {
    var i := Find(a, c);
    if i == |a| {
      SplitFirst(s, a, b, c);
    } else {
      assert s[..i] == a[..i];
      FindAt(s, c, i);
      SplitCat(s[i + 1..], a[i + 1..], b, c);
      Associate([a[..i]], Split(a[i + 1..], c), Split(b, c));
    }
  }

  lemma JoinCons(a: string, rest: seq<string>, c: char)
    requires rest != []
    ensures Join([a] + rest, c) == a + [c] + Join(rest, c)
  {
    ConsTail(a, rest);
  }

  lemma {:induction false} SplitJoin(pieces: seq<string>, c: char)
    requires pieces != [] && forall k | 0 <= k < |pieces| :: c !in pieces[k]
    ensures Split(Join(pieces, c), c) == pieces
    decreases |pieces|
  {
    if |pieces| == 1 {
      assert pieces == [pieces[0]];
    } else {
      SplitJoin(pieces[1..], c);
      SplitFirst(Join(pieces, c), pieces[0], Join(pieces[1..], c), c);
      HeadTail(pieces);
    }
  }

  lemma Cut(s: string, i: nat)
    requires i < |s|
    ensures s == s[..i] + [s[i]] + s[i + 1..]
  {
  }

  lemma {:induction false} JoinSplit(s: string, c: char)
    ensures Join(Split(s, c), c) == s
    decreases |s|
  {
    var i := Find(s, c);
    if i < |s| {
      var rest := s[i + 1..];
      JoinSplit(rest, c);
      JoinCons(s[..i], Split(rest, c), c);
      Cut(s, i);
    }
  }

  // ----- White space, digits, case --------------------------------------------

  /** ECMAScript's WhiteSpace and LineTerminator characters. */
  predicate IsSpace(c: char) {
    || c in {'\t', '\n', '\U{B}', '\U{C}', '\r', ' ', '\U{A0}', '\U{1680}', '\U{2028}', '\U{2029}', '\U{202F}', '\U{205F}', '\U{3000}', '\U{FEFF}'}
    || '\U{2000}' <= c <= '\U{200A}'
  }

  function TrimStart(s: string): (t: string)
    ensures t == "" || !IsSpace(t[0])
  {
    if s != "" && IsSpace(s[0]) then TrimStart(s[1..]) else s
  }

  function TrimEnd(s: string): (t: string)
    ensures t == "" || !IsSpace(t[|t| - 1])
    ensures t <= s
  {
    if s != "" && IsSpace(s[|s| - 1]) then TrimEnd(s[..|s| - 1]) else s
  }

  /** `s.trim()`. */
  function Trim(s: string): string {
    TrimEnd(TrimStart(s))
  }

  /** Nothing for `trim` to remove. */
  predicate Trimmed(s: string) {
    s == "" || (!IsSpace(s[0]) && !IsSpace(s[|s| - 1]))
  }

  lemma TrimFixed(s: string)
    requires Trimmed(s)
    ensures Trim(s) == s
  {
  }

  predicate AllSpace(s: string) {
    forall k | 0 <= k < |s| :: IsSpace(s[k])
  }

  lemma {:induction false} TrimStartAround(before: string, s: string)
    requires AllSpace(before) && (s == "" || !IsSpace(s[0]))
    ensures TrimStart(before + s) == s
    decreases |before|
  {
    if before == "" {
      assert before + s == s;
    } else {
      assert (before + s)[1..] == before[1..] + s;
      TrimStartAround(before[1..], s);
    }
  }

  lemma {:induction false} TrimEndAround(s: string, after: string)
    requires AllSpace(after) && (s == "" || !IsSpace(s[|s| - 1]))
    ensures TrimEnd(s + after) == s
    decreases |after|
  {
    if after == "" {
      assert s + after == s;
    } else {
      assert (s + after)[..|s + after| - 1] == s + after[..|after| - 1];
      TrimEndAround(s, after[..|after| - 1]);
    }
  }

  /** White space around a text goes, and nothing else. */
  lemma TrimAround(before: string, s: string, after: string)
    requires AllSpace(before) && AllSpace(after) && Trimmed(s) && s != ""
    ensures Trim(before + s + after) == s
  {
    assert before + s + after == before + (s + after);
    TrimStartAround(before, s + after);
    TrimEndAround(s, after);
  }

  lemma TrimTrims(s: string)
    ensures Trimmed(Trim(s))
  {
    var t := TrimStart(s);
    var u := TrimEnd(t);
    assert u != "" ==> u[0] == t[0];
  }

  predicate IsDigit(c: char) {
    '0' <= c <= '9'
  }

  predicate AllDigits(s: string) {
    s != "" && forall k | 0 <= k < |s| :: IsDigit(s[k])
  }

  /** The number a run of decimal digits spells. */
  function DecimalValue(s: string): nat
    requires forall k | 0 <= k < |s| :: IsDigit(s[k])
  {
    if s == "" then 0
    else
      assert IsDigit(s[|s| - 1]);
      DecimalValue(s[..|s| - 1]) * 10 + (s[|s| - 1] as int - '0' as int)
  }

  /** `toLowerCase` on the ASCII letters. */
  function Lower(s: string): (t: string)
    ensures |t| == |s|
  {
    if s == "" then "" else [if 'A' <= s[0] <= 'Z' then s[0] + 32 as char else s[0]] + Lower(s[1..])
  }
}
