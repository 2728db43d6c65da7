/** What a company's name becomes: its words, with a dash between each two
    (cli/src/flySetup.ts). */
module CompanyNames {
  import opened Wrappers
  import opened Strings
  import opened FlyInstall

  predicate IsWord(s: string) {
    s != "" && forall k | 0 <= k < |s| :: IsSlugChar(s[k])
  }

  predicate IsGap(s: string) {
    forall k | 0 <= k < |s| :: !IsSlugChar(s[k])
  }

  /** Words with gaps behind them; only the last gap may be empty. */
  predicate IsSpaced(words: seq<string>, gaps: seq<string>) {
    && |words| == |gaps| && words != []
    && (forall k | 0 <= k < |words| :: IsWord(words[k]) && IsGap(gaps[k]))
    && (forall k | 0 <= k < |words| - 1 :: gaps[k] != "")
  }

  function Spaced(words: seq<string>, gaps: seq<string>): string
    requires |words| == |gaps|
  {
    if words == [] then "" else words[0] + (gaps[0] + Spaced(words[1..], gaps[1..]))
  }

  lemma {:induction false} DashedGap(gap: string, rest: string, inRun: bool)
    requires IsGap(gap)
    ensures Dashed(gap + rest, inRun) == (if gap == "" || inRun then "" else "-") + Dashed(rest, inRun || gap != "")
    decreases |gap|
  {
    if gap == "" {
      assert gap + rest == rest;
    } else {
      assert (gap + rest)[0] == gap[0] && (gap + rest)[1..] == gap[1..] + rest;
      DashedGap(gap[1..], rest, true);
    }
  }

  lemma {:induction false} DashedWord(word: string, rest: string, inRun: bool)
    requires IsWord(word)
    ensures Dashed(word + rest, inRun) == word + Dashed(rest, false)
    decreases |word|
  {
    assert (word + rest)[0] == word[0] && (word + rest)[1..] == word[1..] + rest;
    assert word == [word[0]] + word[1..];
    if |word| > 1 {
      DashedWord(word[1..], rest, false);
    } else {
      assert word[1..] + rest == rest;
    }
  }

  lemma {:induction false} DashedSpaced(words: seq<string>, gaps: seq<string>, inRun: bool)
    requires IsSpaced(words, gaps)
    ensures Dashed(Spaced(words, gaps), inRun) == Join(words, '-') + (if gaps[|gaps| - 1] == "" then "" else "-")
    decreases |words|
  {
    hide Dashed, IsWord, IsGap;
    var rest := Spaced(words[1..], gaps[1..]);
    DashedWord(words[0], gaps[0] + rest, inRun);
    DashedGap(gaps[0], rest, false);
    if |words| == 1 {
      DashedNothing();
      assert Dashed(rest, gaps[0] != "") == "";
    } else {
      DashedSpaced(words[1..], gaps[1..], true);
    }
  }

  lemma DashedNothing()
    ensures Dashed("", true) == "" && Dashed("", false) == ""
  {
  }

  lemma {:induction false} JoinEnds(words: seq<string>)
    requires words != [] && forall k | 0 <= k < |words| :: IsWord(words[k])
    ensures var s := Join(words, '-'); s != "" && words[0] != "" && s[0] == words[0][0] && IsSlugChar(s[0]) && IsSlugChar(s[|s| - 1])
    decreases |words|
  {
    if |words| > 1 {
      JoinEnds(words[1..]);
    }
  }

  lemma DashesGo(dashes: string, s: string, last: string)
    requires dashes in {"", "-"} && last in {"", "-"} && s != "" && s[0] != '-' && s[|s| - 1] != '-'
    ensures WithoutLastDashes(WithoutFirstDashes(dashes + s + last)) == s
  {
    var text := s + last;
    assert dashes + s + last == dashes + text && text[0] == s[0];
    assert WithoutFirstDashes(text) == text;
    if dashes == "-" {
      assert (dashes + text)[1..] == text;
    } else {
      assert dashes + text == text;
    }
    assert WithoutLastDashes(s) == s;
    if last == "-" {
      assert text[..|text| - 1] == s && text[|text| - 1] == '-';
    } else {
      assert text == s;
    }
  }

  /** `Acme Corp` becomes `acme-corp-patch`: whatever stands before, between and behind the
      words, in whatever case; and a name ending in the word `patch` gets no second one. */
  lemma StemIsItsWords(company: string, lower: LowerCase, lead: string, words: seq<string>, gaps: seq<string>)
    requires IsGap(lead) && IsSpaced(words, gaps) && lower(Trim(company)) == lead + Spaced(words, gaps)
    ensures Slug(company, lower) == Join(words, '-')
    ensures CompanyStem(company, lower) ==
      var slug := Join(words, '-');
      var stem := if EndsWith(slug, "-patch") then slug else slug + "-patch";
      if !IsLetter(words[0][0]) || |stem| > 54 then None else Some(stem)
  {
    hide Dashed, WithoutFirstDashes, WithoutLastDashes, IsGap, IsWord, IsStem;
    DashedGap(lead, Spaced(words, gaps), false);
    DashedSpaced(words, gaps, lead != "");
    JoinEnds(words);
    DashesAround(lead, words, gaps);
    RefusedExactlyWhen(company, lower);
  }

  lemma DashesAround(lead: string, words: seq<string>, gaps: seq<string>)
    requires IsSpaced(words, gaps)
    ensures WithoutLastDashes(WithoutFirstDashes(
      (if lead == "" then "" else "-") + (Join(words, '-') + (if gaps[|gaps| - 1] == "" then "" else "-")))) == Join(words, '-')
  {
    JoinEnds(words);
    var first, s, last := (if lead == "" then "" else "-"), Join(words, '-'), (if gaps[|gaps| - 1] == "" then "" else "-");
    assert first + (s + last) == first + s + last;
    DashesGo(first, s, last);
  }
}
