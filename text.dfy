/**
 * The string rewrites the extractors apply to API field names: Python's
 * `str.replace` (every non-overlapping occurrence, scanned left to right),
 * ASCII `str.title`, the category-name derivation, the chain of column-name
 * abbreviations, `str.split('/')[-1]` and `str(int)` for page numbers.
 */
module Text {

  /** `s.replace(pat, rep)` for a non-empty pattern. */
  function ReplaceAll(s: string, pat: string, rep: string): string
    requires pat != []
    decreases |s|
  {
    if |s| < |pat| then s
    else if s[..|pat|] == pat then rep + ReplaceAll(s[|pat|..], pat, rep)
    else [s[0]] + ReplaceAll(s[1..], pat, rep)
  }

  /** `pat` starts at index `i` of `s`. */
  predicate OccursAt(s: string, pat: string, i: nat) {
    i + |pat| <= |s| && s[i..i + |pat|] == pat
  }

  /** A replacement no longer than its pattern never lengthens the string. */
  lemma {:induction false} ReplaceAllShortens(s: string, pat: string, rep: string)
    requires pat != [] && |rep| <= |pat|
    ensures |ReplaceAll(s, pat, rep)| <= |s|
    decreases |s|
  {
    if |s| < |pat| {
    } else if s[..|pat|] == pat {
      ReplaceAllShortens(s[|pat|..], pat, rep);
    } else {
      ReplaceAllShortens(s[1..], pat, rep);
    }
  }

  /** A character absent from the input and from the replacement stays absent. */
  lemma {:induction false} ReplaceAllKeepsAbsent(s: string, pat: string, rep: string, c: char)
    requires pat != [] && c !in s && c !in rep
    ensures c !in ReplaceAll(s, pat, rep)
    decreases |s|
  {
    if |s| < |pat| {
    } else if s[..|pat|] == pat {
      ReplaceAllKeepsAbsent(s[|pat|..], pat, rep, c);
    } else {
      ReplaceAllKeepsAbsent(s[1..], pat, rep, c);
    }
  }

  /** Replacing a single character by text that does not contain it removes every copy of it. */
  lemma {:induction false} ReplaceAllRemovesChar(s: string, c: char, rep: string)
    requires c !in rep
    ensures c !in ReplaceAll(s, [c], rep)
    decreases |s|
  {
    if |s| < 1 {
    } else if s[..1] == [c] {
      ReplaceAllRemovesChar(s[1..], c, rep);
    } else {
      assert s[0] != c by { assert s[..1] == [s[0]]; }
      ReplaceAllRemovesChar(s[1..], c, rep);
    }
  }

  /** Replacing a pattern by itself is the identity. */
  lemma {:induction false} ReplaceAllSelf(s: string, pat: string)
    requires pat != []
    ensures ReplaceAll(s, pat, pat) == s
    decreases |s|
  {
    if |s| < |pat| {
    } else if s[..|pat|] == pat {
      ReplaceAllSelf(s[|pat|..], pat);
      assert s == pat + s[|pat|..];
    } else {
      ReplaceAllSelf(s[1..], pat);
      assert s == [s[0]] + s[1..];
    }
  }

  /** Replacing one character by another replaces each occurrence in place. */
  lemma ReplaceCharHead(s: string, a: char, b: char)
    requires s != []
    ensures ReplaceAll(s, [a], [b]) == [if s[0] == a then b else s[0]] + ReplaceAll(s[1..], [a], [b])
  {
    assert s[..1] == [s[0]];
  }

  /** Replacing a character by one the string does not hold can be undone: replacing it
      back gives the string again. */
  lemma {:induction false} ReplaceCharRoundTrip(s: string, a: char, b: char)
    requires b !in s
    ensures ReplaceAll(ReplaceAll(s, [a], [b]), [b], [a]) == s
    decreases |s|
  {
    if s != [] {
      var t := ReplaceAll(s, [a], [b]);
      ReplaceCharHead(s, a, b);
      ReplaceCharHead(t, b, a);
      assert t[1..] == ReplaceAll(s[1..], [a], [b]);
      ReplaceCharRoundTrip(s[1..], a, b);
      assert s == [s[0]] + s[1..];
    }
  }

  /** A string in which the pattern never occurs is returned unchanged. */
  lemma {:induction false} ReplaceAllWithoutOccurrence(s: string, pat: string, rep: string)
    requires pat != []
    requires forall i: nat :: !OccursAt(s, pat, i)
    ensures ReplaceAll(s, pat, rep) == s
    decreases |s|
  {
    if |s| < |pat| {
    } else {
      assert !OccursAt(s, pat, 0);
      forall i: nat ensures !OccursAt(s[1..], pat, i) {
        assert !OccursAt(s, pat, i + 1);
        if i + |pat| <= |s[1..]| {
          assert s[1..][i..i + |pat|] == s[i + 1..i + 1 + |pat|];
        }
      }
      ReplaceAllWithoutOccurrence(s[1..], pat, rep);
      assert s == [s[0]] + s[1..];
    }
  }

  /** A string without the pattern's first character holds no occurrence of it. */
  lemma {:induction false} ReplaceAllNoHead(s: string, pat: string, rep: string)
    requires pat != [] && pat[0] !in s
    ensures ReplaceAll(s, pat, rep) == s
    decreases |s|
  {
    if |s| >= |pat| {
      assert s[..|pat|][0] == s[0];
      ReplaceAllNoHead(s[1..], pat, rep);
      assert s == [s[0]] + s[1..];
    }
  }

  // ---------------------------------------------------------------------------
  // ASCII title case

  predicate IsLetter(c: char) {
    'a' <= c <= 'z' || 'A' <= c <= 'Z'
  }

  predicate IsUpper(c: char) {
    'A' <= c <= 'Z'
  }

  function ToUpper(c: char): char {
    if 'a' <= c <= 'z' then (c as int - 32) as char else c
  }

  function ToLower(c: char): char {
    if 'A' <= c <= 'Z' then (c as int + 32) as char else c
  }

  /** Title-cases `s`, where `afterLetter` says whether the character before `s` was a letter. */
  function TitleFrom(s: string, afterLetter: bool): string
    decreases |s|
  {
    if s == [] then []
    else
      var c := s[0];
      var d := if !IsLetter(c) then c else if afterLetter then ToLower(c) else ToUpper(c);
      [d] + TitleFrom(s[1..], IsLetter(c))
  }

  /** `s.title()` restricted to ASCII. */
  function Title(s: string): string {
    TitleFrom(s, false)
  }

  /** The rule `str.title` follows: a letter is upper-cased exactly when it starts the
      string or follows a non-letter, every other letter is lower-cased, and every
      non-letter is kept. */
  ghost predicate TitleCaseOf(s: string, t: string) {
    && |t| == |s|
    && (forall i :: 0 <= i < |s| && !IsLetter(s[i]) ==> t[i] == s[i])
    && (forall i :: 0 <= i < |s| && IsLetter(s[i]) && (i == 0 || !IsLetter(s[i - 1])) ==> t[i] == ToUpper(s[i]))
    && (forall i :: 0 <= i < |s| && IsLetter(s[i]) && 0 < i && IsLetter(s[i - 1]) ==> t[i] == ToLower(s[i]))
  }

  lemma {:induction false} TitleFromFollowsRule(s: string, afterLetter: bool)
    ensures var t := TitleFrom(s, afterLetter);
      && |t| == |s|
      && (forall i :: 0 <= i < |s| && !IsLetter(s[i]) ==> t[i] == s[i])
      && (forall i :: 0 < i < |s| && IsLetter(s[i]) && !IsLetter(s[i - 1]) ==> t[i] == ToUpper(s[i]))
      && (forall i :: 0 < i < |s| && IsLetter(s[i]) && IsLetter(s[i - 1]) ==> t[i] == ToLower(s[i]))
      && (|s| > 0 && IsLetter(s[0]) ==> t[0] == if afterLetter then ToLower(s[0]) else ToUpper(s[0]))
    decreases |s|
  {
    if s != [] {
      TitleFromFollowsRule(s[1..], IsLetter(s[0]));
    }
  }

  /** `Title` meets the `str.title` rule. */
  lemma TitleIsTitleCase(s: string)
    ensures TitleCaseOf(s, Title(s))
  {
    TitleFromFollowsRule(s, false);
  }

  /** Title-casing never introduces a non-letter that was not already there. */
  lemma TitleKeepsAbsent(s: string, c: char)
    requires !IsLetter(c) && c !in s
    ensures c !in Title(s)
  {
    TitleFromFollowsRule(s, false);
    var t := Title(s);
    forall i | 0 <= i < |t| ensures t[i] != c {
      if IsLetter(s[i]) {
        if i == 0 || !IsLetter(s[i - 1]) {
          assert t[i] == ToUpper(s[i]);
        } else {
          assert t[i] == ToLower(s[i]);
        }
      }
    }
  }

  /** The category name of a URL-friendly token (`'fruit-veg'` gives `'FruitVeg'`):
      hyphens become word breaks, the words are title-cased and the spaces removed. */
  function CategoryName(token: string): (r: string)
    ensures '-' !in r && ' ' !in r
    ensures |r| <= |token|
  {
    var spaced := ReplaceAll(token, "-", " ");
    var titled := Title(spaced);
    ReplaceAllRemovesChar(token, '-', " ");
    ReplaceAllShortens(token, "-", " ");
    TitleKeepsAbsent(spaced, '-');
    TitleFromFollowsRule(spaced, false);
    ReplaceAllKeepsAbsent(titled, " ", "", '-');
    ReplaceAllRemovesChar(titled, ' ', "");
    ReplaceAllShortens(titled, " ", "");
    ReplaceAll(titled, " ", "")
  }

  // ---------------------------------------------------------------------------
  // Column-name abbreviation

  /** A replace-all rule: a non-empty pattern and its replacement. */
  type Rewrite = r: (string, string) | r.0 != [] witness (".", "")

  /** The rule that replaces `pattern` by `replacement`. */
  function Rule(pattern: string, replacement: string): (r: Rewrite)
    requires pattern != []
    ensures r.0 == pattern && r.1 == replacement
  {
    (pattern, replacement)
  }

  /** The word rewrites applied, in this order, to every flattened column name once
      its '.' and '_' separators are gone. */
  const WordAbbreviations: seq<Rewrite> := [
    Rule("Attributes", "Attr"), Rule("Maximum", "Max"), Rule("Minimum", "Min"),
    Rule("ThirdPartyProductInfoThirdParty", "ThirdPartyProduct"), Rule("Additional", "Add"),
    Rule("Value", "Val"), Rule("Position", "Pos"), Rule("Option", "Opt"), Rule("Childrens", "Child"),
    Rule("Size", "Sz"), Rule("Clothing", "Cloth"), Rule("Display", "Disp"), Rule("Colour", "Col")
  ]

  /** Applies the rewrites in order, each to the output of the one before. */
  function RewriteAll(s: string, rules: seq<Rewrite>): string
    decreases |rules|
  {
    if rules == [] then s
    else RewriteAll(ReplaceAll(s, rules[0].0, rules[0].1), rules[1..])
  }

  lemma {:induction false} RewriteAllKeepsAbsent(s: string, rules: seq<Rewrite>, c: char)
    requires c !in s
    requires forall k :: 0 <= k < |rules| ==> c !in rules[k].1
    ensures c !in RewriteAll(s, rules)
    decreases |rules|
  {
    if rules != [] {
      ReplaceAllKeepsAbsent(s, rules[0].0, rules[0].1, c);
      RewriteAllKeepsAbsent(ReplaceAll(s, rules[0].0, rules[0].1), rules[1..], c);
    }
  }

  lemma {:induction false} RewriteAllShortens(s: string, rules: seq<Rewrite>)
    requires forall k :: 0 <= k < |rules| ==> |rules[k].1| <= |rules[k].0|
    ensures |RewriteAll(s, rules)| <= |s|
    decreases |rules|
  {
    if rules != [] {
      ReplaceAllShortens(s, rules[0].0, rules[0].1);
      RewriteAllShortens(ReplaceAll(s, rules[0].0, rules[0].1), rules[1..]);
    }
  }

  /** Abbreviating brings in nothing but letters: any other character absent from the
      label stays absent. */
  lemma AbbreviateKeepsAbsent(column: string, c: char)
    requires c !in column && !IsLetter(c)
    ensures c !in Abbreviate(column)
  {
    forall k | 0 <= k < |AbbreviationRules| ensures c !in AbbreviationRules[k].1 {
      assert forall i :: 0 <= i < |AbbreviationRules[k].1| ==> IsLetter(AbbreviationRules[k].1[i]);
    }
    RewriteAllKeepsAbsent(column, AbbreviationRules, c);
  }

  /** A string that no single rule changes is left unchanged by the whole chain. */
  lemma {:induction false} RewriteAllUnchanged(s: string, rules: seq<Rewrite>)
    requires forall k :: 0 <= k < |rules| ==> ReplaceAll(s, rules[k].0, rules[k].1) == s
    ensures RewriteAll(s, rules) == s
    decreases |rules|
  {
    if rules != [] {
      assert forall k :: 0 <= k < |rules[1..]| ==> rules[1..][k] == rules[k + 1];
      RewriteAllUnchanged(s, rules[1..]);
    }
  }

  /** Every word rewrite has a shorter replacement with no separator in it. */
  lemma WordAbbreviationsShorten()
    ensures forall k :: 0 <= k < |WordAbbreviations| ==> |WordAbbreviations[k].1| <= |WordAbbreviations[k].0|
    ensures forall k :: 0 <= k < |WordAbbreviations| ==> '.' !in WordAbbreviations[k].1 && '_' !in WordAbbreviations[k].1
  {
  }

  /** All rewrites of the truncation chain: the '.' and '_' separators go first. */
  const AbbreviationRules: seq<Rewrite> := [Rule(".", ""), Rule("_", "")] + WordAbbreviations

  /** The truncated column name: the '.' and '_' separators removed, then the word
      rewrites applied in order. */
  function Abbreviate(column: string): string {
    RewriteAll(column, AbbreviationRules)
  }

  /** A truncated column name holds no '.' and no '_', and since every replacement is
      shorter than its pattern it is never longer than the original. */
  lemma AbbreviateIsClean(column: string)
    ensures '.' !in Abbreviate(column) && '_' !in Abbreviate(column)
    ensures |Abbreviate(column)| <= |column|
  {
    WordAbbreviationsShorten();
    SeparatorsThenWords(column, WordAbbreviations);
  }

  /** Dropping '.' and '_' and then applying shortening word rules that bring in no
      separator leaves a separator-free string no longer than the input. */
  lemma SeparatorsThenWords(column: string, words: seq<Rewrite>)
    requires forall k :: 0 <= k < |words| ==> |words[k].1| <= |words[k].0|
    requires forall k :: 0 <= k < |words| ==> '.' !in words[k].1 && '_' !in words[k].1
    ensures var r := RewriteAll(column, [Rule(".", ""), Rule("_", "")] + words);
      '.' !in r && '_' !in r && |r| <= |column|
  {
    var rules := [Rule(".", ""), Rule("_", "")] + words;
    var noDots := ReplaceAll(column, ".", "");
    var noSeparators := ReplaceAll(noDots, "_", "");
    assert rules[1..][1..] == words;
    assert RewriteAll(column, rules) == RewriteAll(noSeparators, words);
    ReplaceAllRemovesChar(column, '.', "");
    ReplaceAllShortens(column, ".", "");
    ReplaceAllKeepsAbsent(noDots, "_", "", '.');
    ReplaceAllRemovesChar(noDots, '_', "");
    ReplaceAllShortens(noDots, "_", "");
    RewriteAllKeepsAbsent(noSeparators, words, '.');
    RewriteAllKeepsAbsent(noSeparators, words, '_');
    RewriteAllShortens(noSeparators, words);
  }

  // ---------------------------------------------------------------------------
  // Path segments and decimal numerals

  /** `s.split('/')[-1]`: the longest suffix of `s` without a '/'. */
  function LastSegment(s: string): (r: string)
    ensures '/' !in r
    ensures |r| <= |s| && r == s[|s| - |r|..]
    ensures |r| < |s| ==> s[|s| - |r| - 1] == '/'
    decreases |s|
  {
    if s == [] then []
    else if s[|s| - 1] == '/' then []
    else
      var front := s[..|s| - 1];
      var q := LastSegment(front);
      assert s[|s| - |q| - 1..] == front[|front| - |q|..] + [s[|s| - 1]];
      q + [s[|s| - 1]]
  }

  /** Behind a prefix that ends in '/', a segment without '/' is the whole last segment. */
  lemma LastSegmentAfterSlash(prefix: string, s: string)
    requires prefix != [] && prefix[|prefix| - 1] == '/' && '/' !in s
    ensures LastSegment(prefix + s) == s
  {
    var whole := prefix + s;
    var r := LastSegment(whole);
    assert forall i :: 0 <= i < |r| ==> r[i] == whole[|whole| - |r| + i];
    assert whole[|prefix| - 1] == '/';
    assert forall i :: |prefix| <= i < |whole| ==> whole[i] == s[i - |prefix|];
    assert r == whole[|prefix|..];
  }

  function DigitChar(d: nat): char
    requires d < 10
  {
    ('0' as int + d) as char
  }

  function DigitValue(c: char): int {
    c as int - '0' as int
  }

  predicate IsDigit(c: char) {
    '0' <= c <= '9'
  }

  /** `str(n)` for a natural number. */
  function Decimal(n: nat): string
    decreases n
  {
    if n < 10 then [DigitChar(n)] else Decimal(n / 10) + [DigitChar(n % 10)]
  }

  /** Reads a string of decimal digits back as a number. */
  function ParseDecimal(s: string): int
    decreases |s|
  {
    if s == [] then 0 else ParseDecimal(s[..|s| - 1]) * 10 + DigitValue(s[|s| - 1])
  }

  /** `str(n)` is a non-empty string of digits that reads back as `n`. */
  lemma {:induction false} DecimalRoundTrip(n: nat)
    ensures Decimal(n) != []
    ensures forall c :: c in Decimal(n) ==> IsDigit(c)
    ensures ParseDecimal(Decimal(n)) == n
    decreases n
  {
    if n >= 10 {
      DecimalRoundTrip(n / 10);
      var s := Decimal(n);
      assert s[..|s| - 1] == Decimal(n / 10);
    }
  }
}
