/**
 * Sorting the added release-note lines into sections (index.js lines 176-214):
 * a line that starts with one of the `section_types` prefixes goes, unchanged,
 * to that prefix's section; any other line is trimmed and, unless it is
 * wrapped in asterisks or mentions a year 2020-2029, goes to GENERAL.
 */
module Sections {
  import opened Text
  import opened Wrappers

  datatype Category = General | Spells | Perks | BugFixes | Modding

  /** The section's heading text. */
  function Name(c: Category): string {
    match c
    case General => "GENERAL"
    case Spells => "SPELLS"
    case Perks => "PERKS"
    case BugFixes => "BUG FIXES"
    case Modding => "MODDING"
  }

  /** The key order of `sections`, which is also the order the sections are printed in. */
  const Order: seq<Category> := [General, Spells, Perks, BugFixes, Modding]

  datatype Rule = Rule(prefix: string, category: Category)

  /** `section_types`, in its key order. */
  const SectionTypes: seq<Rule> := [
    Rule("FEATURE: Spell", Spells),
    Rule("FEATURE: New perk", Perks),
    Rule("FEATURE: Perk", Perks),
    Rule("BUGFIX:", BugFixes),
    Rule("MODDING:", Modding)
  ]

  /** The `sections` object: one list of lines per category. */
  datatype Buckets = Buckets(general: seq<string>, spells: seq<string>, perks: seq<string>,
                               bugFixes: seq<string>, modding: seq<string>)
  {
    /** `sections[Name(c)]` */
    function Get(c: Category): seq<string> {
      match c
      case General => general
      case Spells => spells
      case Perks => perks
      case BugFixes => bugFixes
      case Modding => modding
    }

    /** `sections[Name(c)].push(line)`: appends to section `c` and leaves the others alone. */
    function Push(c: Category, line: string): (s: Buckets)
      ensures s.Get(c) == Get(c) + [line]
      ensures forall d :: d != c ==> s.Get(d) == Get(d)
    {
      match c
      case General => this.(general := general + [line])
      case Spells => this.(spells := spells + [line])
      case Perks => this.(perks := perks + [line])
      case BugFixes => this.(bugFixes := bugFixes + [line])
      case Modding => this.(modding := modding + [line])
    }
  }

  const NoSections: Buckets := Buckets([], [], [], [], [])

  /** Every line of every section has no line feed. */
  predicate SingleLines(sections: Buckets) {
    forall c :: NoLineFeeds(sections.Get(c))
  }

  // ---------------------------------------------------------------------------
  // The classification, line by line

  /** Whether one of `rules` is a prefix of `line` (the `section_found` flag). */
  predicate AnyRule(line: string, rules: seq<Rule>) {
    rules != [] && (AnyRule(line, rules[..|rules| - 1]) || StartsWith(line, rules[|rules| - 1].prefix))
  }

  /** The copies of `line` the loop over `rules` pushes to section `c`: one per matching rule of `c`. */
  function Placed(line: string, rules: seq<Rule>, c: Category): seq<string> {
    if rules == [] then []
    else
      var r := rules[|rules| - 1];
      Placed(line, rules[..|rules| - 1], c) + (if StartsWith(line, r.prefix) && r.category == c then [line] else [])
  }

  /** `line.startsWith("*") && line.endsWith("*")`; true of the one-character line "*". */
  predicate IsStarWrapped(t: string) {
    StartsWith(t, "*") && EndsWith(t, "*")
  }

  predicate YearAt(t: string, i: nat)
    requires i + 4 <= |t|
  {
    t[i..i + 3] == "202" && '0' <= t[i + 3] <= '9'
  }

  /** `line.match(/202[0-9]/)`: "202" followed by a decimal digit, anywhere. */
  predicate HasYear202x(t: string) {
    exists i: nat | i + 4 <= |t| :: YearAt(t, i)
  }

  /** A trimmed unprefixed line that is dropped instead of going to GENERAL. */
  predicate IsNoise(t: string) {
    IsStarWrapped(t) || HasYear202x(t)
  }

  /** What processing `line` appends to section `c`. */
  function Contribution(line: string, c: Category): seq<string> {
    if AnyRule(line, SectionTypes) then Placed(line, SectionTypes, c)
    else if c == General && !IsNoise(Trim(line)) then [Trim(line)]
    else []
  }

  /** Section `c` after classifying `lines` in order. */
  function Bucket(lines: seq<string>, c: Category): seq<string> {
    if lines == [] then []
    else Bucket(lines[..|lines| - 1], c) + Contribution(lines[|lines| - 1], c)
  }

  /**
   * The inner loop over the section types: pushes `line` onto the section of
   * every rule whose prefix it starts with, and reports whether any did.
   */
  method PlaceByPrefix(line: string, rules: seq<Rule>, before: Buckets) returns (sections: Buckets, sectionFound: bool)
    ensures sectionFound == AnyRule(line, rules)
    ensures forall c :: sections.Get(c) == before.Get(c) + Placed(line, rules, c)
  {
    sections := before;
    sectionFound := false;
    for k := 0 to |rules|
      invariant sectionFound == AnyRule(line, rules[..k])
      invariant forall c :: sections.Get(c) == before.Get(c) + Placed(line, rules[..k], c)
    {
      var rule := rules[k];
      RuleStep(line, rules, k);
      PushStep(sections, before, line, rules, k);
      if StartsWith(line, rule.prefix) {
        sections := sections.Push(rule.category, line);
        sectionFound := true;
      }
    }
    assert rules[..|rules|] == rules;
  }

  /**
   * The branch for a line that matched no prefix: the trimmed line goes to
   * GENERAL, except that a line wrapped in asterisks or mentioning a year
   * 202x is skipped (the two `continue`s).
   */
  method PlaceUnprefixed(line: string, before: Buckets) returns (sections: Buckets)
    requires !AnyRule(line, SectionTypes)
    ensures forall c :: sections.Get(c) == before.Get(c) + Contribution(line, c)
  {
    UnprefixedStep(line);
    var trimmed := Trim(line);
    if IsStarWrapped(trimmed) {
      return before;
    }
    if HasYear202x(trimmed) {
      return before;
    }
    sections := before.Push(General, trimmed);
  }

  /**
   * Sorts the added lines into sections: a line with a known prefix goes,
   * untouched, to that prefix's section; any other line is trimmed and goes
   * to GENERAL unless it is wrapped in asterisks or mentions a year 202x.
   */
  method Classify(differences: seq<string>) returns (sections: Buckets)
    ensures forall c :: sections.Get(c) == Bucket(differences, c)
  {
    sections := NoSections;
    for i := 0 to |differences|
      invariant forall c :: sections.Get(c) == Bucket(differences[..i], c)
    {
      var before := sections;
      sections := PlaceLine(differences[i], sections);
      ClassifyStep(differences, i, before, sections);
    }
    assert differences[..|differences|] == differences;
  }

  /** One iteration of the loop over the added lines: `line` adds its contribution to each section. */
  method PlaceLine(line: string, before: Buckets) returns (sections: Buckets)
    ensures forall c :: sections.Get(c) == before.Get(c) + Contribution(line, c)
  {
    var sectionFound;
    sections, sectionFound := PlaceByPrefix(line, SectionTypes, before);
    if !sectionFound {
      UnprefixedStep(line);
      sections := PlaceUnprefixed(line, sections);
    }
  }

  lemma ClassifyStep(lines: seq<string>, i: nat, before: Buckets, after: Buckets)
    requires i < |lines|
    requires forall c :: before.Get(c) == Bucket(lines[..i], c)
    requires forall c :: after.Get(c) == before.Get(c) + Contribution(lines[i], c)
    ensures forall c :: after.Get(c) == Bucket(lines[..i + 1], c)
  {
    BucketStep(lines, i);
  }

  lemma UnprefixedStep(line: string)
    requires !AnyRule(line, SectionTypes)
    ensures forall c :: Placed(line, SectionTypes, c) == []
    ensures forall c :: c != General ==> Contribution(line, c) == []
    ensures Contribution(line, General) == if IsNoise(Trim(line)) then [] else [Trim(line)]
  {
    PlacedNothing(line, SectionTypes);
  }

  lemma BucketStep(lines: seq<string>, i: nat)
    requires i < |lines|
    ensures forall c :: Bucket(lines[..i + 1], c) == Bucket(lines[..i], c) + Contribution(lines[i], c)
  {
    assert lines[..i + 1][..i] == lines[..i];
  }

  /** One rule of the inner loop: pushing the line when the rule matches extends `Placed` by that rule. */
  lemma PushStep(s: Buckets, before: Buckets, line: string, rules: seq<Rule>, k: nat)
    requires k < |rules|
    requires forall c :: s.Get(c) == before.Get(c) + Placed(line, rules[..k], c)
    ensures var next := if StartsWith(line, rules[k].prefix) then s.Push(rules[k].category, line) else s;
            forall c :: next.Get(c) == before.Get(c) + Placed(line, rules[..k + 1], c)
  {
    RuleStep(line, rules, k);
    var r := rules[k];
    var next := if StartsWith(line, r.prefix) then s.Push(r.category, line) else s;
    forall c ensures next.Get(c) == before.Get(c) + Placed(line, rules[..k + 1], c) {
      var placed := Placed(line, rules[..k], c);
      var added := if StartsWith(line, r.prefix) && r.category == c then [line] else [];
      assert next.Get(c) == s.Get(c) + added;
      assert (before.Get(c) + placed) + added == before.Get(c) + (placed + added);
    }
  }

  lemma RuleStep(line: string, rules: seq<Rule>, k: nat)
    requires k < |rules|
    ensures AnyRule(line, rules[..k + 1]) == (AnyRule(line, rules[..k]) || StartsWith(line, rules[k].prefix))
    ensures forall c :: Placed(line, rules[..k + 1], c)
                      == Placed(line, rules[..k], c) + (if StartsWith(line, rules[k].prefix) && rules[k].category == c then [line] else [])
  {
    assert rules[..k + 1][..k] == rules[..k];
  }

  lemma {:induction false} PlacedNothing(line: string, rules: seq<Rule>)
    requires !AnyRule(line, rules)
    ensures forall c :: Placed(line, rules, c) == []
    decreases |rules|
  {
    if rules != [] {
      PlacedNothing(line, rules[..|rules| - 1]);
    }
  }

  /** The sections `Classify` fills, as a value. */
  function Sorted(lines: seq<string>): (s: Buckets)
    ensures forall c :: s.Get(c) == Bucket(lines, c)
  {
    Buckets(Bucket(lines, General), Bucket(lines, Spells), Bucket(lines, Perks),
             Bucket(lines, BugFixes), Bucket(lines, Modding))
  }

  /** Two `sections` objects with the same lists are the same. */
  lemma SameSections(a: Buckets, b: Buckets)
    requires forall c :: a.Get(c) == b.Get(c)
    ensures a == b
  {
    assert a.Get(General) == b.Get(General) && a.Get(Spells) == b.Get(Spells) && a.Get(Perks) == b.Get(Perks);
    assert a.Get(BugFixes) == b.Get(BugFixes) && a.Get(Modding) == b.Get(Modding);
  }

  /** Lines without line feeds stay without line feeds: sorting only copies or trims them. */
  lemma {:induction false} SortedSingleLines(lines: seq<string>)
    requires NoLineFeeds(lines)
    ensures SingleLines(Sorted(lines))
  {
    forall c ensures NoLineFeeds(Bucket(lines, c)) {
      BucketSingleLines(lines, c);
    }
  }

  lemma {:induction false} BucketSingleLines(lines: seq<string>, c: Category)
    requires NoLineFeeds(lines)
    ensures NoLineFeeds(Bucket(lines, c))
    decreases |lines|
  {
    if lines != [] {
      var line := lines[|lines| - 1];
      assert '\n' !in line;
      BucketSingleLines(lines[..|lines| - 1], c);
      PlacedCopies(line, SectionTypes, c);
      var t := Trim(line);
      TrimShape(line);
      assert '\n' !in t by {
        var lead := LeadingSpace(line);
        assert forall k :: 0 <= k < |t| ==> t[k] == line[lead + k];
      }
    }
  }

  lemma {:induction false} PlacedCopies(line: string, rules: seq<Rule>, c: Category)
    ensures forall k :: 0 <= k < |Placed(line, rules, c)| ==> Placed(line, rules, c)[k] == line
    decreases |rules|
  {
    if rules != [] {
      PlacedCopies(line, rules[..|rules| - 1], c);
    }
  }

  // ---------------------------------------------------------------------------
  // At most one prefix matches, so "every matching prefix" is "the first one"

  /** The category of the first rule whose prefix starts `line`. */
  function FirstRule(line: string, rules: seq<Rule>): Option<Category> {
    if rules == [] then None
    else if StartsWith(line, rules[0].prefix) then Some(rules[0].category)
    else FirstRule(line, rules[1..])
  }

  lemma PrefixAt(line: string, p: string, k: nat)
    requires StartsWith(line, p) && k < |p|
    ensures line[k] == p[k]
  {
    assert line[..|p|][k] == line[k];
  }

  /** No line starts with two of the five prefixes: they differ at index 0 or index 9. */
  lemma RulesExclusive(line: string)
    ensures forall i, j :: 0 <= i < j < |SectionTypes| ==>
      !(StartsWith(line, SectionTypes[i].prefix) && StartsWith(line, SectionTypes[j].prefix))
  {
    forall i, j | 0 <= i < j < |SectionTypes|
      ensures !(StartsWith(line, SectionTypes[i].prefix) && StartsWith(line, SectionTypes[j].prefix))
    {
      var p, q := SectionTypes[i].prefix, SectionTypes[j].prefix;
      if StartsWith(line, p) && StartsWith(line, q) {
        if j <= 2 {
          PrefixAt(line, p, 9);
          PrefixAt(line, q, 9);
        } else {
          PrefixAt(line, p, 0);
          PrefixAt(line, q, 0);
        }
      }
    }
  }

  lemma {:induction false} FirstRuleAppend(line: string, rules: seq<Rule>, r: Rule)
    ensures FirstRule(line, rules + [r]) ==
      if FirstRule(line, rules).Some? then FirstRule(line, rules)
      else if StartsWith(line, r.prefix) then Some(r.category) else None
    decreases |rules|
  {
    if rules == [] {
      assert rules + [r] == [r];
    } else {
      assert (rules + [r])[1..] == rules[1..] + [r];
      FirstRuleAppend(line, rules[1..], r);
    }
  }

  lemma {:induction false} FirstRuleSome(line: string, rules: seq<Rule>)
    ensures FirstRule(line, rules).Some? <==> AnyRule(line, rules)
    decreases |rules|
  {
    if rules != [] {
      var init := rules[..|rules| - 1];
      FirstRuleSome(line, init);
      FirstRuleAppend(line, init, rules[|rules| - 1]);
      assert init + [rules[|rules| - 1]] == rules;
    }
  }

  lemma {:induction false} PlacedIsFirstRule(line: string, rules: seq<Rule>, c: Category)
    requires forall i, j :: 0 <= i < j < |rules| ==>
      !(StartsWith(line, rules[i].prefix) && StartsWith(line, rules[j].prefix))
    ensures Placed(line, rules, c) == if FirstRule(line, rules) == Some(c) then [line] else []
    decreases |rules|
  {
    if rules != [] {
      var init, r := rules[..|rules| - 1], rules[|rules| - 1];
      forall i, j | 0 <= i < j < |init|
        ensures !(StartsWith(line, init[i].prefix) && StartsWith(line, init[j].prefix))
      {
        assert init[i] == rules[i] && init[j] == rules[j];
      }
      PlacedIsFirstRule(line, init, c);
      FirstRuleAppend(line, init, r);
      assert init + [r] == rules;
      if FirstRule(line, init).Some? {
        FirstRuleFound(line, init);
        var k :| 0 <= k < |init| && StartsWith(line, init[k].prefix);
        assert rules[k] == init[k];
        assert !StartsWith(line, r.prefix);
      }
    }
  }

  lemma {:induction false} FirstRuleFound(line: string, rules: seq<Rule>)
    requires FirstRule(line, rules).Some?
    ensures exists k :: 0 <= k < |rules| && StartsWith(line, rules[k].prefix)
    decreases |rules|
  {
    if !StartsWith(line, rules[0].prefix) {
      FirstRuleFound(line, rules[1..]);
      var k :| 0 <= k < |rules[1..]| && StartsWith(line, rules[1..][k].prefix);
      assert rules[k + 1] == rules[1..][k];
    }
  }

  /**
   * With these five prefixes, pushing a line once per matching prefix is the
   * same as pushing it to the section of the first matching prefix: a
   * prefixed line lands in exactly one section, unchanged, and never in
   * GENERAL; any other line contributes at most its trimmed text to GENERAL.
   */
  lemma LineContribution(line: string, c: Category)
    ensures FirstRule(line, SectionTypes).Some? ==>
      Contribution(line, c) == if FirstRule(line, SectionTypes) == Some(c) then [line] else []
    ensures FirstRule(line, SectionTypes).None? ==>
      Contribution(line, c) == if c == General && !IsNoise(Trim(line)) then [Trim(line)] else []
    ensures FirstRule(line, SectionTypes) != Some(General)
  {
    RulesExclusive(line);
    PlacedIsFirstRule(line, SectionTypes, c);
    FirstRuleSome(line, SectionTypes);
    assert FirstRule(line, SectionTypes) != Some(General) by {
      assert forall r :: r in SectionTypes ==> r.category != General;
      FirstRuleCategory(line, SectionTypes);
    }
  }

  lemma {:induction false} FirstRuleCategory(line: string, rules: seq<Rule>)
    requires forall r :: r in rules ==> r.category != General
    ensures FirstRule(line, rules) != Some(General)
    decreases |rules|
  {
    if rules != [] {
      assert rules[0] in rules;
      if !StartsWith(line, rules[0].prefix) {
        assert forall r :: r in rules[1..] ==> r in rules;
        FirstRuleCategory(line, rules[1..]);
      }
    }
  }

  /**
   * A prefixed section holds exactly the added lines whose prefix belongs to
   * it, verbatim (no trimming).
   */
  lemma {:induction false} PrefixedSectionMembers(lines: seq<string>, c: Category, x: string)
    requires c != General
    ensures x in Bucket(lines, c) <==> x in lines && FirstRule(x, SectionTypes) == Some(c)
    decreases |lines|
  {
    if lines != [] {
      var init, last := lines[..|lines| - 1], lines[|lines| - 1];
      PrefixedSectionMembers(init, c, x);
      LineContribution(last, c);
      assert lines == init + [last];
      assert x in lines <==> x in init || x == last;
    }
  }

  /** Line `k` of `lines` matches no prefix and its trimmed text `x` survives the filters. */
  predicate GeneralFrom(lines: seq<string>, k: int, x: string) {
    0 <= k < |lines| && FirstRule(lines[k], SectionTypes).None? && Trim(lines[k]) == x && !IsNoise(x)
  }

  /**
   * GENERAL holds exactly the trimmed text of the added lines that match no
   * prefix, leaving out those whose trimmed text is asterisk-wrapped or
   * contains a year 202x.
   */
  lemma {:induction false} GeneralSectionMembers(lines: seq<string>, x: string)
    ensures x in Bucket(lines, General) <==> exists k :: GeneralFrom(lines, k, x)
    decreases |lines|
  {
    if lines != [] {
      var init, last := lines[..|lines| - 1], lines[|lines| - 1];
      GeneralSectionMembers(init, x);
      GeneralFromLast(lines, init, x);
      GeneralContribution(last, x);
      assert Bucket(lines, General) == Bucket(init, General) + Contribution(last, General);
    }
  }

  /** A witness for a non-empty list is a witness for all but its last line, or is its last line. */
  lemma GeneralFromLast(lines: seq<string>, init: seq<string>, x: string)
    requires lines != [] && init == lines[..|lines| - 1]
    ensures (exists k :: GeneralFrom(lines, k, x))
        <==> (exists k :: GeneralFrom(init, k, x)) || GeneralFrom(lines, |lines| - 1, x)
  {
    if exists k :: GeneralFrom(lines, k, x) {
      var k :| GeneralFrom(lines, k, x);
      if k < |init| {
        assert GeneralFrom(init, k, x);
      }
    }
    if exists k :: GeneralFrom(init, k, x) {
      var k :| GeneralFrom(init, k, x);
      assert GeneralFrom(lines, k, x);
    }
  }

  /** What one line adds to GENERAL: its trimmed text, if it matches no prefix and is not noise. */
  lemma GeneralContribution(line: string, x: string)
    ensures x in Contribution(line, General)
        <==> FirstRule(line, SectionTypes).None? && Trim(line) == x && !IsNoise(x)
  {
    LineContribution(line, General);
  }

  /** A line with the new-perk prefix goes to PERKS only, unchanged. */
  lemma PerkLine(line: string)
    requires StartsWith(line, "FEATURE: New perk")
    ensures Contribution(line, Perks) == [line]
    ensures forall c :: c != Perks ==> Contribution(line, c) == []
  {
    assert !StartsWith(line, SectionTypes[0].prefix) by {
      PrefixAt(line, "FEATURE: New perk", 9);
      if StartsWith(line, SectionTypes[0].prefix) { PrefixAt(line, SectionTypes[0].prefix, 9); }
    }
    assert FirstRule(line, SectionTypes) == Some(Perks) by {
      assert FirstRule(line, SectionTypes) == FirstRule(line, SectionTypes[1..]);
    }
    forall c ensures Contribution(line, c) == if c == Perks then [line] else [] {
      LineContribution(line, c);
    }
  }

  /**
   * A line that starts with none of the prefixes' first letters, has no
   * surrounding white space and is not noise goes to GENERAL only, unchanged.
   */
  lemma PlainLine(line: string)
    requires line != [] && line[0] !in "FBM"
    requires Trim(line) == line && !IsNoise(line)
    ensures Contribution(line, General) == [line]
    ensures forall c :: c != General ==> Contribution(line, c) == []
  {
    forall r | r in SectionTypes ensures !StartsWith(line, r.prefix) {
      if StartsWith(line, r.prefix) {
        PrefixAt(line, r.prefix, 0);
      }
    }
    NoRuleMatches(line, SectionTypes);
    UnprefixedStep(line);
  }

  /** An empty or white-space-only line is not noise: it reaches GENERAL as the empty line. */
  lemma BlankLine(line: string)
    requires forall k :: 0 <= k < |line| ==> IsJsWhitespace(line[k])
    ensures Contribution(line, General) == [""]
    ensures forall c :: c != General ==> Contribution(line, c) == []
  {
    forall r | r in SectionTypes ensures !StartsWith(line, r.prefix) {
      if StartsWith(line, r.prefix) {
        PrefixAt(line, r.prefix, 0);
      }
    }
    NoRuleMatches(line, SectionTypes);
    UnprefixedStep(line);
    TrimShape(line);
    TrimEnds(line);
    assert Trim(line) == [];
  }

  lemma {:induction false} NoRuleMatches(line: string, rules: seq<Rule>)
    requires forall r | r in rules :: !StartsWith(line, r.prefix)
    ensures !AnyRule(line, rules)
    decreases |rules|
  {
    if rules != [] {
      assert rules[|rules| - 1] in rules;
      NoRuleMatches(line, rules[..|rules| - 1]);
    }
  }

  /** Asterisk-wrapped lines, including the single "*", and lines naming a year 202x are dropped. */
  lemma ExampleNoiseLines()
    ensures IsNoise(Trim("*2023 changelog*")) && IsNoise(Trim("*")) && IsNoise(Trim("Released 2024"))
  {
    assert Trim("*2023 changelog*") == "*2023 changelog*";
    assert Trim("*") == "*";
    assert Trim("Released 2024") == "Released 2024";
    assert YearAt("Released 2024", 9);
  }

  /** Prefixes are matched before trimming: an indented prefix line is trimmed and goes to GENERAL. */
  lemma ExampleIndentedPrefix()
    ensures FirstRule(" BUGFIX: x", SectionTypes) == None
    ensures Trim(" BUGFIX: x") == "BUGFIX: x"
    ensures Contribution(" BUGFIX: x", General) == ["BUGFIX: x"]
    ensures forall c :: c != General ==> Contribution(" BUGFIX: x", c) == []
  {
    var line := " BUGFIX: x";
    forall r | r in SectionTypes ensures !StartsWith(line, r.prefix) {
      if StartsWith(line, r.prefix) { PrefixAt(line, r.prefix, 0); }
    }
    NoRuleMatches(line, SectionTypes);
    FirstRuleSome(line, SectionTypes);
    assert TrimStart(line) == "BUGFIX: x";
    var t := "BUGFIX: x";
    assert Trim(line) == t;
    forall i: nat | i + 4 <= |t| ensures !YearAt(t, i) {
      assert t[i] != '2';
    }
    assert !IsStarWrapped(t) by { assert t[0] != '*'; }
    UnprefixedStep(line);
  }
}
