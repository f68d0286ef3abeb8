/** Suffix rules: which upstream group a query name is routed to. */
module Datasets {
  import opened Seqs
  import opened Sorting
  import opened Names

  /** A configured rule, and the same rule as the snapshot stores it. */
  datatype Rule = Rule(suffix: string, group: string)

  function Text(): Rule -> string {
    (r: Rule) => r.suffix
  }

  function CharLess(): (char, char) -> bool {
    (a: char, b: char) => a < b
  }

  /** Longer suffixes first, then alphabetical. */
  function RuleLeq(): (Rule, Rule) -> bool {
    (a: Rule, b: Rule) =>
      |a.suffix| > |b.suffix| || (|a.suffix| == |b.suffix| && LexLeq(CharLess())(a.suffix, b.suffix))
  }

  function Cleaned(r: Rule): Rule {
    Rule(Lower(TrimStart(TrimEnd(r.suffix))), r.group)
  }

  function CleanedAll(rules: seq<Rule>): (c: seq<Rule>)
    ensures |c| == |rules| && forall i :: 0 <= i < |rules| ==> c[i] == Cleaned(rules[i])
  {
    seq(|rules|, i requires 0 <= i < |rules| => Cleaned(rules[i]))
  }

  function Hit(name: string): Rule -> bool {
    (r: Rule) => DottedMatches(name, r.suffix)
  }

  /** The rule part of `build`. */
  method BuildRules(rules: seq<Rule>) returns (table: seq<Rule>)
    ensures table == Sort(CleanedAll(rules), RuleLeq())
  {
    table := [];
    for i := 0 to |rules|
      invariant table == CleanedAll(rules[..i])
    {
      table := table + [Cleaned(rules[i])];
      assert table == CleanedAll(rules[..i + 1]);
    }
    assert rules[..|rules|] == rules;
    table := Sort(table, RuleLeq());
  }

  /** `group_for`: scan the stored table for the first rule that covers the name. */
  method GroupFor(table: seq<Rule>, name: string) returns (group: Option<string>)
    ensures var r := First(Hit(Lower(TrimEnd(name))), table);
            group == if r.Some? then Some(r.value.group) else None
  {
    var n := Lower(TrimEnd(name));
    for i := 0 to |table|
      invariant First(Hit(n), table) == First(Hit(n), table[i..])
    {
      if DottedMatches(n, table[i].suffix) {
        return Some(table[i].group);
      }
      assert table[i..][1..] == table[i + 1..];
    }
    return None;
  }

  // ----- the table is sorted longest first

  lemma TextOrder(a: string, b: string, c: string)
    ensures var leq := LexLeq(CharLess());
            leq(a, a) && (leq(a, b) || leq(b, a)) && (leq(a, b) && leq(b, c) ==> leq(a, c))
  {
    assert StrictTotal(CharLess());
    LexIsTotalOrder(CharLess());
  }

  lemma RuleOrder()
    ensures LongestFirst(Text(), RuleLeq())
  {
    hide LexLeq, LexLess;
    var leq := RuleLeq();
    forall x: Rule, y: Rule
      ensures leq(x, y) || leq(y, x)
      ensures x.suffix == y.suffix ==> leq(x, y)
    {
      TextOrder(x.suffix, y.suffix, y.suffix);
    }
    forall x: Rule, y: Rule, z: Rule | leq(x, y) && leq(y, z)
      ensures leq(x, z)
    {
      TextOrder(x.suffix, y.suffix, z.suffix);
    }
  }

  lemma HitByText(name: string)
    ensures ByText(Text(), Hit(name))
  {
    forall x: Rule, y: Rule | Hit(name)(x) && Hit(name)(y) && |Text()(x)| == |Text()(y)|
      ensures Text()(x) == Text()(y)
    {
      SameLengthSameSuffix(name, x.suffix, y.suffix);
    }
  }

  // ----- meaning

  /** The text a rule is configured with: any case, with or without outer dots. */
  predicate Spells(text: string, s: Labels) {
    text == Dotted(s) || text == Absolute(s) || text == "." + Dotted(s) || text == "." + Absolute(s)
  }

  /** Outer dots come off text that neither begins nor ends with one. */
  lemma TrimOuter(d: string)
    requires d != "" && d[0] != '.' && d[|d| - 1] != '.'
    ensures TrimStart(TrimEnd(d)) == TrimStart(TrimEnd(d + ".")) == d
    ensures TrimStart(TrimEnd("." + d)) == TrimStart(TrimEnd("." + (d + "."))) == d
  {
    TrimEndIdle(d);
    TrimEndIdle("." + d);
    assert "." + (d + ".") == ("." + d) + ".";
    assert ("." + d)[1..] == d;
    assert TrimStart("." + d) == TrimStart(d) == d;
  }

  lemma TrimRoot()
    ensures TrimStart(TrimEnd("")) == TrimStart(TrimEnd(".")) == TrimStart(TrimEnd("..")) == ""
  {
    assert ".."[..1] == "." && "."[..0] == "";
    assert TrimEnd("..") == TrimEnd(".") == TrimEnd("") == "";
  }

  lemma CleanedText(text: string, s: Labels, group: string)
    requires WellFormed(s) && Spells(text, s)
    ensures Cleaned(Rule(text, group)) == Rule(Dotted(LowerAll(s)), group)
  {
    hide TrimStart, TrimEnd, LowerAll, Lower;
    LowerDotted(s);
    if s == [] {
      TrimRoot();
      assert "." + "" == "." && "." + "." == "..";
    } else {
      JoinedLong(s);
      DottedJoined(s);
      NoDoubleDot(s);
      TrimOuter(Dotted(s));
    }
  }

  ghost predicate Configured(rules: seq<Rule>, suffixes: seq<Labels>) {
    |rules| == |suffixes| && forall i :: 0 <= i < |rules| ==> WellFormed(suffixes[i]) && Spells(rules[i].suffix, suffixes[i])
  }

  function Route(rules: seq<Rule>, name: string): Option<Rule> {
    First(Hit(Lower(TrimEnd(name))), Sort(CleanedAll(rules), RuleLeq()))
  }

  lemma HitIsCovers(rule: Rule, s: Labels, n: Labels)
    requires WellFormed(s) && WellFormed(n) && Spells(rule.suffix, s)
    ensures Hit(Dotted(LowerAll(n)))(Cleaned(rule)) <==> Covers(s, n)
  {
    CleanedText(rule.suffix, s, rule.group);
    LowerWellFormed(s);
    LowerWellFormed(n);
    DottedMatchesMeaning(LowerAll(n), LowerAll(s));
  }

  /**
   Routing means what the configuration says: a name with no covering rule has no group, and
   otherwise the group is that of the covering rule with the most labels, the first one configured
   when several spell the same suffix. Names and suffixes may be in either case and spelling.
   */
  lemma RoutingIsMostSpecific(rules: seq<Rule>, suffixes: seq<Labels>, n: Labels, name: string) returns (i: nat)
    requires Configured(rules, suffixes) && WellFormed(n) && (name == Absolute(n) || name == Dotted(n))
    ensures Route(rules, name).None? <==> forall j :: 0 <= j < |rules| ==> !Covers(suffixes[j], n)
    ensures Route(rules, name).Some? ==> Decides(suffixes, n, i) && Route(rules, name).value.group == rules[i].group
  {
    var items, hit := CleanedAll(rules), Hit(Dotted(LowerAll(n)));
    TrimName(n);
    LowerDotted(n);
    RuleOrder();
    HitByText(Dotted(LowerAll(n)));
    i := FirstIsMostSpecific(items, Text(), RuleLeq(), hit);
    HitsAreCovers(rules, suffixes, n);
    if Route(rules, name).Some? {
      MostSpecificDecides(items, Text(), hit, suffixes, n, i);
    }
  }

  lemma HitsAreCovers(rules: seq<Rule>, suffixes: seq<Labels>, n: Labels)
    requires Configured(rules, suffixes) && WellFormed(n)
    ensures forall j :: 0 <= j < |rules| ==> (Hit(Dotted(LowerAll(n)))(CleanedAll(rules)[j]) <==> Covers(suffixes[j], n))
    ensures forall j :: 0 <= j < |rules| ==> CleanedAll(rules)[j].suffix == Dotted(LowerAll(suffixes[j]))
  {
    forall j | 0 <= j < |rules|
      ensures Hit(Dotted(LowerAll(n)))(CleanedAll(rules)[j]) <==> Covers(suffixes[j], n)
      ensures CleanedAll(rules)[j].suffix == Dotted(LowerAll(suffixes[j]))
    {
      HitIsCovers(rules[j], suffixes[j], n);
      CleanedText(rules[j].suffix, suffixes[j], rules[j].group);
    }
  }
}
