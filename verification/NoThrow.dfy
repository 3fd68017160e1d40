/** Read expansion does not throw when every path has exactly three levels and every
    database carries the configured schema. */
module NoThrow {
  import opened Wrappers
  import opened Keys
  import opened Rules
  import opened WriteExpansion
  import opened Stores
  import opened ReadExpansion

  /** All paths below a rule end at the datum level. */
  predicate Even(rule: Rule, depth: nat)
    requires depth <= 2
    decreases 2 - depth
  {
    (rule.rules == [] <==> depth == 2) && (depth < 2 ==> forall r :: r in rule.rules ==> Even(r, depth + 1))
  }

  ghost predicate EvenSite(site: Site)
  {
    && (forall r :: r in site.master.rules ==> Even(r, 0) && Distinct(Keywords(r.predicates)))
    && forall k: Dict :: site.schemaOf(k) == site.master
  }

  /** The pairs pushed so far belong to the first predicates of the rule. */
  predicate Follows(rule: Rule, done: seq<Pair>)
  {
    && |done| <= |rule.predicates|
    && forall i :: 0 <= i < |done| ==>
         done[i].0 == rule.predicates[i].keyword && rule.predicates[i].matcher.Accepts(done[i].1)
  }

  /** The assertion of `Schema::expandSecond`: the key that a rule of the configured
      schema built matches a rule of the same schema. */
  lemma {:induction false} DatabaseRuleExists(site: Site, rule: Rule, ps: seq<Pair>)
    requires EvenSite(site) && rule in site.master.rules && Follows(rule, ps) && |ps| == |rule.predicates|
    ensures FirstMatch(site.schemaOf(DictOf(ps)).rules, DictOf(ps)).Some?
  {
    hide Even, DictOf, FirstMatch;
    RuleMatchesItsKey(rule, ps);
  }

  /** The states of the walk: below a database one is selected. */
  predicate Running(s: Reader, depth: nat)
  {
    s.threw.None? && (depth >= 1 ==> s.db.Some?)
  }

  /** Where the walk stands in the site. */
  ghost predicate InSite(site: Site, rule: Rule, depth: nat)
    requires depth <= 2
  {
    EvenSite(site) && Even(rule, depth) && (depth == 0 ==> rule in site.master.rules)
  }

  lemma {:induction false} FromRuns(w: World, registry: Registry, rule: Rule, cur: nat, depth: nat, done: seq<Pair>, s: Reader)
    requires depth <= 2 && cur == |done| <= |rule.predicates| && Follows(rule, done)
    requires InSite(w.site, rule, depth) && Running(s, depth)
    ensures Running(ReadFrom(w, registry, rule, cur, depth, done, s), depth)
    decreases 3 - depth, 1, |rule.predicates| - cur, 1, 0
  {
    hide Candidates, Reach, ReadValues, InSite;
    if cur == |rule.predicates| {
      ReachRuns(w, registry, rule, depth, done, s);
    } else {
      ValuesRun(w, registry, rule, cur, depth, done, Candidates(w, s, registry, rule.predicates[cur]), s);
    }
  }

  lemma {:induction false} ValuesRun(w: World, registry: Registry, rule: Rule, cur: nat, depth: nat, done: seq<Pair>, values: seq<string>, s: Reader)
    requires depth <= 2 && cur == |done| < |rule.predicates| && Follows(rule, done)
    requires InSite(w.site, rule, depth) && Running(s, depth)
    ensures Running(ReadValues(w, registry, rule, cur, depth, done, values, s), depth)
    decreases 3 - depth, 1, |rule.predicates| - cur, 0, |values|
  {
    hide Candidates, Reach, ReadFrom, InSite;
    if values != [] {
      var p := rule.predicates[cur];
      var after := s;
      if p.matcher.Accepts(values[0]) {
        FromRuns(w, registry, rule, cur + 1, depth, done + [(p.keyword, values[0])], s);
        after := ReadFrom(w, registry, rule, cur + 1, depth, done + [(p.keyword, values[0])], s);
      }
      ValuesRun(w, registry, rule, cur, depth, done, values[1..], after);
    }
  }

  lemma {:induction false} ReachRuns(w: World, registry: Registry, rule: Rule, depth: nat, ps: seq<Pair>, s: Reader)
    requires depth <= 2 && |ps| == |rule.predicates| && Follows(rule, ps)
    requires InSite(w.site, rule, depth) && Running(s, depth)
    ensures Running(Reach(w, registry, rule, depth, ps, s), depth)
    decreases 3 - depth, 0, 0, 0, 0
  {
    hide ReadRules, DictOf, FirstMatch;
    if depth == 0 {
      var key := DictOf(ps);
      var entered := SelectDatabase(w, s, key);
      if entered.Some? {
        DatabaseRuleExists(w.site, rule, ps);
        var schema := w.site.schemaOf(key);
        var dbRule := FirstMatch(schema.rules, key).value;
        assert Even(dbRule, 0);
        RulesRun(w, [dbRule.types, schema.types], dbRule.rules, 1, entered.value);
      }
    } else if depth == 1 {
      RulesRun(w, registry, rule.rules, 2, SelectIndex(w, s, DictOf(ps)).0);
    }
  }

  lemma {:induction false} RulesRun(w: World, above: Registry, rules: seq<Rule>, depth: nat, s: Reader)
    requires depth <= 2 && (forall r :: r in rules ==> InSite(w.site, r, depth)) && Running(s, depth)
    ensures Running(ReadRules(w, above, rules, depth, s), depth)
    decreases 3 - depth, 2, |rules|, 0, 0
  {
    hide ReadFrom, InSite;
    if rules != [] {
      FromRuns(w, [rules[0].types] + above, rules[0], 0, depth, [], s);
      RulesRun(w, above, rules[1..], depth, ReadFrom(w, [rules[0].types] + above, rules[0], 0, depth, [], s));
    }
  }

  lemma {:induction false} RetrieveRuns(w: World, before: Opened)
    requires EvenSite(w.site)
    ensures Retrieve(w, before).threw.None?
  {
    hide ReadRules, Even;
    RulesRun(w, [w.site.master.types], w.site.master.rules, 0, Fresh(before));
  }
}
