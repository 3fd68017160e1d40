/** What a field is archived under, in terms of the field itself: every level key holds the
    field's own values, and a default only where a predicate of the schema puts one. */
module FieldKeys {
  import opened Wrappers
  import opened Keys
  import opened Rules
  import opened WriteExpansion
  import opened ExpansionKeys

  // ----- One rule -----

  /** The one value that a predicate takes of a field. */
  predicate Takes(p: Predicate, field: Dict, v: string)
  {
    match p.matcher
    case MatchAlways => p.keyword in field && v == field[p.keyword]
    case MatchValue(value) => p.keyword in field && v == field[p.keyword] && v == value
    case MatchAny(values) => p.keyword in field && v == field[p.keyword] && v in values
    case MatchOptional(def) => v == if p.keyword in field then field[p.keyword] else def
    case MatchHidden(def) => v == def
  }

  /** One pair per predicate, each with the keyword of the predicate and the value it takes. */
  predicate TakesAll(ps: seq<Predicate>, field: Dict, pairs: seq<Pair>)
  {
    |pairs| == |ps| && forall i :: 0 <= i < |ps| ==> pairs[i].0 == ps[i].keyword && Takes(ps[i], field, pairs[i].1)
  }

  ghost predicate TakesSome(p: Predicate, field: Dict)
  {
    exists v :: Takes(p, field, v)
  }

  /** A predicate that needs a value of the field, which has none. */
  predicate Lacks(p: Predicate, field: Dict)
  {
    p.keyword !in field && !p.matcher.MatchOptional? && !p.matcher.MatchHidden?
  }

  /** A field gets through a rule with some pairs exactly if they are what its predicates take. */
  lemma {:induction false} WalkTakes(ps: seq<Predicate>, field: Dict, pairs: seq<Pair>)
    ensures WalkField(ps, field) == Matched(pairs) <==> TakesAll(ps, field, pairs)
  {
    if ps != [] && pairs != [] {
      WalkTakes(ps[1..], field, pairs[1..]);
      assert pairs == [pairs[0]] + pairs[1..];
      if TakesAll(ps[1..], field, pairs[1..]) && pairs[0].0 == ps[0].keyword && Takes(ps[0], field, pairs[0].1) {
        forall i | 0 <= i < |ps|
          ensures |pairs| == |ps| && pairs[i].0 == ps[i].keyword && Takes(ps[i], field, pairs[i].1)
        {
          assert i > 0 ==> ps[i] == ps[1..][i - 1] && pairs[i] == pairs[1..][i - 1];
        }
      }
      if TakesAll(ps, field, pairs) {
        forall i | 0 <= i < |ps| - 1
          ensures pairs[1..][i].0 == ps[1..][i].keyword && Takes(ps[1..][i], field, pairs[1..][i].1)
        {
          assert ps[1..][i] == ps[i + 1] && pairs[1..][i] == pairs[i + 1];
        }
      }
    }
  }

  /** The first predicate that takes no value of the field, which it lacks. */
  ghost predicate MissesAt(ps: seq<Predicate>, field: Dict, n: nat, keyword: string)
  {
    n < |ps| && ps[n].keyword == keyword && Lacks(ps[n], field) && forall m :: 0 <= m < n ==> TakesSome(ps[m], field)
  }

  /** A walk ends in the exception of a missing keyword exactly if the first predicate that
      takes nothing of the field is on a keyword that the field lacks. */
  lemma {:induction false} WalkMisses(ps: seq<Predicate>, field: Dict, keyword: string)
    ensures WalkField(ps, field) == Missing(keyword) <==> exists n: nat :: MissesAt(ps, field, n, keyword)
  {
    if ps != [] {
      WalkMisses(ps[1..], field, keyword);
      if n: nat :| MissesAt(ps, field, n, keyword) {
        if n > 0 {
          assert TakesSome(ps[0], field);
          forall m | 0 <= m < n - 1
            ensures TakesSome(ps[1..][m], field)
          {
            assert ps[1..][m] == ps[m + 1];
          }
          assert MissesAt(ps[1..], field, n - 1, keyword);
        }
      }
      if n: nat :| MissesAt(ps[1..], field, n, keyword) {
        if ps[0].Value(field).Some? && ps[0].matcher.Accepts(ps[0].Value(field).value) {
          assert Takes(ps[0], field, ps[0].Value(field).value) && TakesSome(ps[0], field);
          forall m | 0 <= m < n + 1
            ensures TakesSome(ps[m], field)
          {
            assert m > 0 ==> ps[m] == ps[1..][m - 1];
          }
          assert MissesAt(ps, field, n + 1, keyword);
        }
      }
      if Lacks(ps[0], field) && ps[0].keyword == keyword {
        assert MissesAt(ps, field, 0, keyword);
      }
    }
  }

  /** A rule matches a key of which it lacks nothing exactly if the key, taken as a field,
      gets through it. */
  lemma {:induction false} MatchIsWalk(rule: Rule, key: Dict)
    requires forall p :: p in rule.predicates && p.matcher.MatchAlways? ==> p.keyword in key
    ensures rule.Match(key) <==> exists pairs :: TakesAll(rule.predicates, key, pairs)
  {
    var ps := rule.predicates;
    if rule.Match(key) {
      forall p | p in ps
        ensures p.Value(key).Some? && p.matcher.Accepts(p.Value(key).value)
      {
        assert p.Match(key);
      }
      WalkFieldThrough(ps, key);
      WalkTakes(ps, key, WalkField(ps, key).pairs);
    }
    if pairs: seq<Pair> :| TakesAll(ps, key, pairs) {
      forall p | p in ps
        ensures p.Match(key)
      {
        var i :| 0 <= i < |ps| && ps[i] == p;
        assert Takes(ps[i], key, pairs[i].1);
      }
    }
  }

  /** The rule that is looked for is the first of those that match. */
  lemma {:induction false} FirstMatchIsFirst(rules: seq<Rule>, key: Dict, rule: Rule)
    ensures FirstMatch(rules, key) == Some(rule) <==>
            exists n :: 0 <= n < |rules| && rules[n] == rule && rule.Match(key) && forall m :: 0 <= m < n ==> !rules[m].Match(key)
  {
    if rules != [] {
      FirstMatchIsFirst(rules[1..], key, rule);
      if n :| 0 <= n < |rules| && rules[n] == rule && rule.Match(key) && forall m :: 0 <= m < n ==> !rules[m].Match(key) {
        if n > 0 {
          assert rules[1..][n - 1] == rule && forall m :: 0 <= m < n - 1 ==> rules[1..][m] == rules[m + 1];
        }
      }
      if n :| 0 <= n < |rules[1..]| && rules[1..][n] == rule && rule.Match(key) && forall m :: 0 <= m < n ==> !rules[1..][m].Match(key) {
        if !rules[0].Match(key) {
          forall m | 0 <= m < n + 1
            ensures !rules[m].Match(key)
          {
            assert m > 0 ==> rules[m] == rules[1..][m - 1];
          }
          assert rules[n + 1] == rule;
        }
      }
    }
  }

  /** The type of a keyword is what the innermost registry that knows it declares. */
  lemma {:induction false} TypeIsInnermost(registry: Registry, k: string)
    ensures (forall i :: 0 <= i < |registry| ==> k !in registry[i]) ==> TypeOf(registry, k) == "Default"
    ensures forall n :: 0 <= n < |registry| && k in registry[n] && (forall m :: 0 <= m < n ==> k !in registry[m]) ==>
              TypeOf(registry, k) == registry[n][k]
  {
    if registry != [] {
      TypeIsInnermost(registry[1..], k);
      forall n | 0 <= n < |registry| && k in registry[n] && (forall m :: 0 <= m < n ==> k !in registry[m])
        ensures TypeOf(registry, k) == registry[n][k]
      {
        if n > 0 {
          assert registry[1..][n - 1] == registry[n] && forall m :: 0 <= m < n - 1 ==> registry[1..][m] == registry[m + 1];
        }
      }
    }
  }

  // ----- The three levels -----

  /** The rules that a field goes through: one of the configured schema, and below the rule of
      the database's own schema that is the first to match the database key, an index rule and
      a datum rule. */
  datatype Route = Route(master: Rule, database: Rule, index: Rule, datum: Rule)

  ghost predicate Goes(site: Site, field: Dict, keys: seq<seq<Pair>>, registry: Registry, r: Route)
  {
    && |keys| == 3
    && r.master in site.master.rules && TakesAll(r.master.predicates, field, keys[0]) && r.master.rules != []
    && var schema := site.schemaOf(DictOf(keys[0]));
       && FirstMatch(schema.rules, DictOf(keys[0])) == Some(r.database)
       && r.index in r.database.rules && TakesAll(r.index.predicates, field, keys[1])
       && r.datum in r.index.rules && TakesAll(r.datum.predicates, field, keys[2]) && r.datum.rules == []
       && registry == [r.datum.types, r.index.types, r.database.types, schema.types]
  }

  lemma {:induction false} DatumRoute(site: Site, above: Registry, rules: seq<Rule>, field: Dict) returns (datum: Rule)
    requires DecideRules(site, above, rules, 2, field).Hit?
    ensures var d := DecideRules(site, above, rules, 2, field);
            && |d.keys| == 1 && datum in rules && TakesAll(datum.predicates, field, d.keys[0])
            && datum.rules == [] && d.registry == [datum.types] + above
  {
    if DecideRule(site, above, rules[0], 2, field).Hit? {
      datum := rules[0];
      WalkTakes(datum.predicates, field, WalkField(datum.predicates, field).pairs);
    } else {
      datum := DatumRoute(site, above, rules[1..], field);
    }
  }

  lemma {:induction false} IndexRoute(site: Site, above: Registry, rules: seq<Rule>, field: Dict) returns (index: Rule, datum: Rule)
    requires DecideRules(site, above, rules, 1, field).Hit?
    ensures var d := DecideRules(site, above, rules, 1, field);
            && |d.keys| == 2 && index in rules && TakesAll(index.predicates, field, d.keys[0])
            && datum in index.rules && TakesAll(datum.predicates, field, d.keys[1])
            && datum.rules == [] && d.registry == [datum.types, index.types] + above
  {
    if DecideRule(site, above, rules[0], 1, field).Hit? {
      index := rules[0];
      hide DecideRules, TakesAll;
      var ps := WalkField(index.predicates, field).pairs;
      datum := DatumRoute(site, [index.types] + above, index.rules, field);
      WalkTakes(index.predicates, field, ps);
      Decides(site, above, rules, 1, field);
      assert [datum.types] + ([index.types] + above) == [datum.types, index.types] + above;
    } else {
      index, datum := IndexRoute(site, above, rules[1..], field);
    }
  }

  lemma {:induction false} Decides(site: Site, above: Registry, rules: seq<Rule>, depth: nat, field: Dict)
    requires depth <= 2 && rules != [] && !DecideRule(site, above, rules[0], depth, field).Pass?
    ensures DecideRules(site, above, rules, depth, field) == DecideRule(site, above, rules[0], depth, field)
  {
    hide DecideRule;
  }

  lemma {:induction false} MasterRoute(site: Site, above: Registry, rules: seq<Rule>, field: Dict) returns (r: Route)
    requires DecideRules(site, above, rules, 0, field).Hit? && forall m :: m in rules ==> m in site.master.rules
    ensures var d := DecideRules(site, above, rules, 0, field); Goes(site, field, d.keys, d.registry, r)
  {
    if DecideRule(site, above, rules[0], 0, field).Hit? {
      hide DecideRules, TakesAll;
      var master := rules[0];
      var ps := WalkField(master.predicates, field).pairs;
      var schema := site.schemaOf(DictOf(ps));
      var database := FirstMatch(schema.rules, DictOf(ps)).value;
      var inner := DecideRules(site, [database.types, schema.types], database.rules, 1, field);
      var index, datum := IndexRoute(site, [database.types, schema.types], database.rules, field);
      WalkTakes(master.predicates, field, ps);
      Decides(site, above, rules, 0, field);
      r := Route(master, database, index, datum);
      assert DecideRules(site, above, rules, 0, field) == Below(ps, inner);
      assert [ps] + inner.keys == [ps, inner.keys[0], inner.keys[1]];
      assert inner.registry == [datum.types, index.types, database.types, schema.types];
    } else {
      r := MasterRoute(site, above, rules[1..], field);
    }
  }

  /** A field that is archived goes through four rules of the schemas: its level keys are what
      their predicates take of it, and the types are theirs, innermost first. */
  lemma {:induction false} DecideGoes(site: Site, field: Dict) returns (r: Route)
    requires Decide(site, field).Hit?
    ensures Goes(site, field, Decide(site, field).keys, Decide(site, field).registry, r)
  {
    hide DecideRules, Goes;
    r := MasterRoute(site, [site.master.types], site.master.rules, field);
  }

  /** The pair is from the field itself, or the default of a predicate of some rule on the
      route that is hidden, or optional on a keyword that the field lacks. */
  ghost predicate FromField(r: Route, field: Dict, pair: Pair)
  {
    || (pair.0 in field && pair.1 == field[pair.0])
    || (exists p :: p in r.master.predicates + r.index.predicates + r.datum.predicates && p.keyword == pair.0 &&
          (p.matcher == MatchHidden(pair.1) || (pair.0 !in field && p.matcher == MatchOptional(pair.1))))
  }

  predicate NoneHidden(r: Route)
  {
    forall p :: p in r.master.predicates + r.index.predicates + r.datum.predicates ==> !p.matcher.MatchHidden?
  }

  lemma {:induction false} TakenFromField(r: Route, ps: seq<Predicate>, field: Dict, pairs: seq<Pair>)
    requires TakesAll(ps, field, pairs) && forall p :: p in ps ==> p in r.master.predicates + r.index.predicates + r.datum.predicates
    ensures forall pair :: pair in pairs ==> FromField(r, field, pair) && (NoneHidden(r) && pair.0 in field ==> pair.1 == field[pair.0])
  {
    forall pair | pair in pairs
      ensures FromField(r, field, pair) && (NoneHidden(r) && pair.0 in field ==> pair.1 == field[pair.0])
    {
      var i :| 0 <= i < |pairs| && pairs[i] == pair;
      assert ps[i] in ps && Takes(ps[i], field, pair.1);
    }
  }

  /** Every pair of the level keys is from the field, or a default where the schema has one. */
  lemma {:induction false} KeysAreField(site: Site, field: Dict) returns (r: Route)
    requires Decide(site, field).Hit?
    ensures var d := Decide(site, field);
            && Goes(site, field, d.keys, d.registry, r)
            && forall pair :: pair in d.keys[0] + d.keys[1] + d.keys[2] ==>
                 FromField(r, field, pair) && (NoneHidden(r) && pair.0 in field ==> pair.1 == field[pair.0])
  {
    hide Decide, FromField, NoneHidden, TakesAll;
    r := DecideGoes(site, field);
    var keys := Decide(site, field).keys;
    TakenFromField(r, r.master.predicates, field, keys[0]);
    TakenFromField(r, r.index.predicates, field, keys[1]);
    TakenFromField(r, r.datum.predicates, field, keys[2]);
  }

  lemma {:induction false} SameValue(ps: seq<Pair>, k: string, v: string)
    requires (exists p :: p in ps && p.0 == k) && forall p :: p in ps && p.0 == k ==> p.1 == v
    ensures k in DictOf(ps) && DictOf(ps)[k] == v
  {
    var init, last := ps[..|ps| - 1], ps[|ps| - 1];
    assert last in ps && forall p :: p in init ==> p in ps;
    if last.0 != k {
      var p :| p in ps && p.0 == k;
      assert p in init;
      SameValue(init, k, v);
    }
  }

  lemma {:induction false} InDict(ps: seq<Pair>, k: string)
    ensures k in DictOf(ps) <==> exists p :: p in ps && p.0 == k
  {
    DictOfKeys(ps);
    if k in DictOf(ps) {
      assert k in Names(ps);
      var i :| 0 <= i < |Names(ps)| && Names(ps)[i] == k;
      assert ps[i] in ps;
    }
    if p :| p in ps && p.0 == k {
      var i :| 0 <= i < |ps| && ps[i] == p;
      assert Names(ps)[i] == k;
    }
  }

  /** Without hidden predicates on its route, the level keys together hold the whole field:
      restricted to the field's keywords they are the field. */
  lemma {:induction false} UnionIsField(site: Site, field: Dict) returns (r: Route)
    requires Decide(site, field).Hit?
    ensures var d := Decide(site, field);
            && Goes(site, field, d.keys, d.registry, r)
            && (NoneHidden(r) ==> var union := DictOf(d.keys[0] + d.keys[1] + d.keys[2]);
                                  (map k | k in union && k in field :: union[k]) == field)
  {
    hide DecideRules, FromField, NoneHidden, Goes, DictOf, FullKeys;
    r := KeysAreField(site, field);
    var d := Decide(site, field);
    if NoneHidden(r) {
      var all := d.keys[0] + d.keys[1] + d.keys[2];
      forall k | k in field
        ensures k in DictOf(all) && DictOf(all)[k] == field[k]
      {
        UsedSomewhere(d.keys, k);
        SameValue(all, k, field[k]);
      }
    }
  }

  lemma {:induction false} UsedSomewhere(keys: seq<seq<Pair>>, k: string)
    requires |keys| == 3
    ensures k in FullKeys(keys) <==> exists p :: p in keys[0] + keys[1] + keys[2] && p.0 == k
  {
    hide DictOf;
    assert keys[1..][0] == keys[1] && keys[1..][1..][0] == keys[2] && keys[1..][1..][1..] == [];
    assert FullKeys(keys[1..][1..]) == DictOf(keys[2]).Keys + {};
    InDict(keys[0], k);
    InDict(keys[1], k);
    InDict(keys[2], k);
    forall p
      ensures p in keys[0] + keys[1] + keys[2] <==> p in keys[0] || p in keys[1] || p in keys[2]
    {
    }
  }

  /** The unused-keyword error comes exactly where the first path that does not pass leads to a
      leaf and some keyword of the field is in none of the three keys. */
  lemma {:induction false} UnusedIff(site: Site, field: Dict)
    ensures Decide(site, field) == Fail(UnusedKeywords) <==>
            var d := DecideRules(site, [site.master.types], site.master.rules, 0, field);
            d.Hit? && |d.keys| == 3 && exists k :: k in field && forall p :: p in d.keys[0] + d.keys[1] + d.keys[2] ==> p.0 != k
  {
    hide DecideRules, FullKeys;
    var d := DecideRules(site, [site.master.types], site.master.rules, 0, field);
    if d.Hit? {
      HitLevelsOfRules(site, [site.master.types], site.master.rules, 0, field);
      forall k: string
        ensures k in FullKeys(d.keys) <==> exists p :: p in d.keys[0] + d.keys[1] + d.keys[2] && p.0 == k
      {
        UsedSomewhere(d.keys, k);
      }
    } else if d == Fail(UnusedKeywords) {
      NeverUnused(site, [site.master.types], site.master.rules, 0, field);
    }
  }

  /** No walk over rules ends in that error. */
  lemma {:induction false} NeverUnused(site: Site, above: Registry, rules: seq<Rule>, depth: nat, field: Dict)
    requires depth <= 2
    ensures DecideRules(site, above, rules, depth, field) != Fail(UnusedKeywords)
    decreases 3 - depth, |rules|
  {
    if rules != [] {
      NeverUnused(site, above, rules[1..], depth, field);
      var rule := rules[0];
      if WalkField(rule.predicates, field).Matched? && rule.rules != [] {
        var ps := WalkField(rule.predicates, field).pairs;
        if depth == 1 {
          NeverUnused(site, [rule.types] + above, rule.rules, 2, field);
        } else if depth == 0 {
          var schema := site.schemaOf(DictOf(ps));
          var m := FirstMatch(schema.rules, DictOf(ps));
          if m.Some? {
            NeverUnused(site, [m.value.types, schema.types], m.value.rules, 1, field);
          }
        }
      }
    }
  }
}
