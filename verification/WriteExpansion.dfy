/** What write expansion decides for a field: the nested walk over the rule tree
    (`Rule::expand` on a key, `Schema::expand`, `Schema::expandSecond`) and, as an
    independent reference, the flat list of all root-to-leaf paths in depth-first
    order, each evaluated from scratch. */
module WriteExpansion {
  import opened Wrappers
  import opened Keys
  import opened Rules

  datatype Error =
    | MissingKeyword(keyword: string)   // Key::get
    | RaggedRule                        // the depth assertions of Rule::expand
    | NoDatabaseRule                    // the assertion of Schema::expandSecond
    | UnusedKeywords                    // Key::validateKeysOf
    | NoRule                            // Archiver::archive
    | NoDatabase                        // the null checks on Archiver::current_
    | NoIndex                           // archiving into a database without a selected index

  /** The configured schema and the schema stored with each database. */
  datatype Site = Site(master: Schema, schemaOf: Dict -> Schema)

  datatype Decision =
    | Hit(keys: seq<seq<Pair>>, registry: Registry)
    | Pass
    | Fail(error: Error)

  function Below(ps: seq<Pair>, d: Decision): Decision
  {
    match d
    case Hit(keys, registry) => Hit([ps] + keys, registry)
    case _ => d
  }

  /** The decision of one rule at a level, given the registries above it. */
  function DecideRule(site: Site, above: Registry, rule: Rule, depth: nat, field: Dict): Decision
    requires depth <= 2
    decreases 6 - 2 * depth, 1
  {
    match WalkField(rule.predicates, field)
    case Missing(keyword) => Fail(MissingKeyword(keyword))
    case Mismatched => Pass
    case Matched(ps) => DecideMatched(site, [rule.types] + above, rule, ps, depth, field)
  }

  /** What follows when all predicates of a rule hold with the pairs `ps`. */
  function DecideMatched(site: Site, registry: Registry, rule: Rule, ps: seq<Pair>, depth: nat, field: Dict): Decision
    requires depth <= 2
    decreases 6 - 2 * depth, 0
  {
    if rule.rules == [] then
      if depth == 2 then Hit([ps], registry) else Fail(RaggedRule)
    else if depth == 2 then Fail(RaggedRule)
    else if depth == 1 then Below(ps, DecideRules(site, registry, rule.rules, 2, field))
    else Below(ps, DecideSecond(site, DictOf(ps), field))
  }

  /** The hop to the schema of the selected database. */
  function DecideSecond(site: Site, dbKey: Dict, field: Dict): Decision
    decreases 5, 0
  {
    var schema := site.schemaOf(dbKey);
    match FirstMatch(schema.rules, dbKey)
    case None => Fail(NoDatabaseRule)
    case Some(dbRule) => DecideRules(site, [dbRule.types, schema.types], dbRule.rules, 1, field)
  }

  /** The siblings in order: the first one that does not pass decides. */
  function DecideRules(site: Site, above: Registry, rules: seq<Rule>, depth: nat, field: Dict): Decision
    requires depth <= 2
    decreases 6 - 2 * depth, |rules| + 1
  {
    if rules == [] then Pass
    else
      var first := DecideRule(site, above, rules[0], depth, field);
      if first.Pass? then DecideRules(site, above, rules[1..], depth, field) else first
  }

  /** A hit has three levels of keys. */
  lemma {:induction false} HitLevels(site: Site, above: Registry, rule: Rule, depth: nat, field: Dict)
    requires depth <= 2
    requires DecideRule(site, above, rule, depth, field).Hit?
    ensures |DecideRule(site, above, rule, depth, field).keys| == 3 - depth
    decreases 3 - depth, 0
  {
    var ps := WalkField(rule.predicates, field).pairs;
    if depth == 1 {
      HitLevelsOfRules(site, [rule.types] + above, rule.rules, 2, field);
    } else if depth == 0 {
      var schema := site.schemaOf(DictOf(ps));
      var dbRule := FirstMatch(schema.rules, DictOf(ps)).value;
      HitLevelsOfRules(site, [dbRule.types, schema.types], dbRule.rules, 1, field);
    }
  }

  lemma {:induction false} HitLevelsOfRules(site: Site, above: Registry, rules: seq<Rule>, depth: nat, field: Dict)
    requires depth <= 2
    requires DecideRules(site, above, rules, depth, field).Hit?
    ensures |DecideRules(site, above, rules, depth, field).keys| == 3 - depth
    decreases 3 - depth, |rules| + 1
  {
    if DecideRule(site, above, rules[0], depth, field).Hit? {
      HitLevels(site, above, rules[0], depth, field);
    } else {
      HitLevelsOfRules(site, above, rules[1..], depth, field);
    }
  }

  /** `Archiver::archive` with the check of `ArchiveVisitor::selectDatum`: the whole
      decision for a field, without any selection state. */
  function Decide(site: Site, field: Dict): (d: Decision)
    ensures d.Hit? ==> |d.keys| == 3
    ensures !d.Pass?
  {
    match DecideRules(site, [site.master.types], site.master.rules, 0, field)
    case Pass => Fail(NoRule)
    case Hit(keys, registry) =>
      HitLevelsOfRules(site, [site.master.types], site.master.rules, 0, field);
      if field.Keys <= FullKeys(keys) then Hit(keys, registry) else Fail(UnusedKeywords)
    case Fail(error) => Fail(error)
  }

  /** The keywords of all levels together: those of the source's `full` key. */
  function FullKeys(keys: seq<seq<Pair>>): set<string>
  {
    if keys == [] then {} else DictOf(keys[0]).Keys + FullKeys(keys[1..])
  }

  // ----- The reference: a flat list of paths -----

  datatype End = Leaf | Ragged | Unmatched

  /** One path from the root of the walk: the predicates of each level. */
  datatype Path = Path(levels: seq<seq<Predicate>>, registry: Registry, end: End)

  function Grow(ps: seq<Predicate>, paths: seq<Path>): (r: seq<Path>)
    ensures |r| == |paths|
  {
    seq(|paths|, i requires 0 <= i < |paths| => Path([ps] + paths[i].levels, paths[i].registry, paths[i].end))
  }

  /** All paths of a rule at level one or two, in depth-first order. */
  function RulePaths(above: Registry, rule: Rule, depth: nat): (r: seq<Path>)
    requires 1 <= depth <= 2
    ensures r != []
    ensures forall p :: p in r ==> p.levels != []
    decreases 2 - depth, 0
  {
    var registry := [rule.types] + above;
    if rule.rules == [] then [Path([rule.predicates], registry, if depth == 2 then Leaf else Ragged)]
    else if depth == 2 then [Path([rule.predicates], registry, Ragged)]
    else
      assert RulesPaths(registry, rule.rules, 2) != [];
      Grow(rule.predicates, RulesPaths(registry, rule.rules, 2))
  }

  function RulesPaths(above: Registry, rules: seq<Rule>, depth: nat): (r: seq<Path>)
    requires 1 <= depth <= 2
    ensures rules != [] ==> r != []
    ensures forall p :: p in r ==> p.levels != []
    decreases 2 - depth, |rules| + 1
  {
    if rules == [] then [] else RulePaths(above, rules[0], depth) + RulesPaths(above, rules[1..], depth)
  }

  /** The paths through one database rule: below a matched key they continue in
      the first rule of that database's own schema that matches the key. */
  function DatabasePaths(site: Site, above: Registry, rule: Rule, field: Dict): seq<Path>
  {
    var here := [Path([rule.predicates], [rule.types] + above, Unmatched)];
    match WalkField(rule.predicates, field)
    case Matched(ps) =>
      if rule.rules == [] then [here[0].(end := Ragged)]
      else
        var schema := site.schemaOf(DictOf(ps));
        (match FirstMatch(schema.rules, DictOf(ps))
         case None => here
         case Some(dbRule) => Grow(rule.predicates, RulesPaths([dbRule.types, schema.types], dbRule.rules, 1)))
    case _ => here
  }

  function AllPaths(site: Site, rules: seq<Rule>, field: Dict): seq<Path>
  {
    if rules == [] then []
    else DatabasePaths(site, [site.master.types], rules[0], field) + AllPaths(site, rules[1..], field)
  }

  /** One path on its own: every level is walked afresh. */
  function Evaluate(path: Path, field: Dict): Decision
    decreases |path.levels|
  {
    if path.levels == [] then
      match path.end
      case Leaf => Hit([], path.registry)
      case Ragged => Fail(RaggedRule)
      case Unmatched => Fail(NoDatabaseRule)
    else match WalkField(path.levels[0], field)
      case Missing(keyword) => Fail(MissingKeyword(keyword))
      case Mismatched => Pass
      case Matched(ps) => Below(ps, Evaluate(path.(levels := path.levels[1..]), field))
  }

  /** The first path of a list that does not pass. */
  function FirstDecided(paths: seq<Path>, field: Dict): Decision
  {
    if paths == [] then Pass
    else if Evaluate(paths[0], field).Pass? then FirstDecided(paths[1..], field)
    else Evaluate(paths[0], field)
  }

  lemma {:induction false} FirstDecidedConcat(a: seq<Path>, b: seq<Path>, field: Dict)
    ensures FirstDecided(a + b, field) ==
            if FirstDecided(a, field).Pass? then FirstDecided(b, field) else FirstDecided(a, field)
  {
    if a == [] {
      assert a + b == b;
    } else {
      assert (a + b)[0] == a[0] && (a + b)[1..] == a[1..] + b;
      FirstDecidedConcat(a[1..], b, field);
    }
  }

  lemma {:induction false} FirstDecidedGrow(ps: seq<Predicate>, paths: seq<Path>, field: Dict)
    ensures FirstDecided(Grow(ps, paths), field) ==
            match WalkField(ps, field)
            case Missing(keyword) => if paths == [] then Pass else Fail(MissingKeyword(keyword))
            case Mismatched => Pass
            case Matched(pairs) => Below(pairs, FirstDecided(paths, field))
  {
    if paths != [] {
      var grown := Grow(ps, paths);
      assert grown[1..] == Grow(ps, paths[1..]);
      assert grown[0].(levels := grown[0].levels[1..]) == paths[0];
      FirstDecidedGrow(ps, paths[1..], field);
    }
  }

  lemma {:induction false} OneLevel(path: Path, field: Dict)
    requires |path.levels| == 1
    ensures FirstDecided([path], field) ==
            match WalkField(path.levels[0], field)
            case Missing(keyword) => Fail(MissingKeyword(keyword))
            case Mismatched => Pass
            case Matched(ps) =>
              Below(ps, match path.end
                        case Leaf => Hit([], path.registry)
                        case Ragged => Fail(RaggedRule)
                        case Unmatched => Fail(NoDatabaseRule))
  {
    var rest := path.(levels := []);
    assert path.(levels := path.levels[1..]) == rest;
    assert Evaluate(path, field).Pass? ==> FirstDecided([path][1..], field).Pass?;
    assert FirstDecided([path], field) == Evaluate(path, field);
    assert Evaluate(rest, field) == (match path.end case Leaf => Hit([], path.registry)
                                                    case Ragged => Fail(RaggedRule)
                                                    case Unmatched => Fail(NoDatabaseRule));
  }

  lemma {:induction false} RulePathsDecide(site: Site, above: Registry, rule: Rule, depth: nat, field: Dict)
    requires 1 <= depth <= 2
    ensures DecideRule(site, above, rule, depth, field) == FirstDecided(RulePaths(above, rule, depth), field)
    decreases 2 - depth, 0
  {
    var registry := [rule.types] + above;
    if rule.rules != [] && depth == 1 {
      RulesPathsDecide(site, registry, rule.rules, 2, field);
      FirstDecidedGrow(rule.predicates, RulesPaths(registry, rule.rules, 2), field);
    } else {
      OneLevel(RulePaths(above, rule, depth)[0], field);
    }
  }

  lemma {:induction false} RulesPathsDecide(site: Site, above: Registry, rules: seq<Rule>, depth: nat, field: Dict)
    requires 1 <= depth <= 2
    ensures DecideRules(site, above, rules, depth, field) == FirstDecided(RulesPaths(above, rules, depth), field)
    decreases 2 - depth, |rules| + 1
  {
    if rules != [] {
      RulePathsDecide(site, above, rules[0], depth, field);
      RulesPathsDecide(site, above, rules[1..], depth, field);
      FirstDecidedConcat(RulePaths(above, rules[0], depth), RulesPaths(above, rules[1..], depth), field);
    }
  }

  lemma {:induction false} DatabasePathsDecide(site: Site, above: Registry, rule: Rule, field: Dict)
    ensures DecideRule(site, above, rule, 0, field) == FirstDecided(DatabasePaths(site, above, rule, field), field)
  {
    var paths := DatabasePaths(site, above, rule, field);
    match WalkField(rule.predicates, field)
    case Matched(ps) =>
      var schema := site.schemaOf(DictOf(ps));
      var m := FirstMatch(schema.rules, DictOf(ps));
      if rule.rules != [] && m.Some? {
        RulesPathsDecide(site, [m.value.types, schema.types], m.value.rules, 1, field);
        FirstDecidedGrow(rule.predicates, RulesPaths([m.value.types, schema.types], m.value.rules, 1), field);
      } else {
        OneLevel(paths[0], field);
      }
    case _ =>
  }

  /** The nested walk decides exactly what the first path of the flat list that
      does not pass decides. */
  lemma {:induction false} NestedWalkIsFirstPath(site: Site, rules: seq<Rule>, field: Dict)
    ensures DecideRules(site, [site.master.types], rules, 0, field) == FirstDecided(AllPaths(site, rules, field), field)
  {
    if rules != [] {
      var above := [site.master.types];
      DatabasePathsDecide(site, above, rules[0], field);
      NestedWalkIsFirstPath(site, rules[1..], field);
      FirstDecidedConcat(DatabasePaths(site, above, rules[0], field), AllPaths(site, rules[1..], field), field);
    }
  }

  /** A list is decided by its path number `n` when all earlier paths pass. */
  ghost predicate DecidedAt(paths: seq<Path>, n: nat, field: Dict)
  {
    n < |paths| && !Evaluate(paths[n], field).Pass? && forall m :: 0 <= m < n ==> Evaluate(paths[m], field).Pass?
  }

  lemma {:induction false} FirstDecidedPosition(paths: seq<Path>, field: Dict) returns (n: nat)
    requires !FirstDecided(paths, field).Pass?
    ensures DecidedAt(paths, n, field) && Evaluate(paths[n], field) == FirstDecided(paths, field)
  {
    if Evaluate(paths[0], field).Pass? {
      n := FirstDecidedPosition(paths[1..], field);
      forall m | 0 <= m < n + 1
        ensures Evaluate(paths[m], field).Pass?
      {
        assert m > 0 ==> paths[m] == paths[1..][m - 1];
      }
      n := n + 1;
    } else {
      n := 0;
    }
  }

  lemma {:induction false} FirstDecidedAt(paths: seq<Path>, n: nat, field: Dict)
    requires DecidedAt(paths, n, field)
    ensures FirstDecided(paths, field) == Evaluate(paths[n], field)
  {
    if n > 0 {
      assert paths[1..][n - 1] == paths[n];
      forall m | 0 <= m < n - 1
        ensures Evaluate(paths[1..][m], field).Pass?
      {
        assert paths[1..][m] == paths[m + 1];
      }
      FirstDecidedAt(paths[1..], n - 1, field);
    }
  }

  /** Write expansion hits a leaf with these keys exactly when some path of the
      flat list yields them and every earlier path passes. */
  lemma {:induction false} HitIsFirstLeaf(site: Site, field: Dict, keys: seq<seq<Pair>>, registry: Registry)
    ensures DecideRules(site, [site.master.types], site.master.rules, 0, field) == Hit(keys, registry) <==>
            exists n: nat :: DecidedAt(AllPaths(site, site.master.rules, field), n, field)
                          && Evaluate(AllPaths(site, site.master.rules, field)[n], field) == Hit(keys, registry)
  {
    var paths := AllPaths(site, site.master.rules, field);
    NestedWalkIsFirstPath(site, site.master.rules, field);
    if FirstDecided(paths, field) == Hit(keys, registry) {
      var n := FirstDecidedPosition(paths, field);
      assert DecidedAt(paths, n, field);
    }
    forall n: nat | DecidedAt(paths, n, field)
      ensures FirstDecided(paths, field) == Evaluate(paths[n], field)
    {
      FirstDecidedAt(paths, n, field);
    }
  }
}
