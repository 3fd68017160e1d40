/** Whatever is archived is found again: write expansion and read expansion meet. */
module Completeness {
  import opened Wrappers
  import opened Keys
  import opened Rules
  import opened WriteExpansion
  import opened Stores
  import opened ReadExpansion
  import opened ReadProduct

  // ----- Read expansion only ever adds hits -----

  /** Hits are kept, and an exception ends everything. */
  predicate Grows(s: Reader, t: Reader)
  {
    s.found <= t.found && (s.threw.Some? ==> t == s)
  }

  lemma {:induction false} FromGrows(w: World, registry: Registry, rule: Rule, cur: nat, depth: nat, done: seq<Pair>, s: Reader)
    requires depth <= 2 && cur <= |rule.predicates|
    ensures Grows(s, ReadFrom(w, registry, rule, cur, depth, done, s))
    ensures depth >= 1 ==> ReadFrom(w, registry, rule, cur, depth, done, s).db == s.db
    decreases 3 - depth, 1, |rule.predicates| - cur, 1, 0
  {
    hide Candidates, Reach, ReadValues;
    if cur == |rule.predicates| {
      ReachGrows(w, registry, rule, depth, done, s);
    } else {
      ValuesGrow(w, registry, rule, cur, depth, done, Candidates(w, s, registry, rule.predicates[cur]), s);
    }
  }

  lemma {:induction false} ValuesGrow(w: World, registry: Registry, rule: Rule, cur: nat, depth: nat, done: seq<Pair>, values: seq<string>, s: Reader)
    requires depth <= 2 && cur < |rule.predicates|
    ensures Grows(s, ReadValues(w, registry, rule, cur, depth, done, values, s))
    ensures depth >= 1 ==> ReadValues(w, registry, rule, cur, depth, done, values, s).db == s.db
    decreases 3 - depth, 1, |rule.predicates| - cur, 0, |values|
  {
    hide Candidates, Reach, ReadFrom;
    if values != [] && s.threw.None? {
      var p := rule.predicates[cur];
      if p.matcher.Accepts(values[0]) {
        FromGrows(w, registry, rule, cur + 1, depth, done + [(p.keyword, values[0])], s);
        ValuesGrow(w, registry, rule, cur, depth, done, values[1..],
                   ReadFrom(w, registry, rule, cur + 1, depth, done + [(p.keyword, values[0])], s));
      } else {
        ValuesGrow(w, registry, rule, cur, depth, done, values[1..], s);
      }
    }
  }

  lemma {:induction false} ReachGrows(w: World, registry: Registry, rule: Rule, depth: nat, ps: seq<Pair>, s: Reader)
    requires depth <= 2
    ensures Grows(s, Reach(w, registry, rule, depth, ps, s))
    ensures depth >= 1 ==> Reach(w, registry, rule, depth, ps, s).db == s.db
    decreases 3 - depth, 0, 0, 0, 0
  {
    hide ReadRules, ReadSecond;
    if s.threw.None? && rule.rules != [] && depth < 2 {
      if depth == 0 {
        var entered := SelectDatabase(w, s, DictOf(ps));
        if entered.Some? {
          SecondGrows(w, DictOf(ps), entered.value);
        }
      } else if s.db.Some? {
        RulesGrow(w, registry, rule.rules, 2, SelectIndex(w, s, DictOf(ps)).0);
      }
    }
  }

  lemma {:induction false} SecondGrows(w: World, key: Dict, s: Reader)
    ensures Grows(s, ReadSecond(w, key, s)) || s.threw.Some?
    ensures ReadSecond(w, key, s).db == s.db
    decreases 2, 3, 0, 0, 0
  {
    hide ReadRules;
    var schema := w.site.schemaOf(key);
    var dbRule := FirstMatch(schema.rules, key);
    if dbRule.Some? {
      RulesGrow(w, [dbRule.value.types, schema.types], dbRule.value.rules, 1, s);
    }
  }

  lemma {:induction false} RulesGrow(w: World, above: Registry, rules: seq<Rule>, depth: nat, s: Reader)
    requires depth <= 2
    ensures Grows(s, ReadRules(w, above, rules, depth, s))
    ensures depth >= 1 ==> ReadRules(w, above, rules, depth, s).db == s.db
    decreases 3 - depth, 2, |rules|, 0, 0
  {
    hide ReadFrom;
    if rules != [] && s.threw.None? {
      FromGrows(w, [rules[0].types] + above, rules[0], 0, depth, [], s);
      RulesGrow(w, above, rules[1..], depth, ReadFrom(w, [rules[0].types] + above, rules[0], 0, depth, [], s));
    }
  }

  lemma {:induction false} AllGrow(w: World, registry: Registry, rule: Rule, depth: nat, done: seq<Pair>, tuples: seq<seq<Pair>>, s: Reader)
    requires depth <= 2
    ensures Grows(s, ReachAll(w, registry, rule, depth, done, tuples, s))
  {
    hide Reach;
    if tuples != [] && s.threw.None? {
      ReachGrows(w, registry, rule, depth, done + tuples[0], s);
      AllGrow(w, registry, rule, depth, done, tuples[1..], Reach(w, registry, rule, depth, done + tuples[0], s));
    }
  }

  /** Every tuple of the product has its turn, in some state of the level. */
  lemma {:induction false} Visited(w: World, registry: Registry, rule: Rule, depth: nat, done: seq<Pair>, tuples: seq<seq<Pair>>,
                                   t: seq<Pair>, s: Reader) returns (mid: Reader)
    requires depth <= 2 && t in tuples
    requires ReachAll(w, registry, rule, depth, done, tuples, s).threw.None?
    ensures mid.threw.None? && Reach(w, registry, rule, depth, done + t, mid).threw.None?
    ensures Reach(w, registry, rule, depth, done + t, mid).found <= ReachAll(w, registry, rule, depth, done, tuples, s).found
    ensures depth >= 1 ==> mid.db == s.db
    ensures depth == 2 ==> mid.selected == s.selected
  {
    hide Reach;
    AllGrow(w, registry, rule, depth, done, tuples, s);
    var after := Reach(w, registry, rule, depth, done + tuples[0], s);
    AllGrow(w, registry, rule, depth, done, tuples[1..], after);
    if t == tuples[0] {
      mid := s;
    } else {
      ReachGrows(w, registry, rule, depth, done + tuples[0], s);
      if depth == 2 {
        ReachKeepsView(w, registry, rule, done + tuples[0], s);
      }
      mid := Visited(w, registry, rule, depth, done, tuples[1..], t, after);
    }
  }

  // ----- A request that covers a field -----

  /** The request has the written value of a keyword, or is silent where the rule
      falls back to that value. */
  predicate Covered(w: World, registry: Registry, p: Predicate, v: string)
  {
    var listed := Listed(w, registry, p.keyword);
    || (v in listed && (v == "" ==> w.toKey(TypeOf(registry, p.keyword), "") == ""))
    || (listed == [] && p.matcher.Optional() && p.matcher.def == v)
  }

  /** Along the decision for a field, the request covers every written value. */
  predicate CoversRule(w: World, above: Registry, rule: Rule, depth: nat, field: Dict)
    requires depth <= 2 && DecideRule(w.site, above, rule, depth, field).Hit?
    decreases 6 - 2 * depth, 0
  {
    var registry := [rule.types] + above;
    var ps := WalkField(rule.predicates, field).pairs;
    && (forall i :: 0 <= i < |ps| ==> Covered(w, registry, rule.predicates[i], ps[i].1))
    && match depth
       case 0 =>
         var schema := w.site.schemaOf(DictOf(ps));
         var dbRule := FirstMatch(schema.rules, DictOf(ps)).value;
         CoversRules(w, [dbRule.types, schema.types], dbRule.rules, 1, field)
       case 1 => CoversRules(w, registry, rule.rules, 2, field)
       case _ => true
  }

  predicate CoversRules(w: World, above: Registry, rules: seq<Rule>, depth: nat, field: Dict)
    requires depth <= 2 && DecideRules(w.site, above, rules, depth, field).Hit?
    decreases 6 - 2 * depth, |rules| + 1
  {
    if DecideRule(w.site, above, rules[0], depth, field).Hit? then CoversRule(w, above, rules[0], depth, field)
    else CoversRules(w, above, rules[1..], depth, field)
  }

  predicate Covers(w: World, field: Dict)
    requires Decide(w.site, field).Hit?
  {
    CoversRules(w, [w.site.master.types], w.site.master.rules, 0, field)
  }

  // ----- The datum level -----

  /** The datum of three keys is in its index, and the index can find it: its axes
      have the datum's values, and no keyword that the datum lacks. */
  predicate Findable(index: Index, toKey: ToKey, registry: Registry, ps: seq<Pair>, data: Data)
  {
    && Fingerprint(toKey, registry, ps) in index.entries
    && index.entries[Fingerprint(toKey, registry, ps)] == data
    && AxesHave(index.axes, toKey, registry, DictOf(ps))
    && index.axes.Keys <= DictOf(ps).Keys
  }

  predicate AxesHave(axes: map<string, set<string>>, toKey: ToKey, registry: Registry, key: Dict)
  {
    forall k :: k in key ==> k in axes && Canonical(toKey, registry, (k, key[k])) in axes[k]
  }

  /** The axes find a key whose values they have exactly when they have no other
      keyword: an index with datums of different shapes hides the narrower ones. */
  lemma {:induction false} ContainsIffOneShape(axes: map<string, set<string>>, toKey: ToKey, registry: Registry, key: Dict)
    requires AxesHave(axes, toKey, registry, key)
    ensures Contains(axes, toKey, registry, key) <==> axes.Keys <= key.Keys
  {
  }

  /** A covered value is among the candidates when no axis stands against it. */
  lemma {:induction false} CoveredIsCandidate(w: World, s: Reader, registry: Registry, p: Predicate, v: string)
    requires Covered(w, registry, p, v)
    requires AxisOf(w, s, p.keyword).None? || Canonical(w.toKey, registry, (p.keyword, v)) in AxisOf(w, s, p.keyword).value
    ensures v in Candidates(w, s, registry, p)
  {
  }

  lemma {:induction false} DatumFound(w: World, above: Registry, rules: seq<Rule>, field: Dict, db: Dict, idx: Dict,
                                      ps: seq<Pair>, registry: Registry, data: Data, s: Reader)
    requires DecideRules(w.site, above, rules, 2, field) == Hit([ps], registry)
    requires CoversRules(w, above, rules, 2, field) && Distinct(Names(ps))
    requires s.threw.None? && s.db == Some(db) && db in s.selected && s.selected[db] == idx
    requires db in w.store && idx in w.store[db] && Findable(w.store[db][idx], w.toKey, registry, ps, data)
    requires ReadRules(w, above, rules, 2, s).threw.None?
    ensures Element(db, idx, Simplified(DictOf(ps)), data) in ReadRules(w, above, rules, 2, s).found
  {
    hide ReadFrom, Findable, Covered, Simplified, WalkField, DictOf;
    var rest := ReadFrom(w, [rules[0].types] + above, rules[0], 0, 2, [], s);
    RulesGrow(w, above, rules[1..], 2, rest);
    if DecideRule(w.site, above, rules[0], 2, field).Hit? {
      DatumRuleFinds(w, above, rules[0], field, db, idx, ps, registry, data, s);
    } else {
      FromGrows(w, [rules[0].types] + above, rules[0], 0, 2, [], s);
      DatumRuleKeepsView(w, [rules[0].types] + above, rules[0], s);
      DatumFound(w, above, rules[1..], field, db, idx, ps, registry, data, rest);
    }
  }

  /** The value lists of a rule in one state. */
  function ListsAt(w: World, registry: Registry, ps: seq<Predicate>, s: Reader): seq<seq<string>>
  {
    seq(|ps|, i requires 0 <= i < |ps| => Candidates(w, s, registry, ps[i]))
  }

  /** The lists only depend on the view. */
  lemma {:induction false} SteadyInView(w: World, registry: Registry, ps: seq<Predicate>, s: Reader)
    ensures Steady(w, registry, ps, ListsAt(w, registry, ps, s), Some(View(s.db, s.selected)))
  {
    forall i, t | 0 <= i < |ps| && InView(Some(View(s.db, s.selected)), t)
      ensures Candidates(w, t, registry, ps[i]) == ListsAt(w, registry, ps, s)[i]
    {
      assert AxisOf(w, t, ps[i].keyword) == AxisOf(w, s, ps[i].keyword);
    }
  }

  lemma {:induction false} DatumRuleKeepsView(w: World, registry: Registry, rule: Rule, s: Reader)
    ensures ReadFrom(w, registry, rule, 0, 2, [], s).selected == s.selected
    ensures ReadFrom(w, registry, rule, 0, 2, [], s).db == s.db
  {
    hide Candidates, Product, ReachAll, ReadFrom, Steady;
    var lists := ListsAt(w, registry, rule.predicates, s);
    SteadyInView(w, registry, rule.predicates, s);
    LevelIsProduct(w, registry, rule, 0, 2, [], lists, Some(View(s.db, s.selected)), s);
    ReachAllKeepsView(w, registry, rule, [], Product(rule.predicates[0..], lists[0..]), s);
  }

  lemma {:induction false} DatumRuleFinds(w: World, above: Registry, rule: Rule, field: Dict, db: Dict, idx: Dict,
                                          ps: seq<Pair>, registry: Registry, data: Data, s: Reader)
    requires DecideRule(w.site, above, rule, 2, field) == Hit([ps], registry)
    requires CoversRule(w, above, rule, 2, field) && Distinct(Names(ps))
    requires s.threw.None? && s.db == Some(db) && db in s.selected && s.selected[db] == idx
    requires db in w.store && idx in w.store[db] && Findable(w.store[db][idx], w.toKey, registry, ps, data)
    requires ReadFrom(w, [rule.types] + above, rule, 0, 2, [], s).threw.None?
    ensures Element(db, idx, Simplified(DictOf(ps)), data) in ReadFrom(w, [rule.types] + above, rule, 0, 2, [], s).found
  {
    hide Candidates, Product, ReachAll, ReadFrom, Steady, Covered, Fingerprint, Simplified, DictOf;
    var lists := ListsAt(w, registry, rule.predicates, s);
    forall i | 0 <= i < |ps|
      ensures ps[i].1 in lists[i]
    {
      DictOfLookup(ps, i);
      CoveredIsCandidate(w, s, registry, rule.predicates[i], ps[i].1);
    }
    SteadyInView(w, registry, rule.predicates, s);
    LevelIsProduct(w, registry, rule, 0, 2, [], lists, Some(View(s.db, s.selected)), s);
    ProductIsChoices(rule.predicates, lists, ps);
    assert rule.predicates[0..] == rule.predicates && lists[0..] == lists && [] + ps == ps;
    var mid := Visited(w, registry, rule, 2, [], Product(rule.predicates, lists), ps, s);
    ContainsIffOneShape(w.store[db][idx].axes, w.toKey, registry, DictOf(ps));
    assert Element(db, idx, Simplified(DictOf(ps)), data) in Reach(w, registry, rule, 2, ps, mid).found;
  }

  // ----- The index and database levels -----

  /** The axes of an index let a covered value through: they hold it, or they stand against
      every value that the request lists and the rule falls back to this one. */
  predicate Lets(w: World, registry: Registry, axes: map<string, set<string>>, p: Predicate, v: string)
  {
    p.keyword in axes ==>
      || Canonical(w.toKey, registry, (p.keyword, v)) in axes[p.keyword]
      || (p.matcher.Optional() && p.matcher.def == v &&
          forall u :: u in Listed(w, registry, p.keyword) ==> w.toKey(TypeOf(registry, p.keyword), u) !in axes[p.keyword])
  }

  function CurrentAxes(w: World, s: Reader): map<string, set<string>>
  {
    var index := CurrentIndex(w, s);
    if index.Some? then index.value.axes else map[]
  }

  /** A covered value is among the candidates exactly when the axes of the index that is
      selected let it through. */
  lemma {:induction false} CandidateIff(w: World, s: Reader, registry: Registry, p: Predicate, v: string)
    requires Covered(w, registry, p, v)
    ensures v in Candidates(w, s, registry, p) <==> Lets(w, registry, CurrentAxes(w, s), p, v)
  {
    var t := TypeOf(registry, p.keyword);
    var listed, axis := Listed(w, registry, p.keyword), AxisOf(w, s, p.keyword);
    var values := Values(w, s, registry, p.keyword);
    assert forall u :: u in values <==> u in listed && (axis.None? || w.toKey(t, u) in axis.value);
    if v in listed {
      assert Canonical(w.toKey, registry, (p.keyword, v)) == w.toKey(t, v);
    }
    if values != [] {
      assert values[0] in values;
    }
  }

  // ----- Which indexes can be selected -----

  /** For each database that can be current, the indexes that it can have selected. */
  type Scope = map<Dict, set<Dict>>

  predicate InScope(w: World, scope: Scope, s: Reader)
  {
    && (s.db.Some? && s.db.value in w.store ==> s.db.value in scope)
    && forall d :: d in s.selected && d in scope && d in w.store && s.selected[d] in w.store[d] ==> s.selected[d] in scope[d]
  }

  function Only(scope: Scope, db: Dict): Scope
  {
    map d | d in scope && d == db :: scope[d]
  }

  /** Every database and index of the store. */
  function Everything(w: World): Scope
  {
    map d | d in w.store :: w.store[d].Keys
  }

  /** A value that the walk over a predicate may run through. */
  predicate Offered(w: World, registry: Registry, p: Predicate, v: string)
  {
    v in Listed(w, registry, p.keyword) || (p.matcher.Optional() && v == p.matcher.def)
  }

  /** Pairs that the walk over a rule may have pushed. */
  predicate MayPush(w: World, registry: Registry, ps: seq<Predicate>, pairs: seq<Pair>)
  {
    && |pairs| <= |ps|
    && forall i :: 0 <= i < |pairs| ==>
         pairs[i].0 == ps[i].keyword && ps[i].matcher.Accepts(pairs[i].1) && Offered(w, registry, ps[i], pairs[i].1)
  }

  /** A rule may name this key, for this request. */
  ghost predicate MayName(w: World, registry: Registry, rule: Rule, key: Dict)
  {
    exists t :: |t| == |rule.predicates| && MayPush(w, registry, rule.predicates, t) && DictOf(t) == key
  }

  /** An index rule below a database leads out of the scope to no index of that database. */
  ghost predicate IndexStays(w: World, registry: Registry, rule: Rule, db: Dict, scope: Scope)
  {
    db in scope && db in w.store ==> forall key :: key in w.store[db] && MayName(w, registry, rule, key) ==> key in scope[db]
  }

  ghost predicate IndexesStay(w: World, above: Registry, rules: seq<Rule>, db: Dict, scope: Scope)
  {
    forall r :: r in rules ==> IndexStays(w, [r.types] + above, r, db, scope)
  }

  /** A database rule leads out of the scope to no database, nor do the rules below those;
      the database of the field itself is left to its own entry. */
  ghost predicate DatabaseStays(w: World, registry: Registry, rule: Rule, own: Dict, scope: Scope)
  {
    forall key :: MayName(w, registry, rule, key) && key != own ==> (key in w.store ==> key in scope) && BelowStays(w, key, scope)
  }

  ghost predicate BelowStays(w: World, key: Dict, scope: Scope)
  {
    var schema := w.site.schemaOf(key);
    match FirstMatch(schema.rules, key)
    case None => true
    case Some(dbRule) => IndexesStay(w, [dbRule.types, schema.types], dbRule.rules, key, scope)
  }

  ghost predicate Stays(w: World, registry: Registry, rule: Rule, depth: nat, db: Option<Dict>, scope: Scope)
  {
    depth == 1 && db.Some? ==> IndexStays(w, registry, rule, db.value, scope)
  }

  lemma {:induction false} CandidatesOffered(w: World, s: Reader, registry: Registry, p: Predicate)
    ensures forall v :: v in Candidates(w, s, registry, p) ==> Offered(w, registry, p, v)
  {
    hide Listed;
  }

  lemma {:induction false} OneMore(w: World, registry: Registry, ps: seq<Predicate>, done: seq<Pair>, v: string)
    requires MayPush(w, registry, ps, done) && |done| < |ps|
    requires ps[|done|].matcher.Accepts(v) && Offered(w, registry, ps[|done|], v)
    ensures MayPush(w, registry, ps, done + [(ps[|done|].keyword, v)])
  {
    hide Offered;
  }

  /** Below a database, the walk over a rule stays in a scope that the rule does not lead out of. */
  lemma {:induction false} FromStays(w: World, registry: Registry, rule: Rule, cur: nat, depth: nat, done: seq<Pair>, s: Reader, scope: Scope)
    requires 1 <= depth <= 2 && cur <= |rule.predicates| && |done| == cur && MayPush(w, registry, rule.predicates, done)
    requires InScope(w, scope, s) && Stays(w, registry, rule, depth, s.db, scope)
    ensures InScope(w, scope, ReadFrom(w, registry, rule, cur, depth, done, s))
    decreases 3 - depth, 1, |rule.predicates| - cur, 1, 0
  {
    hide Candidates, Reach, ReadValues, InScope, Stays, MayPush, Offered;
    if s.threw.None? {
      if cur == |rule.predicates| {
        ReachStays(w, registry, rule, depth, done, s, scope);
      } else {
        CandidatesOffered(w, s, registry, rule.predicates[cur]);
        ValuesStay(w, registry, rule, cur, depth, done, Candidates(w, s, registry, rule.predicates[cur]), s, scope);
      }
    }
  }

  lemma {:induction false} ValuesStay(w: World, registry: Registry, rule: Rule, cur: nat, depth: nat, done: seq<Pair>, values: seq<string>, s: Reader, scope: Scope)
    requires 1 <= depth <= 2 && cur < |rule.predicates| && |done| == cur && MayPush(w, registry, rule.predicates, done)
    requires forall v :: v in values ==> Offered(w, registry, rule.predicates[cur], v)
    requires InScope(w, scope, s) && Stays(w, registry, rule, depth, s.db, scope)
    ensures InScope(w, scope, ReadValues(w, registry, rule, cur, depth, done, values, s))
    decreases 3 - depth, 1, |rule.predicates| - cur, 0, |values|
  {
    hide Candidates, Reach, ReadFrom, InScope, MayPush, Offered;
    if values != [] && s.threw.None? {
      var p := rule.predicates[cur];
      var longer := done + [(p.keyword, values[0])];
      var after := if p.matcher.Accepts(values[0]) then ReadFrom(w, registry, rule, cur + 1, depth, longer, s) else s;
      assert values[0] in values;
      if p.matcher.Accepts(values[0]) {
        OneMore(w, registry, rule.predicates, done, values[0]);
        FromStays(w, registry, rule, cur + 1, depth, longer, s, scope);
        FromGrows(w, registry, rule, cur + 1, depth, longer, s);
      }
      ValuesStay(w, registry, rule, cur, depth, done, values[1..], after, scope);
    }
  }

  lemma {:induction false} ReachStays(w: World, registry: Registry, rule: Rule, depth: nat, ps: seq<Pair>, s: Reader, scope: Scope)
    requires 1 <= depth <= 2 && |ps| == |rule.predicates| && MayPush(w, registry, rule.predicates, ps)
    requires InScope(w, scope, s) && Stays(w, registry, rule, depth, s.db, scope)
    ensures InScope(w, scope, Reach(w, registry, rule, depth, ps, s))
    decreases 3 - depth, 0, 0, 0, 0
  {
    hide ReadRules, MayPush, DictOf;
    assert MayName(w, registry, rule, DictOf(ps));
    if depth == 2 {
      ReachKeepsView(w, registry, rule, ps, s);
    } else if s.threw.None? && rule.rules != [] {
      if s.db.Some? {
        var (entered, ok) := SelectIndex(w, s, DictOf(ps));
        assert InScope(w, scope, entered);
        if ok {
          RulesStay(w, registry, rule.rules, 2, entered, scope);
        }
      }
    }
  }

  lemma {:induction false} SecondStays(w: World, key: Dict, s: Reader, scope: Scope)
    requires InScope(w, scope, s) && s.db == Some(key) && BelowStays(w, key, scope)
    ensures InScope(w, scope, ReadSecond(w, key, s))
    decreases 2, 3, 0, 0, 0
  {
    hide ReadRules, IndexesStay;
    var schema := w.site.schemaOf(key);
    var dbRule := FirstMatch(schema.rules, key);
    if dbRule.Some? {
      RulesStay(w, [dbRule.value.types, schema.types], dbRule.value.rules, 1, s, scope);
    }
  }

  lemma {:induction false} RulesStay(w: World, above: Registry, rules: seq<Rule>, depth: nat, s: Reader, scope: Scope)
    requires 1 <= depth <= 2 && InScope(w, scope, s) && s.db.Some?
    requires depth == 1 ==> IndexesStay(w, above, rules, s.db.value, scope)
    ensures InScope(w, scope, ReadRules(w, above, rules, depth, s))
    decreases 3 - depth, 2, |rules|, 0, 0
  {
    hide ReadFrom, InScope, IndexStays;
    if rules != [] && s.threw.None? {
      var registry := [rules[0].types] + above;
      assert rules[0] in rules;
      NothingPushed(w, registry, rules[0].predicates);
      FromStays(w, registry, rules[0], 0, depth, [], s, scope);
      FromGrows(w, registry, rules[0], 0, depth, [], s);
      RulesStay(w, above, rules[1..], depth, ReadFrom(w, registry, rules[0], 0, depth, [], s), scope);
    }
  }

  lemma {:induction false} NothingPushed(w: World, registry: Registry, ps: seq<Predicate>)
    ensures MayPush(w, registry, ps, [])
  {
  }

  /** Every index of a scope lets the pairs of a rule through. */
  predicate Admits(w: World, registry: Registry, ps: seq<Predicate>, pairs: seq<Pair>, scope: Scope)
    requires |ps| == |pairs|
  {
    forall db, idx, i :: db in scope && idx in scope[db] && db in w.store && idx in w.store[db] && 0 <= i < |ps| ==>
      Lets(w, registry, w.store[db][idx].axes, ps[i], pairs[i].1)
  }

  lemma {:induction false} AdmittedIsCandidate(w: World, s: Reader, registry: Registry, ps: seq<Predicate>, pairs: seq<Pair>, i: nat, scope: Scope)
    requires |ps| == |pairs| && i < |ps| && Admits(w, registry, ps, pairs, scope) && Covered(w, registry, ps[i], pairs[i].1)
    requires InScope(w, scope, s)
    ensures pairs[i].1 in Candidates(w, s, registry, ps[i])
  {
    hide Lets, Covered, Candidates;
    CandidateIff(w, s, registry, ps[i], pairs[i].1);
    if CurrentIndex(w, s).None? {
      NoAxes(w, registry, ps[i], pairs[i].1);
    }
  }

  lemma {:induction false} NoAxes(w: World, registry: Registry, p: Predicate, v: string)
    ensures Lets(w, registry, map[], p, v)
  {
  }

  /** The pairs of a tuple that a rule takes, each covered by the request. */
  predicate Fits(w: World, registry: Registry, ps: seq<Predicate>, pairs: seq<Pair>)
  {
    && |pairs| == |ps|
    && forall i :: 0 <= i < |ps| ==>
         pairs[i].0 == ps[i].keyword && ps[i].matcher.Accepts(pairs[i].1) && Covered(w, registry, ps[i], pairs[i].1)
  }

  /** The tuples that the walk over a rule gets to, in order. */
  function TriedFrom(w: World, registry: Registry, rule: Rule, cur: nat, depth: nat, done: seq<Pair>, s: Reader): seq<seq<Pair>>
    requires depth <= 2 && cur <= |rule.predicates|
    decreases |rule.predicates| - cur, 1, 0
  {
    if s.threw.Some? then []
    else if cur == |rule.predicates| then [done]
    else TriedValues(w, registry, rule, cur, depth, done, Candidates(w, s, registry, rule.predicates[cur]), s)
  }

  function TriedValues(w: World, registry: Registry, rule: Rule, cur: nat, depth: nat, done: seq<Pair>, values: seq<string>, s: Reader): seq<seq<Pair>>
    requires depth <= 2 && cur < |rule.predicates|
    decreases |rule.predicates| - cur, 0, |values|
  {
    if values == [] || s.threw.Some? then []
    else
      var p := rule.predicates[cur];
      if !p.matcher.Accepts(values[0]) then TriedValues(w, registry, rule, cur, depth, done, values[1..], s)
      else
        var longer := done + [(p.keyword, values[0])];
        TriedFrom(w, registry, rule, cur + 1, depth, longer, s) +
        TriedValues(w, registry, rule, cur, depth, done, values[1..], ReadFrom(w, registry, rule, cur + 1, depth, longer, s))
  }

  lemma {:induction false} FitsMayPush(w: World, registry: Registry, ps: seq<Predicate>, pairs: seq<Pair>, cur: nat)
    requires Fits(w, registry, ps, pairs) && cur <= |ps|
    ensures MayPush(w, registry, ps, pairs[..cur])
  {
    hide Listed;
  }

  /** Every index of the scope admits the tuple: below a database the walk gets to it from any
      state in scope, whichever indexes are selected on the way. */
  lemma {:induction false} AdmittedIsTried(w: World, registry: Registry, rule: Rule, cur: nat, depth: nat, pairs: seq<Pair>, s: Reader, scope: Scope)
    requires 1 <= depth <= 2 && cur <= |rule.predicates| && Fits(w, registry, rule.predicates, pairs)
    requires Admits(w, registry, rule.predicates, pairs, scope)
    requires InScope(w, scope, s) && Stays(w, registry, rule, depth, s.db, scope)
    requires ReadFrom(w, registry, rule, cur, depth, pairs[..cur], s).threw.None?
    ensures pairs in TriedFrom(w, registry, rule, cur, depth, pairs[..cur], s)
    decreases |rule.predicates| - cur, 1, 0
  {
    hide Candidates, Reach, ReadValues, Covered, Admits, TriedValues, InScope, Stays, Offered;
    if cur == |rule.predicates| {
      assert pairs[..cur] == pairs;
      FromGrows(w, registry, rule, cur, depth, pairs, s);
    } else {
      AdmittedIsCandidate(w, s, registry, rule.predicates, pairs, cur, scope);
      CandidatesOffered(w, s, registry, rule.predicates[cur]);
      AdmittedValueIsTried(w, registry, rule, cur, depth, pairs, Candidates(w, s, registry, rule.predicates[cur]), s, scope);
    }
  }

  lemma {:induction false} AdmittedValueIsTried(w: World, registry: Registry, rule: Rule, cur: nat, depth: nat, pairs: seq<Pair>, values: seq<string>, s: Reader, scope: Scope)
    requires 1 <= depth <= 2 && cur < |rule.predicates| && Fits(w, registry, rule.predicates, pairs)
    requires Admits(w, registry, rule.predicates, pairs, scope) && pairs[cur].1 in values
    requires InScope(w, scope, s) && Stays(w, registry, rule, depth, s.db, scope)
    requires forall v :: v in values ==> Offered(w, registry, rule.predicates[cur], v)
    requires ReadValues(w, registry, rule, cur, depth, pairs[..cur], values, s).threw.None?
    ensures pairs in TriedValues(w, registry, rule, cur, depth, pairs[..cur], values, s)
    decreases |rule.predicates| - cur, 0, |values|
  {
    hide Candidates, Reach, ReadFrom, Covered, Admits, TriedFrom, InScope, Offered, Fits;
    assert |pairs| == |rule.predicates| && rule.predicates[cur].keyword == pairs[cur].0 && rule.predicates[cur].matcher.Accepts(pairs[cur].1) by { FitsAt(w, registry, rule.predicates, pairs, cur); }
    var p, v := rule.predicates[cur], values[0];
    var after := if p.matcher.Accepts(v) then ReadFrom(w, registry, rule, cur + 1, depth, pairs[..cur] + [(p.keyword, v)], s) else s;
    ValuesGrow(w, registry, rule, cur, depth, pairs[..cur], values[1..], after);
    if v == pairs[cur].1 {
      assert pairs[..cur] + [(p.keyword, v)] == pairs[..cur + 1];
      AdmittedIsTried(w, registry, rule, cur + 1, depth, pairs, s, scope);
    } else {
      FitsMayPush(w, registry, rule.predicates, pairs, cur);
      OneValueStays(w, registry, rule, cur, depth, pairs[..cur], v, s, scope);
      AdmittedValueIsTried(w, registry, rule, cur, depth, pairs, values[1..], after, scope);
    }
  }

  lemma {:induction false} FitsAt(w: World, registry: Registry, ps: seq<Predicate>, pairs: seq<Pair>, i: nat)
    requires Fits(w, registry, ps, pairs) && i < |ps|
    ensures |pairs| == |ps| && pairs[i].0 == ps[i].keyword && ps[i].matcher.Accepts(pairs[i].1)
  {
  }

  /** The state after one value of a predicate. */
  lemma {:induction false} OneValueStays(w: World, registry: Registry, rule: Rule, cur: nat, depth: nat, done: seq<Pair>, v: string, s: Reader, scope: Scope)
    requires 1 <= depth <= 2 && cur < |rule.predicates| && |done| == cur && MayPush(w, registry, rule.predicates, done)
    requires Offered(w, registry, rule.predicates[cur], v)
    requires InScope(w, scope, s) && Stays(w, registry, rule, depth, s.db, scope)
    ensures var p := rule.predicates[cur];
            var after := if p.matcher.Accepts(v) then ReadFrom(w, registry, rule, cur + 1, depth, done + [(p.keyword, v)], s) else s;
            InScope(w, scope, after) && Stays(w, registry, rule, depth, after.db, scope)
  {
    hide Candidates, Reach, ReadFrom, InScope, Offered, MayPush;
    var p := rule.predicates[cur];
    if p.matcher.Accepts(v) {
      OneMore(w, registry, rule.predicates, done, v);
      FromStays(w, registry, rule, cur + 1, depth, done + [(p.keyword, v)], s, scope);
      FromGrows(w, registry, rule, cur + 1, depth, done + [(p.keyword, v)], s);
    }
  }

  /** A tuple that the walk gets to has its turn in some state, and its hits are kept. */
  lemma {:induction false} TriedIsVisited(w: World, registry: Registry, rule: Rule, cur: nat, depth: nat, done: seq<Pair>, s: Reader, t: seq<Pair>, scope: Scope) returns (mid: Reader)
    requires depth == 1 && cur <= |rule.predicates| && t in TriedFrom(w, registry, rule, cur, depth, done, s)
    requires |done| == cur && MayPush(w, registry, rule.predicates, done)
    requires InScope(w, scope, s) && Stays(w, registry, rule, depth, s.db, scope)
    requires ReadFrom(w, registry, rule, cur, depth, done, s).threw.None?
    ensures mid.threw.None? && Reach(w, registry, rule, depth, t, mid).threw.None? && InScope(w, scope, mid)
    ensures Reach(w, registry, rule, depth, t, mid).found <= ReadFrom(w, registry, rule, cur, depth, done, s).found
    ensures mid.db == s.db
    decreases |rule.predicates| - cur, 1, 0
  {
    hide Candidates, Reach, ReadValues, TriedValues, InScope, Stays, Offered, MayPush;
    if cur == |rule.predicates| {
      mid := s;
    } else {
      CandidatesOffered(w, s, registry, rule.predicates[cur]);
      mid := TriedValueIsVisited(w, registry, rule, cur, depth, done, Candidates(w, s, registry, rule.predicates[cur]), s, t, scope);
    }
  }

  lemma {:induction false} TriedValueIsVisited(w: World, registry: Registry, rule: Rule, cur: nat, depth: nat, done: seq<Pair>, values: seq<string>, s: Reader, t: seq<Pair>, scope: Scope) returns (mid: Reader)
    requires depth == 1 && cur < |rule.predicates| && t in TriedValues(w, registry, rule, cur, depth, done, values, s)
    requires |done| == cur && MayPush(w, registry, rule.predicates, done)
    requires forall v :: v in values ==> Offered(w, registry, rule.predicates[cur], v)
    requires InScope(w, scope, s) && Stays(w, registry, rule, depth, s.db, scope)
    requires ReadValues(w, registry, rule, cur, depth, done, values, s).threw.None?
    ensures mid.threw.None? && Reach(w, registry, rule, depth, t, mid).threw.None? && InScope(w, scope, mid)
    ensures Reach(w, registry, rule, depth, t, mid).found <= ReadValues(w, registry, rule, cur, depth, done, values, s).found
    ensures mid.db == s.db
    decreases |rule.predicates| - cur, 0, |values|
  {
    hide Candidates, Reach, ReadFrom, TriedFrom, InScope, Offered, MayPush;
    var p, v := rule.predicates[cur], values[0];
    var longer := done + [(p.keyword, v)];
    var after := if p.matcher.Accepts(v) then ReadFrom(w, registry, rule, cur + 1, depth, longer, s) else s;
    assert v in values;
    ValuesGrow(w, registry, rule, cur, depth, done, values[1..], after);
    if p.matcher.Accepts(v) && t in TriedFrom(w, registry, rule, cur + 1, depth, longer, s) {
      OneMore(w, registry, rule.predicates, done, v);
      mid := TriedIsVisited(w, registry, rule, cur + 1, depth, longer, s, t, scope);
    } else {
      if p.matcher.Accepts(v) {
        FromGrows(w, registry, rule, cur + 1, depth, longer, s);
      }
      OneValueStays(w, registry, rule, cur, depth, done, v, s, scope);
      mid := TriedValueIsVisited(w, registry, rule, cur, depth, done, values[1..], after, t, scope);
    }
  }

  // ----- Exactly when a tuple is tried -----

  /** The request lists nothing but the values of the tuple. */
  predicate Alone(w: World, registry: Registry, ps: seq<Predicate>, pairs: seq<Pair>)
    requires |ps| == |pairs|
  {
    forall i :: 0 <= i < |ps| ==> Listed(w, registry, ps[i].keyword) in {[pairs[i].1], []}
  }

  predicate AllLet(w: World, registry: Registry, axes: map<string, set<string>>, ps: seq<Predicate>, pairs: seq<Pair>, cur: nat)
    requires |ps| == |pairs|
  {
    forall i :: cur <= i < |ps| ==> Lets(w, registry, axes, ps[i], pairs[i].1)
  }

  lemma {:induction false} TriedExtend(w: World, registry: Registry, rule: Rule, cur: nat, depth: nat, done: seq<Pair>, s: Reader, t: seq<Pair>)
    requires depth <= 2 && cur <= |rule.predicates| && t in TriedFrom(w, registry, rule, cur, depth, done, s)
    ensures done <= t
    decreases |rule.predicates| - cur, 1, 0
  {
    hide Candidates, TriedValues;
    if cur < |rule.predicates| {
      TriedValuesExtend(w, registry, rule, cur, depth, done, Candidates(w, s, registry, rule.predicates[cur]), s, t);
    }
  }

  lemma {:induction false} TriedValuesExtend(w: World, registry: Registry, rule: Rule, cur: nat, depth: nat, done: seq<Pair>, values: seq<string>, s: Reader, t: seq<Pair>)
    requires depth <= 2 && cur < |rule.predicates| && t in TriedValues(w, registry, rule, cur, depth, done, values, s)
    ensures exists v :: v in values && done + [(rule.predicates[cur].keyword, v)] <= t
    decreases |rule.predicates| - cur, 0, |values|
  {
    hide Candidates, TriedFrom;
    var p, v := rule.predicates[cur], values[0];
    var longer := done + [(p.keyword, v)];
    if p.matcher.Accepts(v) && t in TriedFrom(w, registry, rule, cur + 1, depth, longer, s) {
      TriedExtend(w, registry, rule, cur + 1, depth, longer, s, t);
    } else {
      var after := if p.matcher.Accepts(v) then ReadFrom(w, registry, rule, cur + 1, depth, longer, s) else s;
      TriedValuesExtend(w, registry, rule, cur, depth, done, values[1..], after, t);
    }
  }

  /** For a request of one tuple alone, the walk over its rule gets to the tuple exactly when
      the axes of the index that is selected at that moment let all of its values through. */
  lemma {:induction false} AloneIsTried(w: World, registry: Registry, rule: Rule, cur: nat, depth: nat, pairs: seq<Pair>, s: Reader)
    requires depth <= 1 && cur <= |rule.predicates| && Fits(w, registry, rule.predicates, pairs)
    requires Alone(w, registry, rule.predicates, pairs) && s.threw.None?
    ensures pairs in TriedFrom(w, registry, rule, cur, depth, pairs[..cur], s) <==>
            AllLet(w, registry, CurrentAxes(w, s), rule.predicates, pairs, cur)
    decreases |rule.predicates| - cur
  {
    hide Candidates, Reach, ReadFrom, Covered, Lets, Listed, CurrentAxes;
    if cur == |rule.predicates| {
      assert pairs[..cur] == pairs;
    } else {
      var p, v := rule.predicates[cur], pairs[cur].1;
      var values := Candidates(w, s, registry, p);
      CandidateIff(w, s, registry, p, v);
      AtMostOne(w, s, registry, p, v);
      assert values == [v] ==> [v][1..] == [];
      if v in values {
        assert values == [v] && pairs[..cur] + [(p.keyword, v)] == pairs[..cur + 1];
        AloneIsTried(w, registry, rule, cur + 1, depth, pairs, s);
        TriedOne(w, registry, rule, cur, depth, pairs[..cur], v, s);
      } else if pairs in TriedFrom(w, registry, rule, cur, depth, pairs[..cur], s) {
        ChosenIsListed(w, registry, rule, cur, depth, pairs, values, s);
      }
    }
  }

  lemma {:induction false} ChosenIsListed(w: World, registry: Registry, rule: Rule, cur: nat, depth: nat, pairs: seq<Pair>, values: seq<string>, s: Reader)
    requires depth <= 2 && cur < |rule.predicates| && cur < |pairs|
    requires pairs in TriedValues(w, registry, rule, cur, depth, pairs[..cur], values, s)
    ensures pairs[cur].1 in values
  {
    hide TriedValues;
    TriedValuesExtend(w, registry, rule, cur, depth, pairs[..cur], values, s, pairs);
    var u :| u in values && pairs[..cur] + [(rule.predicates[cur].keyword, u)] <= pairs;
    assert (pairs[..cur] + [(rule.predicates[cur].keyword, u)])[cur] == pairs[cur];
  }

  lemma {:induction false} TriedOne(w: World, registry: Registry, rule: Rule, cur: nat, depth: nat, done: seq<Pair>, v: string, s: Reader)
    requires depth <= 1 && cur < |rule.predicates| && s.threw.None? && rule.predicates[cur].matcher.Accepts(v)
    ensures TriedValues(w, registry, rule, cur, depth, done, [v], s) ==
            TriedFrom(w, registry, rule, cur + 1, depth, done + [(rule.predicates[cur].keyword, v)], s)
  {
    hide TriedFrom, ReadFrom;
    assert [v][1..] == [];
  }

  lemma {:induction false} AtMostOne(w: World, s: Reader, registry: Registry, p: Predicate, v: string)
    requires Listed(w, registry, p.keyword) in {[v], []} && Covered(w, registry, p, v)
    ensures v in Candidates(w, s, registry, p) ==> Candidates(w, s, registry, p) == [v]
  {
    hide Listed;
    var values := Values(w, s, registry, p.keyword);
    if values != [] {
      assert values[0] in values && values == [values[0]];
    }
  }

  /** The condition is exact: for a request of one tuple alone, the walk over its rule gets to
      the tuple from every state in scope if and only if every index of the scope admits it. */
  lemma {:induction false} TriedFromAnyState(w: World, registry: Registry, rule: Rule, depth: nat, pairs: seq<Pair>, scope: Scope)
    requires depth <= 1 && Fits(w, registry, rule.predicates, pairs) && Alone(w, registry, rule.predicates, pairs)
    ensures (forall s: Reader :: s.threw.None? && InScope(w, scope, s) ==> pairs in TriedFrom(w, registry, rule, 0, depth, [], s)) <==>
            Admits(w, registry, rule.predicates, pairs, scope)
  {
    hide TriedFrom, Lets, Alone, Covered, CurrentAxes, InScope;
    assert pairs[..0] == [];
    forall s: Reader | s.threw.None?
      ensures pairs in TriedFrom(w, registry, rule, 0, depth, [], s) <==>
              AllLet(w, registry, CurrentAxes(w, s), rule.predicates, pairs, 0)
    {
      AloneIsTried(w, registry, rule, 0, depth, pairs, s);
    }
    forall s: Reader | InScope(w, scope, s) && Admits(w, registry, rule.predicates, pairs, scope)
      ensures AllLet(w, registry, CurrentAxes(w, s), rule.predicates, pairs, 0)
    {
      AdmitsAnywhere(w, registry, rule.predicates, pairs, s, scope);
    }
    if forall s: Reader :: s.threw.None? && InScope(w, scope, s) ==> pairs in TriedFrom(w, registry, rule, 0, depth, [], s) {
      forall db, idx, i | db in scope && idx in scope[db] && db in w.store && idx in w.store[db] && 0 <= i < |pairs|
        ensures Lets(w, registry, w.store[db][idx].axes, rule.predicates[i], pairs[i].1)
      {
        var s := Reader(Some(db), [db], map[db := idx], [], None);
        AxesOfSelected(w, s, db, idx, scope);
        assert AllLet(w, registry, CurrentAxes(w, s), rule.predicates, pairs, 0);
      }
    }
  }

  /** Below a database rule only its database is current: there the condition is on that
      database alone, and again exact. */
  lemma {:induction false} TriedBelowDatabase(w: World, registry: Registry, rule: Rule, pairs: seq<Pair>, db: Dict, scope: Scope)
    requires Fits(w, registry, rule.predicates, pairs) && Alone(w, registry, rule.predicates, pairs) && db in scope
    ensures (forall s: Reader :: s.threw.None? && s.db == Some(db) && InScope(w, scope, s) ==> pairs in TriedFrom(w, registry, rule, 0, 1, [], s)) <==>
            Admits(w, registry, rule.predicates, pairs, Only(scope, db))
  {
    hide TriedFrom, Lets, Alone, Covered, CurrentAxes, InScope, Fits;
    assert |pairs| == |rule.predicates| by { FitsLength(w, registry, rule.predicates, pairs); }
    assert pairs[..0] == [];
    forall s: Reader | s.threw.None? && s.db == Some(db)
      ensures pairs in TriedFrom(w, registry, rule, 0, 1, [], s) <==>
              AllLet(w, registry, CurrentAxes(w, s), rule.predicates, pairs, 0)
    {
      AloneIsTried(w, registry, rule, 0, 1, pairs, s);
    }
    forall s: Reader | InScope(w, scope, s) && s.db == Some(db) && Admits(w, registry, rule.predicates, pairs, Only(scope, db))
      ensures AllLet(w, registry, CurrentAxes(w, s), rule.predicates, pairs, 0)
    {
      InOnly(w, scope, s, db);
      AdmitsAnywhere(w, registry, rule.predicates, pairs, s, Only(scope, db));
    }
    if forall s: Reader :: s.threw.None? && s.db == Some(db) && InScope(w, scope, s) ==> pairs in TriedFrom(w, registry, rule, 0, 1, [], s) {
      forall idx, i | idx in scope[db] && db in w.store && idx in w.store[db] && 0 <= i < |pairs|
        ensures Lets(w, registry, w.store[db][idx].axes, rule.predicates[i], pairs[i].1)
      {
        var s := Reader(Some(db), [db], map[db := idx], [], None);
        AxesOfSelected(w, s, db, idx, scope);
        assert AllLet(w, registry, CurrentAxes(w, s), rule.predicates, pairs, 0);
      }
    }
  }

  lemma {:induction false} FitsLength(w: World, registry: Registry, ps: seq<Predicate>, pairs: seq<Pair>)
    requires Fits(w, registry, ps, pairs)
    ensures |pairs| == |ps|
  {
  }

  lemma {:induction false} InOnly(w: World, scope: Scope, s: Reader, db: Dict)
    requires InScope(w, scope, s) && s.db == Some(db)
    ensures InScope(w, Only(scope, db), s)
  {
  }

  lemma {:induction false} AxesOfSelected(w: World, s: Reader, db: Dict, idx: Dict, scope: Scope)
    requires s.db == Some(db) && s.selected == map[db := idx] && db in w.store && idx in w.store[db]
    requires db in scope && idx in scope[db]
    ensures CurrentAxes(w, s) == w.store[db][idx].axes && InScope(w, scope, s)
  {
  }

  lemma {:induction false} AdmitsAnywhere(w: World, registry: Registry, ps: seq<Predicate>, pairs: seq<Pair>, s: Reader, scope: Scope)
    requires |ps| == |pairs| && Admits(w, registry, ps, pairs, scope) && InScope(w, scope, s)
    ensures AllLet(w, registry, CurrentAxes(w, s), ps, pairs, 0)
  {
    hide Lets;
    if CurrentIndex(w, s).None? {
      forall i | 0 <= i < |ps|
        ensures Lets(w, registry, map[], ps[i], pairs[i].1)
      {
        NoAxes(w, registry, ps[i], pairs[i].1);
      }
    }
  }

  // ----- The scope of a retrieval, as far as it matters to a field -----

  /** The rules up to the one that decides. */
  function Upto(w: World, above: Registry, rules: seq<Rule>, depth: nat, field: Dict): seq<Rule>
    requires depth <= 2 && DecideRules(w.site, above, rules, depth, field).Hit?
    decreases |rules|
  {
    if DecideRule(w.site, above, rules[0], depth, field).Hit? then [rules[0]]
    else [rules[0]] + Upto(w, above, rules[1..], depth, field)
  }

  function Outside(scope: Scope, db: Dict): Scope
  {
    map d | d in scope && d != db :: scope[d]
  }

  /** The indexes of a database that can be selected while some rules below it are walked for
      the first time: one that was selected before, and those that the rules may name. */
  ghost function OwnScope(w: World, above: Registry, rules: seq<Rule>, db: Dict, scope: Scope): Scope
  {
    map d | d in scope && d == db ::
      set i | d in w.store && i in w.store[d] && (i in scope[d] || MayNameAny(w, above, rules, i))
  }

  ghost predicate MayNameAny(w: World, above: Registry, rules: seq<Rule>, key: Dict)
  {
    exists r :: r in rules && MayName(w, [r.types] + above, r, key)
  }

  /** Along the decision for a field: every index of another database that can be selected
      while its database rule is walked admits its database pairs, and every index of its own
      database that can be selected before its index rule has been walked admits its index
      pairs. */
  ghost predicate AdmittedRule(w: World, above: Registry, rule: Rule, depth: nat, field: Dict, scope: Scope)
    requires depth <= 2 && DecideRule(w.site, above, rule, depth, field).Hit?
    decreases 6 - 2 * depth, 0
  {
    var registry := [rule.types] + above;
    var ps := WalkField(rule.predicates, field).pairs;
    match depth
    case 0 =>
      var own := DictOf(ps);
      var schema := w.site.schemaOf(own);
      var dbRule := FirstMatch(schema.rules, own).value;
      var below := [dbRule.types, schema.types];
      && Admits(w, registry, rule.predicates, ps, Outside(scope, own))
      && AdmittedRules(w, below, dbRule.rules, 1, field, OwnScope(w, below, Upto(w, below, dbRule.rules, 1, field), own, scope))
    case 1 => Admits(w, registry, rule.predicates, ps, scope)
    case _ => true
  }

  ghost predicate AdmittedRules(w: World, above: Registry, rules: seq<Rule>, depth: nat, field: Dict, scope: Scope)
    requires depth <= 2 && DecideRules(w.site, above, rules, depth, field).Hit?
    decreases 6 - 2 * depth, |rules| + 1
  {
    if DecideRule(w.site, above, rules[0], depth, field).Hit? then AdmittedRule(w, above, rules[0], depth, field, scope)
    else AdmittedRules(w, above, rules[1..], depth, field, scope)
  }

  /** An index rule of the database's own schema may name the index. */
  ghost predicate MaySelect(w: World, db: Dict, idx: Dict)
  {
    var schema := w.site.schemaOf(db);
    match FirstMatch(schema.rules, db)
    case None => false
    case Some(dbRule) => MayNameAny(w, [dbRule.types, schema.types], dbRule.rules, idx)
  }

  /** The databases that the rules up to the field's own may name for the request, each with
      the indexes that the request may name in it and the one that an earlier retrieval left
      selected; the field's own database with the latter only, since it has not been entered. */
  ghost function ScopeOf(w: World, before: Opened, field: Dict): Scope
    requires Decide(w.site, field).Hit?
  {
    var own := DictOf(Decide(w.site, field).keys[0]);
    var master := w.site.master;
    map d | d in w.store && (d == own || MayNameAny(w, [master.types], Upto(w, [master.types], master.rules, 0, field), d)) ::
      set i | i in w.store[d] && ((d in before.selected && before.selected[d] == i) || (d != own && MaySelect(w, d, i)))
  }

  ghost predicate Admitted(w: World, before: Opened, field: Dict)
    requires Decide(w.site, field).Hit?
  {
    AdmittedRules(w, [w.site.master.types], w.site.master.rules, 0, field, ScopeOf(w, before, field))
  }

  /** A retrieval begins in its scope, and its rules do not lead out of it. */
  lemma {:induction false} ScopeStays(w: World, before: Opened, field: Dict)
    requires Decide(w.site, field).Hit?
    ensures InScope(w, ScopeOf(w, before, field), Fresh(before))
    ensures forall r :: r in Upto(w, [w.site.master.types], w.site.master.rules, 0, field) ==>
              DatabaseStays(w, [r.types] + [w.site.master.types], r, DictOf(Decide(w.site, field).keys[0]), ScopeOf(w, before, field))
  {
    hide MayName, DecideRules, Upto, MaySelect, DictOf;
    var above, scope := [w.site.master.types], ScopeOf(w, before, field);
    var rules := Upto(w, above, w.site.master.rules, 0, field);
    forall r, key | r in rules && MayName(w, [r.types] + above, r, key) && key != DictOf(Decide(w.site, field).keys[0])
      ensures (key in w.store ==> key in scope) && BelowStays(w, key, scope)
    {
      assert MayNameAny(w, above, rules, key);
      ScopeStaysBelow(w, before, field, key);
    }
  }

  lemma {:induction false} ScopeStaysBelow(w: World, before: Opened, field: Dict, key: Dict)
    requires Decide(w.site, field).Hit? && key != DictOf(Decide(w.site, field).keys[0])
    ensures BelowStays(w, key, ScopeOf(w, before, field))
  {
    hide MayName, DecideRules, Upto, DictOf;
    var schema := w.site.schemaOf(key);
    var dbRule := FirstMatch(schema.rules, key);
    if dbRule.Some? {
      var above, scope := [dbRule.value.types, schema.types], ScopeOf(w, before, field);
      forall r, idx | r in dbRule.value.rules && key in scope && key in w.store && idx in w.store[key] && MayName(w, [r.types] + above, r, idx)
        ensures idx in scope[key]
      {
        assert MayNameAny(w, above, dbRule.value.rules, idx);
        assert MaySelect(w, key, idx);
      }
    }
  }

  /** What an index rule does for the tuple of a field, in any state that is at its turn. */
  lemma {:induction false} IndexVisitFinds(w: World, above: Registry, rule: Rule, field: Dict, db: Dict,
                                           ps1: seq<Pair>, ps2: seq<Pair>, registry: Registry, data: Data, mid: Reader)
    requires DecideRule(w.site, above, rule, 1, field) == Hit([ps1, ps2], registry)
    requires CoversRule(w, above, rule, 1, field) && Distinct(Names(ps2)) && DictOf(ps1) != map[]
    requires mid.threw.None? && mid.db == Some(db) && db in w.store && DictOf(ps1) in w.store[db]
    requires Findable(w.store[db][DictOf(ps1)], w.toKey, registry, ps2, data)
    requires Reach(w, [rule.types] + above, rule, 1, ps1, mid).threw.None?
    ensures WalkField(rule.predicates, field) == Matched(ps1)
    ensures Element(db, DictOf(ps1), Simplified(DictOf(ps2)), data) in Reach(w, [rule.types] + above, rule, 1, ps1, mid).found
  {
    hide ReadFrom, Findable, Covered, CoversRules, Simplified, DictOf, ReadRules, DecideRules;
    var ps := WalkField(rule.predicates, field).pairs;
    var inner := DecideRules(w.site, [rule.types] + above, rule.rules, 2, field);
    assert inner.Hit? && [ps] + inner.keys == [ps1, ps2];
    assert ps == ([ps] + inner.keys)[0] && inner.keys == ([ps] + inner.keys)[1..];
    assert ps == ps1 && inner.keys == [ps2];
    var entered := SelectIndex(w, mid, DictOf(ps1)).0;
    DatumFound(w, [rule.types] + above, rule.rules, field, db, DictOf(ps1), ps2, registry, data, entered);
  }

  lemma {:induction false} WalkFits(w: World, above: Registry, rule: Rule, depth: nat, field: Dict)
    requires depth <= 2 && DecideRule(w.site, above, rule, depth, field).Hit? && CoversRule(w, above, rule, depth, field)
    ensures WalkField(rule.predicates, field).Matched?
    ensures Fits(w, [rule.types] + above, rule.predicates, WalkField(rule.predicates, field).pairs)
  {
    hide Covered, CoversRules, DecideRules;
  }

  lemma {:induction false} AllInScope(w: World, registry: Registry, rule: Rule, s: Reader)
    ensures InScope(w, Everything(w), s) && Stays(w, registry, rule, 1, s.db, Everything(w)) && MayPush(w, registry, rule.predicates, [])
  {
  }

  lemma {:induction false} IndexRuleFinds(w: World, above: Registry, rule: Rule, field: Dict, db: Dict,
                                          ps1: seq<Pair>, ps2: seq<Pair>, registry: Registry, data: Data, s: Reader)
    requires DecideRule(w.site, above, rule, 1, field) == Hit([ps1, ps2], registry)
    requires CoversRule(w, above, rule, 1, field) && Distinct(Names(ps2))
    requires WalkField(rule.predicates, field).Matched? && ps1 == WalkField(rule.predicates, field).pairs
    requires ps1 in TriedFrom(w, [rule.types] + above, rule, 0, 1, [], s) && DictOf(ps1) != map[]
    requires s.threw.None? && s.db == Some(db) && db in w.store && DictOf(ps1) in w.store[db]
    requires Findable(w.store[db][DictOf(ps1)], w.toKey, registry, ps2, data)
    requires ReadFrom(w, [rule.types] + above, rule, 0, 1, [], s).threw.None?
    ensures Element(db, DictOf(ps1), Simplified(DictOf(ps2)), data) in ReadFrom(w, [rule.types] + above, rule, 0, 1, [], s).found
  {
    hide ReadFrom, Findable, TriedFrom, CoversRule, Simplified, DictOf, Reach, DecideRule, InScope, Stays, MayPush;
    AllInScope(w, [rule.types] + above, rule, s);
    var mid := TriedIsVisited(w, [rule.types] + above, rule, 0, 1, [], s, ps1, Everything(w));
    IndexVisitFinds(w, above, rule, field, db, ps1, ps2, registry, data, mid);
  }

  lemma {:induction false} IndexWalk(w: World, above: Registry, rule: Rule, field: Dict, ps1: seq<Pair>, ps2: seq<Pair>, registry: Registry)
    requires DecideRule(w.site, above, rule, 1, field) == Hit([ps1, ps2], registry)
    ensures WalkField(rule.predicates, field) == Matched(ps1)
  {
    hide DecideRules;
    var ps := WalkField(rule.predicates, field).pairs;
    var inner := DecideRules(w.site, [rule.types] + above, rule.rules, 2, field);
    assert ([ps] + inner.keys)[0] == ps;
  }

  // ----- Nothing else finds it -----

  /** A hit that the walk over the datum rules adds is in the selected index. */
  lemma {:induction false} DatumHits(w: World, registry: Registry, rule: Rule, tuples: seq<seq<Pair>>, s: Reader, e: Element)
    requires e in ReachAll(w, registry, rule, 2, [], tuples, s).found
    ensures e in s.found || (s.db.Some? && s.db.value in s.selected && e.index == s.selected[s.db.value])
  {
    if tuples != [] && s.threw.None? {
      ReachKeepsView(w, registry, rule, [] + tuples[0], s);
      var after := Reach(w, registry, rule, 2, [] + tuples[0], s);
      DatumHits(w, registry, rule, tuples[1..], after, e);
      assert e in after.found ==> e in s.found || (s.db.Some? && s.db.value in s.selected && e.index == s.selected[s.db.value]);
    }
  }

  lemma {:induction false} DatumRulesHit(w: World, above: Registry, rules: seq<Rule>, s: Reader, e: Element)
    requires e in ReadRules(w, above, rules, 2, s).found
    ensures e in s.found || (s.db.Some? && s.db.value in s.selected && e.index == s.selected[s.db.value])
  {
    hide ReadFrom, ReachAll, Candidates, Steady, Product;
    if rules != [] && s.threw.None? {
      var rule, registry := rules[0], [rules[0].types] + above;
      var lists := ListsAt(w, registry, rule.predicates, s);
      DatumRuleKeepsView(w, registry, rule, s);
      DatumRulesHit(w, above, rules[1..], ReadFrom(w, registry, rule, 0, 2, [], s), e);
      if e in ReadFrom(w, registry, rule, 0, 2, [], s).found {
        SteadyInView(w, registry, rule.predicates, s);
        LevelIsProduct(w, registry, rule, 0, 2, [], lists, Some(View(s.db, s.selected)), s);
        DatumHits(w, registry, rule, Product(rule.predicates[0..], lists[0..]), s, e);
      }
    }
  }

  lemma {:induction false} IndexHits(w: World, registry: Registry, rule: Rule, t: seq<Pair>, s: Reader, e: Element)
    requires e in Reach(w, registry, rule, 1, t, s).found
    ensures e in s.found || e.index == DictOf(t)
  {
    hide ReadRules, DictOf;
    if s.threw.None? && rule.rules != [] && s.db.Some? {
      var (entered, ok) := SelectIndex(w, s, DictOf(t));
      if ok {
        DatumRulesHit(w, registry, rule.rules, entered, e);
      }
    }
  }

  /** A hit that an index rule adds is in the index of a tuple that its walk gets to. */
  lemma {:induction false} IndexRuleHits(w: World, registry: Registry, rule: Rule, cur: nat, done: seq<Pair>, s: Reader, e: Element)
    requires cur <= |rule.predicates| && e in ReadFrom(w, registry, rule, cur, 1, done, s).found
    ensures e in s.found || exists t :: t in TriedFrom(w, registry, rule, cur, 1, done, s) && e.index == DictOf(t)
    decreases |rule.predicates| - cur, 1, 0
  {
    hide Candidates, Reach, ReadValues, TriedValues, DictOf;
    if s.threw.None? {
      if cur == |rule.predicates| {
        IndexHits(w, registry, rule, done, s, e);
        assert done in TriedFrom(w, registry, rule, cur, 1, done, s);
      } else {
        IndexValuesHit(w, registry, rule, cur, done, Candidates(w, s, registry, rule.predicates[cur]), s, e);
      }
    }
  }

  lemma {:induction false} IndexValuesHit(w: World, registry: Registry, rule: Rule, cur: nat, done: seq<Pair>, values: seq<string>, s: Reader, e: Element)
    requires cur < |rule.predicates| && e in ReadValues(w, registry, rule, cur, 1, done, values, s).found
    ensures e in s.found || exists t :: t in TriedValues(w, registry, rule, cur, 1, done, values, s) && e.index == DictOf(t)
    decreases |rule.predicates| - cur, 0, |values|
  {
    hide Candidates, Reach, ReadFrom, TriedFrom, DictOf;
    if values != [] && s.threw.None? {
      var p := rule.predicates[cur];
      var longer := done + [(p.keyword, values[0])];
      var after := if p.matcher.Accepts(values[0]) then ReadFrom(w, registry, rule, cur + 1, 1, longer, s) else s;
      IndexValuesHit(w, registry, rule, cur, done, values[1..], after, e);
      if e in after.found && p.matcher.Accepts(values[0]) {
        IndexRuleHits(w, registry, rule, cur + 1, longer, s, e);
      }
    }
  }

  lemma {:induction false} TriedNames(w: World, registry: Registry, rule: Rule, cur: nat, depth: nat, done: seq<Pair>, s: Reader, t: seq<Pair>)
    requires depth <= 2 && cur <= |rule.predicates| && t in TriedFrom(w, registry, rule, cur, depth, done, s)
    ensures Names(t) == Names(done) + Keywords(rule.predicates)[cur..]
    decreases |rule.predicates| - cur, 1, 0
  {
    hide Candidates, TriedValues;
    if cur < |rule.predicates| {
      TriedValueNames(w, registry, rule, cur, depth, done, Candidates(w, s, registry, rule.predicates[cur]), s, t);
    }
  }

  lemma {:induction false} TriedValueNames(w: World, registry: Registry, rule: Rule, cur: nat, depth: nat, done: seq<Pair>, values: seq<string>, s: Reader, t: seq<Pair>)
    requires depth <= 2 && cur < |rule.predicates| && t in TriedValues(w, registry, rule, cur, depth, done, values, s)
    ensures Names(t) == Names(done) + Keywords(rule.predicates)[cur..]
    decreases |rule.predicates| - cur, 0, |values|
  {
    hide Candidates, TriedFrom;
    var p, v := rule.predicates[cur], values[0];
    var longer := done + [(p.keyword, v)];
    if p.matcher.Accepts(v) && t in TriedFrom(w, registry, rule, cur + 1, depth, longer, s) {
      TriedNames(w, registry, rule, cur + 1, depth, longer, s, t);
      assert Names(longer) == Names(done) + [p.keyword];
    } else {
      var after := if p.matcher.Accepts(v) then ReadFrom(w, registry, rule, cur + 1, depth, longer, s) else s;
      TriedValueNames(w, registry, rule, cur, depth, done, values[1..], after, t);
    }
  }

  /** Tuples of the same distinct keywords with the same dictionary are the same. */
  lemma {:induction false} SameTuple(a: seq<Pair>, b: seq<Pair>)
    requires Names(a) == Names(b) && Distinct(Names(a)) && DictOf(a) == DictOf(b)
    ensures a == b
  {
    hide DictOf;
    assert |a| == |Names(a)| == |b|;
    forall i | 0 <= i < |a|
      ensures a[i] == b[i]
    {
      DictOfLookup(a, i);
      DictOfLookup(b, i);
      assert a[i].0 == Names(a)[i] == b[i].0;
    }
  }

  /** An index rule finds a stored field that the request covers exactly when its walk gets
      to the field's tuple. */
  lemma {:induction false} FoundIffTried(w: World, above: Registry, rule: Rule, field: Dict, db: Dict,
                                         ps1: seq<Pair>, ps2: seq<Pair>, registry: Registry, data: Data, s: Reader)
    requires DecideRule(w.site, above, rule, 1, field) == Hit([ps1, ps2], registry)
    requires CoversRule(w, above, rule, 1, field) && Distinct(Names(ps2)) && Distinct(Keywords(rule.predicates)) && DictOf(ps1) != map[]
    requires s.threw.None? && s.db == Some(db) && db in w.store && DictOf(ps1) in w.store[db]
    requires Findable(w.store[db][DictOf(ps1)], w.toKey, registry, ps2, data)
    requires ReadFrom(w, [rule.types] + above, rule, 0, 1, [], s).threw.None?
    requires Element(db, DictOf(ps1), Simplified(DictOf(ps2)), data) !in s.found
    ensures Element(db, DictOf(ps1), Simplified(DictOf(ps2)), data) in ReadFrom(w, [rule.types] + above, rule, 0, 1, [], s).found <==>
            ps1 in TriedFrom(w, [rule.types] + above, rule, 0, 1, [], s)
  {
    hide ReadFrom, Findable, TriedFrom, CoversRule, Simplified, DictOf, Reach, DecideRule;
    var e := Element(db, DictOf(ps1), Simplified(DictOf(ps2)), data);
    IndexWalk(w, above, rule, field, ps1, ps2, registry);
    if ps1 in TriedFrom(w, [rule.types] + above, rule, 0, 1, [], s) {
      IndexRuleFinds(w, above, rule, field, db, ps1, ps2, registry, data, s);
    }
    if e in ReadFrom(w, [rule.types] + above, rule, 0, 1, [], s).found {
      IndexRuleHits(w, [rule.types] + above, rule, 0, [], s, e);
      var t :| t in TriedFrom(w, [rule.types] + above, rule, 0, 1, [], s) && DictOf(ps1) == DictOf(t);
      TriedNames(w, [rule.types] + above, rule, 0, 1, [], s, t);
      WalkNames(rule.predicates, field);
      assert Names(t) == Keywords(rule.predicates);
      SameTuple(ps1, t);
    }
  }

  /** The condition is exact at an index rule: a request for one field alone finds it, of
      what is stored, if and only if the axes of the index that is selected when the rule is
      walked let its index values through. */
  lemma {:induction false} FoundIffLet(w: World, above: Registry, rule: Rule, field: Dict, db: Dict,
                                       ps1: seq<Pair>, ps2: seq<Pair>, registry: Registry, data: Data, s: Reader)
    requires DecideRule(w.site, above, rule, 1, field) == Hit([ps1, ps2], registry)
    requires CoversRule(w, above, rule, 1, field) && Distinct(Names(ps2)) && Distinct(Keywords(rule.predicates)) && DictOf(ps1) != map[]
    requires |ps1| == |rule.predicates| && Alone(w, [rule.types] + above, rule.predicates, ps1)
    requires s.threw.None? && s.db == Some(db) && db in w.store && DictOf(ps1) in w.store[db]
    requires Findable(w.store[db][DictOf(ps1)], w.toKey, registry, ps2, data)
    requires ReadFrom(w, [rule.types] + above, rule, 0, 1, [], s).threw.None?
    requires Element(db, DictOf(ps1), Simplified(DictOf(ps2)), data) !in s.found
    ensures Element(db, DictOf(ps1), Simplified(DictOf(ps2)), data) in ReadFrom(w, [rule.types] + above, rule, 0, 1, [], s).found <==>
            AllLet(w, [rule.types] + above, CurrentAxes(w, s), rule.predicates, ps1, 0)
  {
    hide ReadFrom, Findable, TriedFrom, CoversRule, Simplified, DictOf, Reach, DecideRule, AllLet, Covered, CurrentAxes;
    FoundIffTried(w, above, rule, field, db, ps1, ps2, registry, data, s);
    IndexWalk(w, above, rule, field, ps1, ps2, registry);
    WalkFits(w, above, rule, 1, field);
    assert ps1[..0] == [];
    AloneIsTried(w, [rule.types] + above, rule, 0, 1, ps1, s);
  }

  lemma {:induction false} IndexFound(w: World, above: Registry, rules: seq<Rule>, field: Dict, db: Dict,
                                      ps1: seq<Pair>, ps2: seq<Pair>, registry: Registry, data: Data, s: Reader, scope: Scope)
    requires DecideRules(w.site, above, rules, 1, field) == Hit([ps1, ps2], registry)
    requires CoversRules(w, above, rules, 1, field) && Distinct(Names(ps2))
    requires AdmittedRules(w, above, rules, 1, field, scope) && DictOf(ps1) != map[]
    requires InScope(w, scope, s) && IndexesStay(w, above, Upto(w, above, rules, 1, field), db, scope)
    requires s.threw.None? && s.db == Some(db) && db in w.store && DictOf(ps1) in w.store[db]
    requires Findable(w.store[db][DictOf(ps1)], w.toKey, registry, ps2, data)
    requires ReadRules(w, above, rules, 1, s).threw.None?
    ensures Element(db, DictOf(ps1), Simplified(DictOf(ps2)), data) in ReadRules(w, above, rules, 1, s).found
  {
    hide ReadFrom, Findable, Covered, Simplified, DictOf, Admits, InScope, IndexStays, MayPush;
    var rule, inner := rules[0], [rules[0].types] + above;
    var rest := ReadFrom(w, inner, rule, 0, 1, [], s);
    assert rule in Upto(w, above, rules, 1, field);
    RulesGrow(w, above, rules[1..], 1, rest);
    FromGrows(w, inner, rule, 0, 1, [], s);
    if DecideRule(w.site, above, rule, 1, field).Hit? {
      IndexWalk(w, above, rule, field, ps1, ps2, registry);
      WalkFits(w, above, rule, 1, field);
      assert ps1[..0] == [];
      AdmittedIsTried(w, inner, rule, 0, 1, ps1, s, scope);
      IndexRuleFinds(w, above, rule, field, db, ps1, ps2, registry, data, s);
    } else {
      NothingPushed(w, inner, rule.predicates);
      FromStays(w, inner, rule, 0, 1, [], s, scope);
      IndexFound(w, above, rules[1..], field, db, ps1, ps2, registry, data, rest, scope);
    }
  }

  // ----- The first entry of the field's database -----

  /** Whatever the state, as long as no index has been selected in the database since the
      retrieval began, entering it finds the element. */
  ghost predicate EntryFinds(w: World, db: Dict, scope: Scope, e: Element)
  {
    forall s: Reader :: s.threw.None? && s.db == Some(db) && InScope(w, Only(scope, db), s) && ReadSecond(w, db, s).threw.None? ==>
      e in ReadSecond(w, db, s).found
  }

  lemma {:induction false} OwnIndexesStay(w: World, above: Registry, rules: seq<Rule>, db: Dict, scope: Scope, s: Reader)
    ensures IndexesStay(w, above, rules, db, OwnScope(w, above, rules, db, scope))
    ensures s.db == Some(db) && InScope(w, Only(scope, db), s) ==> InScope(w, OwnScope(w, above, rules, db, scope), s)
  {
    hide MayName;
    var own := OwnScope(w, above, rules, db, scope);
    forall r, key | r in rules && db in own && db in w.store && key in w.store[db] && MayName(w, [r.types] + above, r, key)
      ensures key in own[db]
    {
      assert MayNameAny(w, above, rules, key);
    }
  }

  lemma {:induction false} EntryOfRule(w: World, above: Registry, rule: Rule, field: Dict, ps0: seq<Pair>,
                                       ps1: seq<Pair>, ps2: seq<Pair>, registry: Registry, data: Data, scope: Scope)
    requires DecideRule(w.site, above, rule, 0, field) == Hit([ps0, ps1, ps2], registry)
    requires CoversRule(w, above, rule, 0, field) && Distinct(Names(ps2))
    requires AdmittedRule(w, above, rule, 0, field, scope) && DictOf(ps1) != map[]
    requires DictOf(ps0) in w.store && DictOf(ps1) in w.store[DictOf(ps0)]
    requires Findable(w.store[DictOf(ps0)][DictOf(ps1)], w.toKey, registry, ps2, data)
    ensures WalkField(rule.predicates, field) == Matched(ps0)
    ensures EntryFinds(w, DictOf(ps0), scope, Element(DictOf(ps0), DictOf(ps1), Simplified(DictOf(ps2)), data))
    ensures Admits(w, [rule.types] + above, rule.predicates, ps0, Outside(scope, DictOf(ps0)))
  {
    hide Findable, Covered, CoversRules, Simplified, DictOf, ReadRules, DecideRules, Admits, InScope, IndexesStay, OwnScope, AdmittedRules, Upto;
    var ps := WalkField(rule.predicates, field).pairs;
    var schema := w.site.schemaOf(DictOf(ps));
    var dbRule := FirstMatch(schema.rules, DictOf(ps)).value;
    var below := [dbRule.types, schema.types];
    var inner := DecideRules(w.site, below, dbRule.rules, 1, field);
    assert inner.Hit? && [ps] + inner.keys == [ps0, ps1, ps2];
    assert ps == ([ps] + inner.keys)[0] && inner.keys == ([ps] + inner.keys)[1..];
    assert ps == ps0 && inner.keys == [ps1, ps2];
    var db, upto := DictOf(ps0), Upto(w, below, dbRule.rules, 1, field);
    forall s: Reader | s.threw.None? && s.db == Some(db) && InScope(w, Only(scope, db), s) && ReadSecond(w, db, s).threw.None?
      ensures Element(db, DictOf(ps1), Simplified(DictOf(ps2)), data) in ReadSecond(w, db, s).found
    {
      OwnIndexesStay(w, below, upto, db, scope, s);
      IndexFound(w, below, dbRule.rules, field, db, ps1, ps2, registry, data, s, OwnScope(w, below, upto, db, scope));
    }
  }

  /** The walk over the database rules so far has thrown, has found the element, or has not
      entered the field's database and is in scope. */
  ghost predicate Ahead(w: World, db: Dict, scope: Scope, e: Element, s: Reader)
  {
    s.threw.Some? || e in s.found || (s.db != Some(db) && InScope(w, scope, s))
  }

  lemma {:induction false} FoundIsAhead(w: World, db: Dict, scope: Scope, e: Element, s: Reader, t: Reader)
    requires Grows(s, t) && (e in s.found || s.threw.Some?)
    ensures Ahead(w, db, scope, e, t)
  {
    if e in s.found {
      assert e in t.found;
    }
  }

  /** One tuple of a database rule. */
  lemma {:induction false} ReachAhead(w: World, registry: Registry, rule: Rule, ps: seq<Pair>, s: Reader, db: Dict, scope: Scope, e: Element)
    requires |ps| == |rule.predicates| && MayPush(w, registry, rule.predicates, ps)
    requires Ahead(w, db, scope, e, s) && DatabaseStays(w, registry, rule, db, scope) && EntryFinds(w, db, scope, e) && db in scope
    ensures Ahead(w, db, scope, e, Reach(w, registry, rule, 0, ps, s))
  {
    hide ReadSecond, MayPush, DictOf, BelowStays, InScope, Only;
    var t := Reach(w, registry, rule, 0, ps, s);
    ReachGrows(w, registry, rule, 0, ps, s);
    if e in s.found || s.threw.Some? {
      FoundIsAhead(w, db, scope, e, s, t);
    } else if rule.rules != [] && SelectDatabase(w, s, DictOf(ps)).Some? {
      var key, entered := DictOf(ps), SelectDatabase(w, s, DictOf(ps)).value;
      assert MayName(w, registry, rule, key);
      if key == db {
        EntersOwn(w, s, db, scope);
      } else {
        EntersOther(w, s, key, scope);
        SecondGrows(w, key, entered);
        SecondStays(w, key, entered, scope);
      }
    }
  }

  lemma {:induction false} EntersOwn(w: World, s: Reader, db: Dict, scope: Scope)
    requires InScope(w, scope, s) && db in scope && SelectDatabase(w, s, db).Some?
    ensures var t := SelectDatabase(w, s, db).value; t.threw == s.threw && t.db == Some(db) && InScope(w, Only(scope, db), t)
  {
  }

  lemma {:induction false} EntersOther(w: World, s: Reader, key: Dict, scope: Scope)
    requires InScope(w, scope, s) && (key in w.store ==> key in scope) && SelectDatabase(w, s, key).Some?
    ensures var t := SelectDatabase(w, s, key).value; t.threw == s.threw && t.db == Some(key) && InScope(w, scope, t)
  {
  }

  lemma {:induction false} FromAhead(w: World, registry: Registry, rule: Rule, cur: nat, done: seq<Pair>, s: Reader, db: Dict, scope: Scope, e: Element)
    requires cur <= |rule.predicates| && |done| == cur && MayPush(w, registry, rule.predicates, done)
    requires Ahead(w, db, scope, e, s) && DatabaseStays(w, registry, rule, db, scope) && EntryFinds(w, db, scope, e) && db in scope
    ensures Ahead(w, db, scope, e, ReadFrom(w, registry, rule, cur, 0, done, s))
    decreases |rule.predicates| - cur, 1, 0
  {
    hide Candidates, Reach, ReadValues, Ahead, DatabaseStays, EntryFinds, MayPush, Offered;
    if s.threw.None? {
      if cur == |rule.predicates| {
        ReachAhead(w, registry, rule, done, s, db, scope, e);
      } else {
        CandidatesOffered(w, s, registry, rule.predicates[cur]);
        ValuesAhead(w, registry, rule, cur, done, Candidates(w, s, registry, rule.predicates[cur]), s, db, scope, e);
      }
    }
  }

  lemma {:induction false} ValuesAhead(w: World, registry: Registry, rule: Rule, cur: nat, done: seq<Pair>, values: seq<string>, s: Reader, db: Dict, scope: Scope, e: Element)
    requires cur < |rule.predicates| && |done| == cur && MayPush(w, registry, rule.predicates, done)
    requires forall v :: v in values ==> Offered(w, registry, rule.predicates[cur], v)
    requires Ahead(w, db, scope, e, s) && DatabaseStays(w, registry, rule, db, scope) && EntryFinds(w, db, scope, e) && db in scope
    ensures Ahead(w, db, scope, e, ReadValues(w, registry, rule, cur, 0, done, values, s))
    decreases |rule.predicates| - cur, 0, |values|
  {
    hide Candidates, Reach, ReadFrom, Ahead, DatabaseStays, EntryFinds, MayPush, Offered;
    if values != [] && s.threw.None? {
      var p := rule.predicates[cur];
      var longer := done + [(p.keyword, values[0])];
      var after := if p.matcher.Accepts(values[0]) then ReadFrom(w, registry, rule, cur + 1, 0, longer, s) else s;
      assert values[0] in values;
      if p.matcher.Accepts(values[0]) {
        OneMore(w, registry, rule.predicates, done, values[0]);
        FromAhead(w, registry, rule, cur + 1, longer, s, db, scope, e);
      }
      ValuesAhead(w, registry, rule, cur, done, values[1..], after, db, scope, e);
    }
  }

  /** The walk over the field's own database rule enters its database, if no walk has before. */
  lemma {:induction false} FromFinds(w: World, registry: Registry, rule: Rule, cur: nat, pairs: seq<Pair>, s: Reader, db: Dict, scope: Scope, e: Element)
    requires cur <= |rule.predicates| && Fits(w, registry, rule.predicates, pairs) && DictOf(pairs) == db && db in scope && db in w.store
    requires rule.rules != [] && Admits(w, registry, rule.predicates, pairs, Outside(scope, db))
    requires Ahead(w, db, scope, e, s) && DatabaseStays(w, registry, rule, db, scope) && EntryFinds(w, db, scope, e)
    requires ReadFrom(w, registry, rule, cur, 0, pairs[..cur], s).threw.None?
    ensures e in ReadFrom(w, registry, rule, cur, 0, pairs[..cur], s).found
    decreases |rule.predicates| - cur, 1, 0
  {
    hide Candidates, Reach, ReadValues, Covered, Admits, DatabaseStays, EntryFinds, InScope, Offered, DictOf, Outside;
    FromGrows(w, registry, rule, cur, 0, pairs[..cur], s);
    if e !in s.found {
      if cur == |rule.predicates| {
        assert pairs[..cur] == pairs;
        OwnReach(w, registry, rule, pairs, s, db, scope, e);
      } else {
        InOutside(w, scope, s, db);
        AdmittedIsCandidate(w, s, registry, rule.predicates, pairs, cur, Outside(scope, db));
        CandidatesOffered(w, s, registry, rule.predicates[cur]);
        ValuesFind(w, registry, rule, cur, pairs, Candidates(w, s, registry, rule.predicates[cur]), s, db, scope, e);
      }
    }
  }

  lemma {:induction false} OwnReach(w: World, registry: Registry, rule: Rule, pairs: seq<Pair>, s: Reader, db: Dict, scope: Scope, e: Element)
    requires DictOf(pairs) == db && db in scope && db in w.store && rule.rules != []
    requires s.threw.None? && InScope(w, scope, s) && EntryFinds(w, db, scope, e) && Reach(w, registry, rule, 0, pairs, s).threw.None?
    ensures e in Reach(w, registry, rule, 0, pairs, s).found
  {
    hide ReadSecond, InScope, DictOf, Only;
    assert SelectDatabase(w, s, db).Some?;
    EntersOwn(w, s, db, scope);
  }

  lemma {:induction false} InOutside(w: World, scope: Scope, s: Reader, db: Dict)
    requires InScope(w, scope, s) && s.db != Some(db)
    ensures InScope(w, Outside(scope, db), s)
  {
  }

  lemma {:induction false} ValuesFind(w: World, registry: Registry, rule: Rule, cur: nat, pairs: seq<Pair>, values: seq<string>, s: Reader, db: Dict, scope: Scope, e: Element)
    requires cur < |rule.predicates| && Fits(w, registry, rule.predicates, pairs) && DictOf(pairs) == db && db in scope && db in w.store
    requires rule.rules != [] && Admits(w, registry, rule.predicates, pairs, Outside(scope, db)) && pairs[cur].1 in values
    requires forall v :: v in values ==> Offered(w, registry, rule.predicates[cur], v)
    requires Ahead(w, db, scope, e, s) && DatabaseStays(w, registry, rule, db, scope) && EntryFinds(w, db, scope, e)
    requires ReadValues(w, registry, rule, cur, 0, pairs[..cur], values, s).threw.None?
    ensures e in ReadValues(w, registry, rule, cur, 0, pairs[..cur], values, s).found
    decreases |rule.predicates| - cur, 0, |values|
  {
    hide Candidates, Reach, ReadFrom, Covered, Admits, DatabaseStays, EntryFinds, Ahead, Offered, DictOf, Fits, MayPush;
    FitsAt(w, registry, rule.predicates, pairs, cur);
    FitsMayPush(w, registry, rule.predicates, pairs, cur);
    var p, v := rule.predicates[cur], values[0];
    assert v in values;
    var longer := pairs[..cur] + [(p.keyword, v)];
    var after := if p.matcher.Accepts(v) then ReadFrom(w, registry, rule, cur + 1, 0, longer, s) else s;
    ValuesGrow(w, registry, rule, cur, 0, pairs[..cur], values[1..], after);
    if v == pairs[cur].1 {
      assert longer == pairs[..cur + 1];
      FromFinds(w, registry, rule, cur + 1, pairs, s, db, scope, e);
    } else {
      if p.matcher.Accepts(v) {
        OneMore(w, registry, rule.predicates, pairs[..cur], v);
        FromAhead(w, registry, rule, cur + 1, longer, s, db, scope, e);
      }
      ValuesFind(w, registry, rule, cur, pairs, values[1..], after, db, scope, e);
    }
  }

  lemma {:induction false} EntryOfRules(w: World, above: Registry, rules: seq<Rule>, field: Dict, ps0: seq<Pair>,
                                        ps1: seq<Pair>, ps2: seq<Pair>, registry: Registry, data: Data, scope: Scope)
    requires DecideRules(w.site, above, rules, 0, field) == Hit([ps0, ps1, ps2], registry)
    requires CoversRules(w, above, rules, 0, field) && Distinct(Names(ps2))
    requires AdmittedRules(w, above, rules, 0, field, scope) && DictOf(ps1) != map[]
    requires DictOf(ps0) in w.store && DictOf(ps1) in w.store[DictOf(ps0)]
    requires Findable(w.store[DictOf(ps0)][DictOf(ps1)], w.toKey, registry, ps2, data)
    ensures EntryFinds(w, DictOf(ps0), scope, Element(DictOf(ps0), DictOf(ps1), Simplified(DictOf(ps2)), data))
  {
    hide Findable, Simplified, DictOf, EntryFinds, CoversRule, AdmittedRule;
    if DecideRule(w.site, above, rules[0], 0, field).Hit? {
      EntryOfRule(w, above, rules[0], field, ps0, ps1, ps2, registry, data, scope);
    } else {
      EntryOfRules(w, above, rules[1..], field, ps0, ps1, ps2, registry, data, scope);
    }
  }

  lemma {:induction false} OuterFinds(w: World, above: Registry, rules: seq<Rule>, field: Dict, ps0: seq<Pair>,
                                      ps1: seq<Pair>, ps2: seq<Pair>, registry: Registry, data: Data, s: Reader, scope: Scope)
    requires DecideRules(w.site, above, rules, 0, field) == Hit([ps0, ps1, ps2], registry)
    requires CoversRules(w, above, rules, 0, field) && Distinct(Names(ps2))
    requires AdmittedRules(w, above, rules, 0, field, scope) && DictOf(ps1) != map[]
    requires DictOf(ps0) in w.store && DictOf(ps1) in w.store[DictOf(ps0)] && DictOf(ps0) in scope
    requires Findable(w.store[DictOf(ps0)][DictOf(ps1)], w.toKey, registry, ps2, data)
    requires forall r :: r in Upto(w, above, rules, 0, field) ==> DatabaseStays(w, [r.types] + above, r, DictOf(ps0), scope)
    requires var e := Element(DictOf(ps0), DictOf(ps1), Simplified(DictOf(ps2)), data);
             Ahead(w, DictOf(ps0), scope, e, s) && EntryFinds(w, DictOf(ps0), scope, e)
    requires ReadRules(w, above, rules, 0, s).threw.None?
    ensures Element(DictOf(ps0), DictOf(ps1), Simplified(DictOf(ps2)), data) in ReadRules(w, above, rules, 0, s).found
  {
    hide ReadFrom, Findable, Covered, Simplified, DictOf, Admits, Ahead, EntryFinds, DatabaseStays, MayPush, CoversRule, AdmittedRule, Fits, Outside;
    var rule, inner := rules[0], [rules[0].types] + above;
    var e := Element(DictOf(ps0), DictOf(ps1), Simplified(DictOf(ps2)), data);
    var rest := ReadFrom(w, inner, rule, 0, 0, [], s);
    assert rule in Upto(w, above, rules, 0, field);
    RulesGrow(w, above, rules[1..], 0, rest);
    if DecideRule(w.site, above, rule, 0, field).Hit? {
      EntryOfRule(w, above, rule, field, ps0, ps1, ps2, registry, data, scope);
      WalkFits(w, above, rule, 0, field);
      assert ps0[..0] == [];
      DecidesBelow(w, above, rule, field);
      FromFinds(w, inner, rule, 0, ps0, s, DictOf(ps0), scope, e);
    } else {
      NothingPushed(w, inner, rule.predicates);
      FromAhead(w, inner, rule, 0, [], s, DictOf(ps0), scope, e);
      OuterFinds(w, above, rules[1..], field, ps0, ps1, ps2, registry, data, rest, scope);
    }
  }

  lemma {:induction false} DecidesBelow(w: World, above: Registry, rule: Rule, field: Dict)
    requires DecideRule(w.site, above, rule, 0, field).Hit?
    ensures rule.rules != []
  {
    hide DecideSecond;
  }

  /** From the database rules on: whatever is open and selected in scope, a stored field that
      the request covers is found where the indexes that can be selected admit it. */
  lemma {:induction false} DatabaseFound(w: World, above: Registry, rules: seq<Rule>, field: Dict, ps0: seq<Pair>,
                                         ps1: seq<Pair>, ps2: seq<Pair>, registry: Registry, data: Data, s: Reader, scope: Scope)
    requires DecideRules(w.site, above, rules, 0, field) == Hit([ps0, ps1, ps2], registry)
    requires CoversRules(w, above, rules, 0, field) && Distinct(Names(ps2))
    requires AdmittedRules(w, above, rules, 0, field, scope) && DictOf(ps1) != map[]
    requires DictOf(ps0) in w.store && DictOf(ps1) in w.store[DictOf(ps0)] && DictOf(ps0) in scope
    requires Findable(w.store[DictOf(ps0)][DictOf(ps1)], w.toKey, registry, ps2, data)
    requires forall r :: r in Upto(w, above, rules, 0, field) ==> DatabaseStays(w, [r.types] + above, r, DictOf(ps0), scope)
    requires s.threw.None? && s.db != Some(DictOf(ps0)) && InScope(w, scope, s)
    requires ReadRules(w, above, rules, 0, s).threw.None?
    ensures Element(DictOf(ps0), DictOf(ps1), Simplified(DictOf(ps2)), data) in ReadRules(w, above, rules, 0, s).found
  {
    hide Findable, Simplified, DictOf, EntryFinds, CoversRules, AdmittedRules, ReadRules, DecideRules, DatabaseStays, InScope, Upto;
    EntryOfRules(w, above, rules, field, ps0, ps1, ps2, registry, data, scope);
    OuterFinds(w, above, rules, field, ps0, ps1, ps2, registry, data, s, scope);
  }
}
