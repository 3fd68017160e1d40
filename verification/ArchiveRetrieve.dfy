/** Over a whole run: what a session archived is what a retrieval finds. */
module ArchiveRetrieve {
  import opened Wrappers
  import opened Keys
  import opened Rules
  import opened WriteExpansion
  import opened Stores
  import opened ReadExpansion
  import opened ReadProduct
  import opened NoThrow
  import opened Completeness
  import opened ArchiveSession
  import opened ExpansionKeys

  type Call = (Dict, Data)

  // ----- Shape of the keys of a hit -----

  /** The keys of a hit in a well-formed site: three levels, distinct keywords at
      each, and none of the upper keys empty. */
  predicate Shaped(keys: seq<seq<Pair>>)
  {
    && (forall ps :: ps in keys ==> Distinct(Names(ps)))
    && forall i :: 0 <= i < |keys| - 1 ==> keys[i] != []
  }

  lemma {:induction false} HitShaped(site: Site, above: Registry, rule: Rule, depth: nat, field: Dict, over: set<string>)
    requires depth <= 2 && DecideRule(site, above, rule, depth, field).Hit?
    requires SiteWellFormed(site) && WellFormed(rule, over)
    ensures Shaped(DecideRule(site, above, rule, depth, field).keys)
    decreases 3 - depth, 0
  {
    hide DecideRules, SiteWellFormed;
    var ps := WalkField(rule.predicates, field).pairs;
    WalkNames(rule.predicates, field);
    if depth == 1 {
      HitLevelsOfRules(site, [rule.types] + above, rule.rules, 2, field);
      HitShapedRules(site, [rule.types] + above, rule.rules, 2, field, over + KeywordSet(rule.predicates));
    } else if depth == 0 {
      var schema := site.schemaOf(DictOf(ps));
      var dbRule := FirstMatch(schema.rules, DictOf(ps)).value;
      BelowDatabase(site, DictOf(ps), dbRule);
      HitLevelsOfRules(site, [dbRule.types, schema.types], dbRule.rules, 1, field);
      HitShapedRules(site, [dbRule.types, schema.types], dbRule.rules, 1, field, DictOf(ps).Keys);
    }
  }

  lemma {:induction false} BelowDatabase(site: Site, key: Dict, dbRule: Rule)
    requires SiteWellFormed(site) && dbRule in site.schemaOf(key).rules && dbRule.Match(key)
    ensures forall c :: c in dbRule.rules ==> WellFormed(c, key.Keys)
  {
    hide WellFormed;
  }

  lemma {:induction false} HitShapedRules(site: Site, above: Registry, rules: seq<Rule>, depth: nat, field: Dict, over: set<string>)
    requires depth <= 2 && DecideRules(site, above, rules, depth, field).Hit?
    requires SiteWellFormed(site) && forall r :: r in rules ==> WellFormed(r, over)
    ensures Shaped(DecideRules(site, above, rules, depth, field).keys)
    decreases 3 - depth, |rules| + 1
  {
    hide WellFormed, SiteWellFormed, Shaped;
    if DecideRule(site, above, rules[0], depth, field).Hit? {
      HitShaped(site, above, rules[0], depth, field, over);
    } else {
      HitShapedRules(site, above, rules[1..], depth, field, over);
    }
  }

  lemma {:induction false} DecideShaped(site: Site, field: Dict)
    requires SiteWellFormed(site) && Decide(site, field).Hit?
    ensures Shaped(Decide(site, field).keys)
  {
    hide DecideRules, WellFormed, Shaped;
    HitLevelsOfRules(site, [site.master.types], site.master.rules, 0, field);
    HitShapedRules(site, [site.master.types], site.master.rules, 0, field, {});
  }

  // ----- What a run leaves in the store -----

  /** The call archives into this index. */
  predicate Into(site: Site, call: Call, db: Dict, idx: Dict)
  {
    var d := Decide(site, call.0);
    d.Hit? && DictOf(d.keys[0]) == db && DictOf(d.keys[1]) == idx
  }

  function DatumOf(site: Site, call: Call): seq<Pair>
    requires Decide(site, call.0).Hit?
  {
    Decide(site, call.0).keys[2]
  }

  function FingerprintOf(site: Site, toKey: ToKey, call: Call): string
    requires Decide(site, call.0).Hit?
  {
    Fingerprint(toKey, Decide(site, call.0).registry, DatumOf(site, call))
  }

  /** The data of the last call of a run for a fingerprint in an index. */
  function LastData(site: Site, toKey: ToKey, calls: seq<Call>, db: Dict, idx: Dict, fingerprint: string): Option<Data>
  {
    if calls == [] then None
    else
      var last := calls[|calls| - 1];
      if Into(site, last, db, idx) && FingerprintOf(site, toKey, last) == fingerprint then Some(last.1)
      else LastData(site, toKey, calls[..|calls| - 1], db, idx, fingerprint)
  }

  function Entry(store: Store, db: Dict, idx: Dict, fingerprint: string): Option<Data>
  {
    var entries := IndexAt(store, db, idx).entries;
    if fingerprint in entries then Some(entries[fingerprint]) else None
  }

  /** One archive changes one index. */
  lemma {:induction false} OneIndexChanges(store: Store, db0: Dict, idx0: Dict, toKey: ToKey, registry: Registry, ps: seq<Pair>,
                                           data: Data, db: Dict, idx: Dict)
    ensures IndexAt(Put(store, db0, idx0, toKey, registry, ps, data), db, idx) ==
            if db == db0 && idx == idx0 then PutIndex(IndexAt(store, db, idx), toKey, registry, ps, data) else IndexAt(store, db, idx)
    ensures (var after := Put(store, db0, idx0, toKey, registry, ps, data); db in after && idx in after[db]) <==>
            (db in store && idx in store[db]) || (db == db0 && idx == idx0)
  {
    hide PutIndex;
  }

  /** The index after the last call of a run. */
  lemma {:induction false} LastCall(site: Site, toKey: ToKey, calls: seq<Call>, db: Dict, idx: Dict)
    requires calls != []
    ensures var last := calls[|calls| - 1];
            var before := StoreAfter(site, toKey, map[], calls[..|calls| - 1]);
            var after := StoreAfter(site, toKey, map[], calls);
            && IndexAt(after, db, idx) ==
               (if Into(site, last, db, idx)
                then PutIndex(IndexAt(before, db, idx), toKey, Decide(site, last.0).registry, DatumOf(site, last), last.1)
                else IndexAt(before, db, idx))
            && ((db in after && idx in after[db]) <==> (db in before && idx in before[db]) || Into(site, last, db, idx))
  {
    hide Decide, PutIndex, DictOf, Put;
    var last := calls[|calls| - 1];
    var d := Decide(site, last.0);
    if d.Hit? {
      OneIndexChanges(StoreAfter(site, toKey, map[], calls[..|calls| - 1]), DictOf(d.keys[0]), DictOf(d.keys[1]), toKey,
                      d.registry, d.keys[2], last.1, db, idx);
    }
  }

  /** Every fingerprint of every index holds the datum archived last under it. */
  lemma {:induction false} LatestWins(site: Site, toKey: ToKey, calls: seq<Call>, db: Dict, idx: Dict, fingerprint: string)
    ensures Entry(StoreAfter(site, toKey, map[], calls), db, idx, fingerprint) == LastData(site, toKey, calls, db, idx, fingerprint)
  {
    hide Decide, Fingerprint, InsertAxes, DictOf;
    if calls != [] {
      hide StoreAfter, IndexAt;
      LastCall(site, toKey, calls, db, idx);
      LatestWins(site, toKey, calls[..|calls| - 1], db, idx, fingerprint);
    }
  }

  /** Some call of the run archives into the index a datum with this keyword. */
  ghost predicate Contributed(site: Site, calls: seq<Call>, db: Dict, idx: Dict, keyword: string)
  {
    exists i :: 0 <= i < |calls| && Into(site, calls[i], db, idx) && keyword in DictOf(DatumOf(site, calls[i]))
  }

  /** The axes of an index are the keywords of the datums archived into it. */
  lemma {:induction false} AxesOfRun(site: Site, toKey: ToKey, calls: seq<Call>, db: Dict, idx: Dict, k: string)
    ensures k in IndexAt(StoreAfter(site, toKey, map[], calls), db, idx).axes <==> Contributed(site, calls, db, idx, k)
  {
    hide Decide, DictOf, Canonical, DatumOf, StoreAfter, IndexAt, Fingerprint;
    if calls == [] {
      assert StoreAfter(site, toKey, map[], calls) == map[] by { hide *; NothingStored(site, toKey); }
      assert IndexAt(map[], db, idx).axes == map[] by { hide *; NothingIndexed(db, idx); }
    } else {
      var init := calls[..|calls| - 1];
      LastCall(site, toKey, calls, db, idx);
      AxesOfRun(site, toKey, init, db, idx, k);
      assert forall i :: 0 <= i < |init| ==> calls[i] == init[i];
      if Contributed(site, init, db, idx, k) {
        var i :| 0 <= i < |init| && Into(site, init[i], db, idx) && k in DictOf(DatumOf(site, init[i]));
        assert Into(site, calls[i], db, idx);
      }
    }
  }

  /** Some call of the run archives into the index a datum with this canonical value. */
  ghost predicate ContributedValue(site: Site, toKey: ToKey, calls: seq<Call>, db: Dict, idx: Dict, k: string, v: string)
  {
    exists i :: 0 <= i < |calls| && Into(site, calls[i], db, idx) && k in DictOf(DatumOf(site, calls[i])) && CanonicalOf(site, toKey, calls[i], k) == v
  }

  function CanonicalOf(site: Site, toKey: ToKey, call: Call, k: string): string
    requires Decide(site, call.0).Hit? && k in DictOf(DatumOf(site, call))
  {
    Canonical(toKey, Decide(site, call.0).registry, (k, DictOf(DatumOf(site, call))[k]))
  }

  /** The axes of an index hold the canonical values of the datums archived into it. */
  lemma {:induction false} ValuesOfRun(site: Site, toKey: ToKey, calls: seq<Call>, db: Dict, idx: Dict, k: string, v: string)
    ensures var axes := IndexAt(StoreAfter(site, toKey, map[], calls), db, idx).axes;
            k in axes && v in axes[k] <==> ContributedValue(site, toKey, calls, db, idx, k, v)
  {
    hide Decide, DictOf, Canonical, DatumOf, StoreAfter, IndexAt, Fingerprint;
    if calls == [] {
      assert StoreAfter(site, toKey, map[], calls) == map[] by { hide *; NothingStored(site, toKey); }
      assert IndexAt(map[], db, idx).axes == map[] by { hide *; NothingIndexed(db, idx); }
    } else {
      var init, last := calls[..|calls| - 1], calls[|calls| - 1];
      LastCall(site, toKey, calls, db, idx);
      ValuesOfRun(site, toKey, init, db, idx, k, v);
      assert forall i :: 0 <= i < |init| ==> calls[i] == init[i];
      if ContributedValue(site, toKey, init, db, idx, k, v) {
        var i :| 0 <= i < |init| && Into(site, init[i], db, idx) && k in DictOf(DatumOf(site, init[i])) && CanonicalOf(site, toKey, init[i], k) == v;
        assert Into(site, calls[i], db, idx);
      }
    }
  }

  lemma {:induction false} NothingStored(site: Site, toKey: ToKey)
    ensures StoreAfter(site, toKey, map[], []) == map[]
  {
  }

  lemma {:induction false} NothingIndexed(db: Dict, idx: Dict)
    ensures IndexAt(map[], db, idx) == EMPTY_INDEX
  {
  }

  lemma {:induction false} AxesKept(index: Index, toKey: ToKey, registry: Registry, ps: seq<Pair>, data: Data, registry': Registry, key: Dict)
    ensures AxesHave(index.axes, toKey, registry', key) ==> AxesHave(PutIndex(index, toKey, registry, ps, data).axes, toKey, registry', key)
    ensures AxesHave(PutIndex(index, toKey, registry, ps, data).axes, toKey, registry, DictOf(ps))
  {
    hide Canonical, DictOf, Fingerprint;
  }

  /** An archived datum has its index, and the values of the datum are on its axes. */
  lemma {:induction false} DatumOnAxes(site: Site, toKey: ToKey, calls: seq<Call>, db: Dict, idx: Dict, i: nat)
    requires i < |calls| && Into(site, calls[i], db, idx)
    ensures var store := StoreAfter(site, toKey, map[], calls);
            && db in store && idx in store[db]
            && AxesHave(store[db][idx].axes, toKey, Decide(site, calls[i].0).registry, DictOf(DatumOf(site, calls[i])))
  {
    hide Decide, DictOf, AxesHave, PutIndex, StoreAfter, DatumOf;
    var init := calls[..|calls| - 1];
    LastCall(site, toKey, calls, db, idx);
    var last := calls[|calls| - 1];
    if i < |init| {
      assert calls[i] == init[i];
      DatumOnAxes(site, toKey, init, db, idx, i);
    }
    if Into(site, last, db, idx) {
      AxesKept(IndexAt(StoreAfter(site, toKey, map[], init), db, idx), toKey, Decide(site, last.0).registry, DatumOf(site, last),
               last.1, Decide(site, calls[i].0).registry, DictOf(DatumOf(site, calls[i])));
    }
  }

  // ----- The main result -----

  /** All datums of the index have no keyword beyond these. */
  ghost predicate OneShape(site: Site, calls: seq<Call>, db: Dict, idx: Dict, keywords: set<string>)
  {
    forall j :: 0 <= j < |calls| && Into(site, calls[j], db, idx) ==> DictOf(DatumOf(site, calls[j])).Keys <= keywords
  }

  /** Where data with a keyword have been archived into an index, one of them has the value
      of the pair, or the axis is against all requested values and this is the default. */
  ghost predicate RunLets(w: World, calls: seq<Call>, registry: Registry, db: Dict, idx: Dict, p: Predicate, v: string)
  {
    Contributed(w.site, calls, db, idx, p.keyword) ==>
      || ContributedValue(w.site, w.toKey, calls, db, idx, p.keyword, Canonical(w.toKey, registry, (p.keyword, v)))
      || (p.matcher.Optional() && p.matcher.def == v &&
          forall u :: u in Listed(w, registry, p.keyword) ==>
            !ContributedValue(w.site, w.toKey, calls, db, idx, p.keyword, w.toKey(TypeOf(registry, p.keyword), u)))
  }

  /** What it takes of a run for the indexes of a scope to admit a tuple: an exact condition on the
      archived data alone. */
  lemma {:induction false} RunAdmits(w: World, calls: seq<Call>, registry: Registry, ps: seq<Predicate>, pairs: seq<Pair>, scope: Scope)
    requires w.store == StoreAfter(w.site, w.toKey, map[], calls) && |ps| == |pairs|
    ensures Admits(w, registry, ps, pairs, scope) <==>
            forall db, idx, i :: db in scope && idx in scope[db] && db in w.store && idx in w.store[db] && 0 <= i < |ps| ==> RunLets(w, calls, registry, db, idx, ps[i], pairs[i].1)
  {
    hide Lets, RunLets, StoreAfter;
    forall db, idx, i | db in scope && idx in scope[db] && db in w.store && idx in w.store[db] && 0 <= i < |ps|
      ensures Lets(w, registry, w.store[db][idx].axes, ps[i], pairs[i].1) <==> RunLets(w, calls, registry, db, idx, ps[i], pairs[i].1)
    {
      RunLetsIff(w, calls, registry, db, idx, ps[i], pairs[i].1);
    }
  }

  lemma {:induction false} RunLetsIff(w: World, calls: seq<Call>, registry: Registry, db: Dict, idx: Dict, p: Predicate, v: string)
    requires w.store == StoreAfter(w.site, w.toKey, map[], calls) && db in w.store && idx in w.store[db]
    ensures Lets(w, registry, w.store[db][idx].axes, p, v) <==> RunLets(w, calls, registry, db, idx, p, v)
  {
    hide StoreAfter, Contributed, ContributedValue, Canonical, Listed, TypeOf;
    var k := p.keyword;
    assert IndexAt(w.store, db, idx) == w.store[db][idx];
    AxesOfRun(w.site, w.toKey, calls, db, idx, k);
    ValuesOfRun(w.site, w.toKey, calls, db, idx, k, Canonical(w.toKey, registry, (k, v)));
    forall u | u in Listed(w, registry, k)
      ensures var t := w.toKey(TypeOf(registry, k), u);
              k in w.store[db][idx].axes && t in w.store[db][idx].axes[k] <==> ContributedValue(w.site, w.toKey, calls, db, idx, k, t)
    {
      ValuesOfRun(w.site, w.toKey, calls, db, idx, k, w.toKey(TypeOf(registry, k), u));
    }
  }

  /** The keywords of the upper keys of a decision. */
  function UpperNames(keys: seq<seq<Pair>>): set<string>
  {
    if |keys| <= 1 then {} else (set n | n in Names(keys[0])) + UpperNames(keys[1..])
  }

  /** In particular a field is admitted, in whatever scope, where no index has an axis on the keywords of
      its database and index keys. */
  lemma {:induction false} SeparateIsAdmitted(w: World, above: Registry, rules: seq<Rule>, depth: nat, field: Dict, scope: Scope)
    requires depth <= 2 && DecideRules(w.site, above, rules, depth, field).Hit?
    requires forall db, idx :: db in w.store && idx in w.store[db] ==>
               w.store[db][idx].axes.Keys !! UpperNames(DecideRules(w.site, above, rules, depth, field).keys)
    ensures AdmittedRules(w, above, rules, depth, field, scope)
    decreases 6 - 2 * depth, |rules| + 1
  {
    hide DecideRule, AdmittedRule;
    if DecideRule(w.site, above, rules[0], depth, field).Hit? {
      SeparateRule(w, above, rules[0], depth, field, scope);
    } else {
      SeparateIsAdmitted(w, above, rules[1..], depth, field, scope);
    }
  }

  lemma {:induction false} SeparateRule(w: World, above: Registry, rule: Rule, depth: nat, field: Dict, scope: Scope)
    requires depth <= 2 && DecideRule(w.site, above, rule, depth, field).Hit?
    requires forall db, idx :: db in w.store && idx in w.store[db] ==>
               w.store[db][idx].axes.Keys !! UpperNames(DecideRule(w.site, above, rule, depth, field).keys)
    ensures AdmittedRule(w, above, rule, depth, field, scope)
    decreases 6 - 2 * depth, 0
  {
    hide DecideRules, AdmittedRules, Admits, DictOf, OwnScope, Outside, Upto;
    var ps := WalkField(rule.predicates, field).pairs;
    if depth == 1 {
      var inner := DecideRules(w.site, [rule.types] + above, rule.rules, 2, field);
      HitLevelsOfRules(w.site, [rule.types] + above, rule.rules, 2, field);
      UpperStep(ps, inner.keys);
      SeparateAdmits(w, [rule.types] + above, rule, field, scope);
    } else if depth == 0 {
      var schema := w.site.schemaOf(DictOf(ps));
      var dbRule := FirstMatch(schema.rules, DictOf(ps)).value;
      var inner := DecideRules(w.site, [dbRule.types, schema.types], dbRule.rules, 1, field);
      HitLevelsOfRules(w.site, [dbRule.types, schema.types], dbRule.rules, 1, field);
      UpperStep(ps, inner.keys);
      SeparateAdmits(w, [rule.types] + above, rule, field, Outside(scope, DictOf(ps)));
      var below := [dbRule.types, schema.types];
      SeparateIsAdmitted(w, below, dbRule.rules, 1, field, OwnScope(w, below, Upto(w, below, dbRule.rules, 1, field), DictOf(ps), scope));
    }
  }

  lemma {:induction false} UpperStep(ps: seq<Pair>, keys: seq<seq<Pair>>)
    requires keys != []
    ensures UpperNames([ps] + keys) == (set n | n in Names(ps)) + UpperNames(keys)
  {
    assert ([ps] + keys)[0] == ps && ([ps] + keys)[1..] == keys;
  }

  lemma {:induction false} SeparateAdmits(w: World, registry: Registry, rule: Rule, field: Dict, scope: Scope)
    requires WalkField(rule.predicates, field).Matched?
    requires forall db, idx :: db in w.store && idx in w.store[db] ==>
               w.store[db][idx].axes.Keys !! set n | n in Names(WalkField(rule.predicates, field).pairs)
    ensures Admits(w, registry, rule.predicates, WalkField(rule.predicates, field).pairs, scope)
  {
    hide Lets;
    var ps := WalkField(rule.predicates, field).pairs;
    WalkNames(rule.predicates, field);
    forall db, idx, i | db in w.store && idx in w.store[db] && 0 <= i < |ps|
      ensures Lets(w, registry, w.store[db][idx].axes, rule.predicates[i], ps[i].1)
    {
      assert Names(ps)[i] == rule.predicates[i].keyword;
      NoAxis(w, registry, w.store[db][idx].axes, rule.predicates[i], ps[i].1);
    }
  }

  lemma {:induction false} NoAxis(w: World, registry: Registry, axes: map<string, set<string>>, p: Predicate, v: string)
    requires p.keyword !in axes
    ensures Lets(w, registry, axes, p, v)
  {
  }

  /** Archive, then retrieve: a request that covers an archived field finds the
      triple of its keys with the datum archived last under it, whatever databases and indexes
      earlier retrievals left open and selected. */
  lemma {:induction false} ArchivedIsFound(site: Site, toKey: ToKey, calls: seq<Call>, i: nat, request: Request, readers: nat, before: Opened)
    requires SiteWellFormed(site) && i < |calls| && Decide(site, calls[i].0).Hit?
    requires var keys := Decide(site, calls[i].0).keys;
             OneShape(site, calls, DictOf(keys[0]), DictOf(keys[1]), DictOf(keys[2]).Keys)
    requires var w := World(site, toKey, StoreAfter(site, toKey, map[], calls), request, readers);
             Covers(w, calls[i].0) && Admitted(w, before, calls[i].0)
    ensures var keys := Decide(site, calls[i].0).keys;
            var r := Retrieve(World(site, toKey, StoreAfter(site, toKey, map[], calls), request, readers), before);
            var last := LastData(site, toKey, calls, DictOf(keys[0]), DictOf(keys[1]), FingerprintOf(site, toKey, calls[i]));
            last.Some? && (r.threw.None? ==> Element(DictOf(keys[0]), DictOf(keys[1]), Simplified(DictOf(keys[2])), last.value) in r.found)
  {
    var field := calls[i].0;
    var d := Decide(site, field);
    var db, idx := DictOf(d.keys[0]), DictOf(d.keys[1]);
    var store: Store := StoreAfter(site, toKey, map[], calls);
    var w := World(site, toKey, store, request, readers);
    hide DecideRules, DictOf, StoreAfter, ReadRules, CoversRules, AdmittedRules, Simplified, Fingerprint, SiteWellFormed, Upto, DatabaseStays, InScope, MayNameAny, MaySelect;
    DecideShaped(site, field);
    UpperKeyNotEmpty(d.keys[1]);
    DatumOnAxes(site, toKey, calls, db, idx, i);
    LatestWins(site, toKey, calls, db, idx, FingerprintOf(site, toKey, calls[i]));
    LastExists(site, toKey, calls, db, idx, i);
    forall k | k in store[db][idx].axes
      ensures k in DictOf(d.keys[2])
    {
      AxesOfRun(site, toKey, calls, db, idx, k);
    }
    var last := LastData(site, toKey, calls, db, idx, FingerprintOf(site, toKey, calls[i])).value;
    if Retrieve(w, before).threw.None? {
      assert d.keys == [d.keys[0], d.keys[1], d.keys[2]];
      ScopeStays(w, before, field);
      DatabaseFound(w, [site.master.types], site.master.rules, field, d.keys[0], d.keys[1], d.keys[2], d.registry, last,
                    Fresh(before), ScopeOf(w, before, field));
    }
  }

  /** Where all paths have three levels and every database carries the configured
      schema, nothing throws, and the archived field is found outright. */
  lemma {:induction false} ArchivedIsFoundInEvenSite(site: Site, toKey: ToKey, calls: seq<Call>, i: nat, request: Request, readers: nat, before: Opened)
    requires SiteWellFormed(site) && EvenSite(site) && i < |calls| && Decide(site, calls[i].0).Hit?
    requires var keys := Decide(site, calls[i].0).keys;
             OneShape(site, calls, DictOf(keys[0]), DictOf(keys[1]), DictOf(keys[2]).Keys)
    requires var w := World(site, toKey, StoreAfter(site, toKey, map[], calls), request, readers);
             Covers(w, calls[i].0) && Admitted(w, before, calls[i].0)
    ensures var keys := Decide(site, calls[i].0).keys;
            var last := LastData(site, toKey, calls, DictOf(keys[0]), DictOf(keys[1]), FingerprintOf(site, toKey, calls[i]));
            && last.Some?
            && Element(DictOf(keys[0]), DictOf(keys[1]), Simplified(DictOf(keys[2])), last.value)
                 in Retrieve(World(site, toKey, StoreAfter(site, toKey, map[], calls), request, readers), before).found
  {
    hide *;
    ArchivedIsFound(site, toKey, calls, i, request, readers, before);
    RetrieveRuns(World(site, toKey, StoreAfter(site, toKey, map[], calls), request, readers), before);
  }

  lemma {:induction false} UpperKeyNotEmpty(ps: seq<Pair>)
    requires ps != []
    ensures DictOf(ps) != map[]
  {
    NonEmptyKey(ps);
  }

  lemma {:induction false} LastExists(site: Site, toKey: ToKey, calls: seq<Call>, db: Dict, idx: Dict, i: nat)
    requires i < |calls| && Into(site, calls[i], db, idx)
    ensures LastData(site, toKey, calls, db, idx, FingerprintOf(site, toKey, calls[i])).Some?
  {
    hide Decide, Fingerprint;
    if i < |calls| - 1 {
      assert calls[..|calls| - 1][i] == calls[i];
      LastExists(site, toKey, calls[..|calls| - 1], db, idx, i);
    }
  }
}
