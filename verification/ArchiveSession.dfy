/** An archiving session (`Archiver`, `BaseArchiveVisitor`, `ArchiveVisitor` and the
    write half of `Rule::expand`), in place: a bounded table of open databases, the
    keys selected last, and key objects that the walk pushes to and pops from. */
module ArchiveSession {
  import opened Wrappers
  import opened Keys
  import opened Rules
  import opened WriteExpansion
  import opened Stores
  import opened ExpansionKeys

  /** An open database: when it was last asked for and which index is selected in it. */
  datatype OpenDatabase = OpenDatabase(stamp: int, index: Option<Dict>)

  const ONE_DAY: int := 24 * 60 * 60

  function Max(a: nat, b: nat): nat { if a < b then b else a }

  class Archiver {
    const site: Site
    const toKey: ToKey
    const limit: nat          // fdbMaxNbDBsOpen
    const clock: nat -> int   // the reading of the clock number n
    var readings: nat
    var databases: map<Dict, OpenDatabase>
    var prev0: Dict           // prev_[0] and prev_[1]
    var prev1: Dict
    var current: Option<Dict> // current_, as the key of its table entry
    var store: Store          // what the databases hold on disk

    constructor (site: Site, toKey: ToKey, limit: nat, clock: nat -> int, store: Store)
      requires forall i: nat, j: nat :: i <= j ==> clock(i) <= clock(j)
      ensures this.site == site && this.toKey == toKey && this.limit == limit && this.clock == clock
      ensures this.store == store && databases == map[]
      ensures Valid()
    {
      this.site, this.toKey, this.limit, this.clock, this.store := site, toKey, limit, clock, store;
      readings, databases, prev0, prev1, current := 0, map[], map[], map[], None;
    }

    /** The table of open databases is bounded and never stamped in the future. */
    ghost predicate TableOk()
      reads this
    {
      && (forall i: nat, j: nat :: i <= j ==> clock(i) <= clock(j))
      && |databases| <= Max(limit, 1)
      && (forall k :: k in databases ==> databases[k].stamp <= clock(readings))
    }

    /** Database `k` is the one that archiving goes to, and the cache knows it. */
    ghost predicate DatabaseSelected(k: Dict)
      reads this
    {
      prev0 == k && current == Some(k) && k in databases
    }

    ghost predicate IndexSelected(k: Dict)
      reads this
    {
      && prev1 == k && current.Some? && current.value in databases
      && databases[current.value].index == Some(k)
    }

    /** What a cached key promises: it is really selected. */
    ghost predicate Valid()
      reads this
    {
      && TableOk()
      && (prev0 != map[] ==> DatabaseSelected(prev0))
      && (prev1 != map[] ==> prev0 != map[] && IndexSelected(prev1))
    }

    /** The search for the entry to close: a least recently stamped one. */
    method Oldest() returns (victim: Dict)
      requires TableOk() && databases != map[]
      ensures victim in databases
      ensures forall k :: k in databases ==> databases[victim].stamp <= databases[k].stamp
    {
      var found := false;
      var oldest := clock(readings) + ONE_DAY;
      victim := map[];
      var todo := databases.Keys;
      while todo != {}
        invariant todo <= databases.Keys
        invariant found ==> victim in databases && oldest == databases[victim].stamp
        invariant !found ==> oldest == clock(readings) + ONE_DAY && todo == databases.Keys
        invariant forall k :: k in databases && k !in todo ==> oldest <= databases[k].stamp
      {
        var k :| k in todo;
        todo := todo - {k};
        if databases[k].stamp <= oldest {
          found, victim, oldest := true, k, databases[k].stamp;
        }
      }
    }

    /** Closes the database that `Oldest` finds when the table is full. */
    method MakeRoom()
      requires TableOk()
      modifies this`databases
      ensures TableOk() && (limit > 0 ==> |databases| < limit) && (limit == 0 ==> databases == map[])
      ensures if |old(databases)| < limit || old(databases) == map[] then databases == old(databases)
              else exists victim :: Closed(old(databases), databases, victim)
    {
      if |databases| >= limit && databases != map[] {
        var victim := Oldest();
        SizeOfRemoval(databases, victim);
        ghost var before := databases;
        databases := databases - {victim};
        assert Closed(before, databases, victim);
      }
    }

    /** `Archiver::database`: touch an open database, or open it, closing a least
        recently stamped one first when the table is full. */
    method Database(key: Dict)
      requires TableOk()
      modifies this`databases, this`readings
      ensures TableOk() && readings == old(readings) + 1
      ensures old(key in databases) ==>
                databases == old(databases)[key := old(databases[key]).(stamp := clock(readings))]
      ensures old(key !in databases) ==>
                key in databases && databases[key] == OpenDatabase(clock(readings), None) && Opened(old(databases), databases, key, limit)
    {
      if key in databases {
        assert clock(readings) <= clock(readings + 1);
        readings := readings + 1;
        SizeOfUpdate(databases, key, databases[key].(stamp := clock(readings)));
        databases := databases[key := databases[key].(stamp := clock(readings))];
      } else {
        MakeRoom();
        assert clock(readings) <= clock(readings + 1);
        SizeOfUpdate(databases, key, OpenDatabase(clock(readings + 1), None));
        readings := readings + 1;
        databases := databases[key := OpenDatabase(clock(readings), None)];
      }
    }

    /** `BaseArchiveVisitor::selectDatabase`. */
    method SelectDatabase(key: Dict)
      requires TableOk()
      modifies this`databases, this`readings, this`current
      ensures TableOk() && current == Some(key)
      ensures key in databases && databases[key] == OpenDatabase(clock(readings), None)
      ensures if old(key in databases) then databases - {key} == old(databases) - {key}
              else Opened(old(databases), databases, key, limit)
    {
      hide Opened;
      Database(key);
      current := Some(key);
      ghost var before := databases;
      databases := databases[key := databases[key].(index := None)];
      SizeOfUpdate(before, key, databases[key]);
      OpenedElsewhere(old(databases), before, key, databases[key], limit);
    }

    /** `BaseArchiveVisitor::selectIndex`. */
    method SelectIndex(key: Dict)
      requires TableOk() && current.Some? && current.value in databases
      modifies this`databases
      ensures TableOk()
      ensures databases == old(databases)[current.value := old(databases[current.value]).(index := Some(key))]
    {
      var open := databases[current.value].(index := Some(key));
      SizeOfUpdate(databases, current.value, open);
      databases := databases[current.value := open];
    }

    /** The end of a database rule: select only what is not the previous key. */
    method EnterDatabase(key: Dict)
      requires Valid() && key != map[]
      modifies this`databases, this`readings, this`current, this`prev0, this`prev1
      ensures Valid() && DatabaseSelected(key)
      ensures key == old(prev0) ==> databases == old(databases) && current == old(current) && prev1 == old(prev1)
      ensures key != old(prev0) ==> databases[key] == OpenDatabase(clock(readings), None) && prev1 == map[]
    {
      if key != prev0 {
        SelectDatabase(key);
        prev0 := key;
        prev1 := map[];
      }
    }

    /** The end of an index rule. */
    method EnterIndex(key: Dict)
      requires Valid() && key != map[] && prev0 != map[]
      modifies this`databases, this`prev1
      ensures Valid() && IndexSelected(key) && DatabaseSelected(prev0)
      ensures databases - {prev0} == old(databases) - {prev0}
    {
      if key != prev1 {
        SelectIndex(key);
        prev1 := key;
      }
    }
  }

  lemma {:induction false} SizeOfRemoval<K, V>(m: map<K, V>, k: K)
    requires k in m
    ensures |m - {k}| == |m| - 1
  {
    assert (m - {k}).Keys == m.Keys - {k};
  }

  lemma {:induction false} SizeOfUpdate<K, V>(m: map<K, V>, k: K, v: V)
    ensures |m[k := v]| == if k in m then |m| else |m| + 1
    ensures k !in m ==> m[k := v] - {k} == m
  {
    assert m[k := v].Keys == m.Keys + {k};
  }

  /** The table lost exactly `victim`, which no other entry is older than. */
  ghost predicate Closed(before: map<Dict, OpenDatabase>, after: map<Dict, OpenDatabase>, victim: Dict)
  {
    && victim in before && after == before - {victim}
    && forall k :: k in before ==> before[victim].stamp <= before[k].stamp
  }

  /** Opening `key` closes at most one entry, and that only in a full table. */
  ghost predicate Opened(before: map<Dict, OpenDatabase>, after: map<Dict, OpenDatabase>, key: Dict, limit: nat)
  {
    if |before| < limit || before == map[] then after - {key} == before
    else exists victim :: Closed(before, after - {key}, victim)
  }

  /** It says nothing about the entry that is opened. */
  lemma {:induction false} OpenedElsewhere(before: map<Dict, OpenDatabase>, after: map<Dict, OpenDatabase>, key: Dict, entry: OpenDatabase, limit: nat)
    ensures after[key := entry] - {key} == after - {key}
    ensures Opened(before, after[key := entry], key, limit) == Opened(before, after, key, limit)
  {
    assert after[key := entry] - {key} == after - {key};
  }

  // ----- Specification of one archive call -----

  /** What a decision does to the store. */
  function Stored(store: Store, d: Decision, field: Dict, toKey: ToKey, data: Data): Store
  {
    if d.Hit? && |d.keys| == 3 && field.Keys <= FullKeys(d.keys) then
      Put(store, DictOf(d.keys[0]), DictOf(d.keys[1]), toKey, d.registry, d.keys[2], data)
    else store
  }

  function StatusOf(d: Decision, field: Dict): Result<bool, Error>
  {
    match d
    case Hit(keys, _) => if field.Keys <= FullKeys(keys) then Ok(true) else Err(UnusedKeywords)
    case Pass => Ok(false)
    case Fail(error) => Err(error)
  }

  /** A decision below already matched levels, as a decision from the top. */
  function Lift(path: seq<seq<Pair>>, d: Decision): Decision
  {
    if path == [] then d else Below(path[0], Lift(path[1..], d))
  }

  lemma {:induction false} LiftBelow(path: seq<seq<Pair>>, ps: seq<Pair>, d: Decision)
    ensures Lift(path + [ps], d) == Lift(path, Below(ps, d))
  {
    if path == [] {
      assert Lift([ps], d) == Below(ps, Lift([ps][1..], d));
    } else {
      assert (path + [ps])[0] == path[0] && (path + [ps])[1..] == path[1..] + [ps];
      LiftBelow(path[1..], ps, d);
    }
  }

  lemma {:induction false} LiftHit(path: seq<seq<Pair>>, keys: seq<seq<Pair>>, registry: Registry)
    ensures Lift(path, Hit(keys, registry)) == Hit(path + keys, registry)
  {
    if path == [] {
      assert [] + keys == keys;
    } else {
      LiftHit(path[1..], keys, registry);
      assert path == [path[0]] + path[1..];
      assert ([path[0]] + path[1..]) + keys == [path[0]] + (path[1..] + keys);
      hide Lift;
    }
  }

  lemma {:induction false} LiftOther(path: seq<seq<Pair>>, d: Decision)
    requires !d.Hit?
    ensures Lift(path, d) == d
  {
    if path != [] {
      LiftOther(path[1..], d);
    }
  }

  /** The decision from predicate `cur` on, with the pairs `done` already pushed. */
  function DecideFrom(site: Site, registry: Registry, rule: Rule, cur: nat, done: seq<Pair>, depth: nat, field: Dict): Decision
    requires depth <= 2 && cur <= |rule.predicates|
  {
    match WalkField(rule.predicates[cur..], field)
    case Missing(keyword) => Fail(MissingKeyword(keyword))
    case Mismatched => Pass
    case Matched(rest) => DecideMatched(site, registry, rule, done + rest, depth, field)
  }

  lemma {:induction false} DecideFromStart(site: Site, above: Registry, rule: Rule, depth: nat, field: Dict)
    requires depth <= 2
    ensures DecideFrom(site, [rule.types] + above, rule, 0, [], depth, field) == DecideRule(site, above, rule, depth, field)
  {
    assert rule.predicates[0..] == rule.predicates;
    var w := WalkField(rule.predicates, field);
    if w.Matched? {
      assert [] + w.pairs == w.pairs;
    }
  }

  lemma {:induction false} DecideFromStep(site: Site, registry: Registry, rule: Rule, cur: nat, done: seq<Pair>, depth: nat, field: Dict)
    requires depth <= 2 && cur < |rule.predicates|
    ensures var p := rule.predicates[cur];
            DecideFrom(site, registry, rule, cur, done, depth, field) ==
            match p.Value(field)
            case None => Fail(MissingKeyword(p.keyword))
            case Some(v) => if p.matcher.Accepts(v) then DecideFrom(site, registry, rule, cur + 1, done + [(p.keyword, v)], depth, field)
                            else Pass
  {
    var ps := rule.predicates[cur..];
    assert ps[0] == rule.predicates[cur] && ps[1..] == rule.predicates[cur + 1..];
    var w := WalkField(ps[1..], field);
    var v := ps[0].Value(field);
    if v.Some? && w.Matched? {
      assert (done + [(ps[0].keyword, v.value)]) + w.pairs == done + ([(ps[0].keyword, v.value)] + w.pairs);
    }
  }

  // ----- The walk in place -----

  /** The visitor of one archive call. */
  class ArchiveVisitor {
    const owner: Archiver
    const field: Dict
    const data: Data
    var found: bool           // rule() is set

    constructor (owner: Archiver, field: Dict, data: Data)
      ensures this.owner == owner && this.field == field && this.data == data && !found
    {
      this.owner, this.field, this.data, found := owner, field, data, false;
    }
  }

  /** The databases and indexes that a walk below `path` relies on. */
  ghost predicate Entered(owner: Archiver, path: seq<seq<Pair>>)
    reads owner
  {
    && owner.Valid()
    && (|path| >= 1 ==> DictOf(path[0]) != map[] && owner.DatabaseSelected(DictOf(path[0])))
    && (|path| >= 2 ==> owner.IndexSelected(DictOf(path[1])))
  }

  function ErrorOf(r: Result<bool, Error>): Option<Error>
  {
    if r.Err? then Some(r.error) else None
  }

  /** The outcome of a walk that starts with no rule found yet. */
  ghost predicate Decided(before: Store, after: Store, d: Decision, field: Dict, toKey: ToKey, data: Data,
                          found: bool, status: Option<Error>)
  {
    && after == Stored(before, d, field, toKey, data)
    && status == ErrorOf(StatusOf(d, field))
    && (status.None? ==> found == d.Hit?)
  }

  /** `ArchiveVisitor::selectDatum`: refuse a field with unused keywords, then archive. */
  method SelectDatum(v: ArchiveVisitor, registry: Registry, key: Key, full: Key, ghost path: seq<seq<Pair>>, ghost ps: seq<Pair>)
    returns (status: Option<Error>)
    requires |path| == 2 && key == KeyOf(ps) && Distinct(Names(ps)) && full == KeyOf(Flat(path + [ps]))
    requires Entered(v.owner, path)
    modifies v.owner`store
    ensures Entered(v.owner, path)
    ensures Decided(old(v.owner.store), v.owner.store, Lift(path, Hit([ps], registry)), v.field, v.owner.toKey, v.data, true, status)
  {
    LiftHit(path, [ps], registry);
    FullKeysOfFlat(path + [ps]);
    if !(v.field.Keys <= full.dict.Keys) {
      return Some(UnusedKeywords);
    }
    PairsOfKey(ps);
    var owner := v.owner;
    var index := owner.databases[owner.current.value].index;
    owner.store := Put(owner.store, owner.current.value, index.value, owner.toKey, registry, PairsOf(key.dict, key.names), v.data);
    status := None;
  }

  /** The decision that the walk below `path` has to reach from predicate `cur` on. */
  function Target(v: ArchiveVisitor, registry: Registry, rule: Rule, cur: nat, path: seq<seq<Pair>>, done: seq<Pair>): Decision
    requires |path| <= 2 && cur <= |rule.predicates|
  {
    Lift(path, DecideFrom(v.owner.site, registry, rule, cur, done, |path|, v.field))
  }

  lemma {:induction false} TargetStep(v: ArchiveVisitor, registry: Registry, rule: Rule, cur: nat, path: seq<seq<Pair>>, done: seq<Pair>)
    requires |path| <= 2 && cur < |rule.predicates|
    ensures var p := rule.predicates[cur];
            Target(v, registry, rule, cur, path, done) ==
            match p.Value(v.field)
            case None => Fail(MissingKeyword(p.keyword))
            case Some(x) => if p.matcher.Accepts(x) then Target(v, registry, rule, cur + 1, path, done + [(p.keyword, x)]) else Pass
  {
    DecideFromStep(v.owner.site, registry, rule, cur, done, |path|, v.field);
    LiftOther(path, Pass);
    LiftOther(path, Fail(MissingKeyword(rule.predicates[cur].keyword)));
  }

  lemma {:induction false} LastPredicate(v: ArchiveVisitor, registry: Registry, rule: Rule, path: seq<seq<Pair>>, done: seq<Pair>, above: set<string>)
    requires |path| <= 2 && WellFormedFrom(rule, |rule.predicates|, above)
    ensures Target(v, registry, rule, |rule.predicates|, path, done) ==
            Lift(path, DecideMatched(v.owner.site, registry, rule, done, |path|, v.field))
    ensures rule.rules != [] ==> rule.predicates != []
    ensures forall r :: r in rule.rules ==> WellFormed(r, above)
  {
    hide DecideMatched, Lift, WellFormed;
    assert rule.predicates[|rule.predicates|..] == [] && done + [] == done;
    assert above + KeywordSet([]) == above;
  }

  /** A walk that stops without a leaf leaves the store alone. */
  lemma {:induction false} Undecided(store: Store, field: Dict, toKey: ToKey, data: Data)
    ensures Decided(store, store, Pass, field, toKey, data, false, None)
    ensures forall e :: Decided(store, store, Fail(e), field, toKey, data, false, Some(e))
  {
  }

  /** `Rule::expand` on a key, from predicate `cur` on. */
  method ExpandFrom(v: ArchiveVisitor, registry: Registry, rule: Rule, cur: nat, depth: nat, k: LevelKeys,
                    ghost path: seq<seq<Pair>>, ghost done: seq<Pair>, ghost target: Decision)
    returns (status: Option<Error>)
    requires Placed(k.keys, k.full, path, done) && depth == |path| && |done| == cur <= |rule.predicates|
    requires WellFormedFrom(rule, cur, k.full.dict.Keys)
    requires SiteWellFormed(v.owner.site) && Entered(v.owner, path)
    requires target == Target(v, registry, rule, cur, path, done)
    modifies v, v.owner, k
    ensures Entered(v.owner, path)
    ensures old(v.found) ==> status.None? && v.found && v.owner.store == old(v.owner.store)
    ensures !old(v.found) ==>
              Decided(old(v.owner.store), v.owner.store, target, v.field, v.owner.toKey, v.data, v.found, status)
    ensures status.None? ==> k.keys == old(k.keys) && k.full == old(k.full)
    decreases 3 - depth, 1, |rule.predicates| - cur
  {
    hide DecideMatched, DecideFrom, Decided, Entered, SiteWellFormed, Lift, Target, WellFormedFrom, Flat, DictOf, Names;
    if v.found {
      return None;
    }
    Undecided(v.owner.store, v.field, v.owner.toKey, v.data);
    if cur == |rule.predicates| {
      LastPredicate(v, registry, rule, path, done, k.full.dict.Keys);
      status := ExpandMatched(v, registry, rule, depth, k, path, done, target);
      return;
    }
    var p := rule.predicates[cur];
    var value := p.Value(v.field);
    TargetStep(v, registry, rule, cur, path, done);
    if value.None? {
      return Some(MissingKeyword(p.keyword));
    }
    WellFormedStep(rule, cur, k.full.dict.Keys);
    PushPlaced(k.keys, k.full, path, done, (p.keyword, value.value));
    k.Push(depth, p.keyword, value.value);
    status := None;
    if p.Match(k.keys[depth].dict) {
      status := ExpandFrom(v, registry, rule, cur + 1, depth, k, path, done + [(p.keyword, value.value)], target);
      if status.Some? {
        return;
      }
    }
    k.Pop(depth, p.keyword);
  }

  /** The end of the predicates: select at this level and go one level down, or
      archive at the leaf. */
  method ExpandMatched(v: ArchiveVisitor, registry: Registry, rule: Rule, depth: nat, k: LevelKeys,
                       ghost path: seq<seq<Pair>>, ghost done: seq<Pair>, ghost target: Decision)
    returns (status: Option<Error>)
    requires Placed(k.keys, k.full, path, done) && depth == |path|
    requires rule.rules != [] ==> done != []
    requires forall r :: r in rule.rules ==> WellFormed(r, k.full.dict.Keys)
    requires SiteWellFormed(v.owner.site) && Entered(v.owner, path) && !v.found
    requires target == Lift(path, DecideMatched(v.owner.site, registry, rule, done, depth, v.field))
    modifies v, v.owner, k
    ensures Entered(v.owner, path)
    ensures Decided(old(v.owner.store), v.owner.store, target, v.field, v.owner.toKey, v.data, v.found, status)
    ensures status.None? ==> k.keys == old(k.keys) && k.full == old(k.full)
    decreases 3 - depth, 0, 0
  {
    hide Decided, Lift, FullKeys, SiteWellFormed, DecideRules, DecideSecond, Stored, StatusOf;
    Undecided(v.owner.store, v.field, v.owner.toKey, v.data);
    LiftOther(path, Fail(RaggedRule));
    if rule.rules == [] {
      if depth != 2 {
        return Some(RaggedRule);
      }
      v.found := true;
      status := SelectDatum(v, registry, k.keys[2], k.full, path, done);
    } else if depth == 2 {
      return Some(RaggedRule);
    } else {
      NonEmptyKey(done);
      LiftBelow(path, done, DecideRules(v.owner.site, registry, rule.rules, 2, v.field));
      LiftBelow(path, done, DecideSecond(v.owner.site, DictOf(done), v.field));
      if depth == 0 {
        assert path + [done] == [done];
        v.owner.EnterDatabase(k.keys[0].dict);
        status := ExpandSecond(v, k.keys[0], done, target);
      } else {
        v.owner.EnterIndex(k.keys[1].dict);
        Descend(k.keys, k.full, path, done);
        status := ExpandRules(v, registry, rule.rules, 2, k, path + [done], target);
      }
    }
  }

  /** `Schema::expandSecond`: the walk below a database key in that database's schema. */
  method ExpandSecond(v: ArchiveVisitor, db: Key, ghost ps: seq<Pair>, ghost target: Decision) returns (status: Option<Error>)
    requires db == KeyOf(ps) && Distinct(Names(ps))
    requires SiteWellFormed(v.owner.site) && Entered(v.owner, [ps]) && !v.found
    requires target == Lift([ps], DecideSecond(v.owner.site, db.dict, v.field))
    modifies v, v.owner
    ensures Entered(v.owner, [ps])
    ensures Decided(old(v.owner.store), v.owner.store, target, v.field, v.owner.toKey, v.data, v.found, status)
    decreases 2, 3, 0
  {
    hide Decided, Lift, Entered, DecideRules;
    var schema := v.owner.site.schemaOf(db.dict);
    var dbRule := FirstMatch(schema.rules, db.dict);
    if dbRule.None? {
      Undecided(v.owner.store, v.field, v.owner.toKey, v.data);
      LiftOther([ps], Fail(NoDatabaseRule));
      return Some(NoDatabaseRule);
    }
    var k := new LevelKeys.Below(db);
    DescendAfresh(ps);
    status := ExpandRules(v, [dbRule.value.types, schema.types], dbRule.value.rules, 1, k, [ps], target);
  }

  /** The loops over sibling rules. */
  method ExpandRules(v: ArchiveVisitor, above: Registry, rules: seq<Rule>, depth: nat, k: LevelKeys,
                     ghost path: seq<seq<Pair>>, ghost target: Decision)
    returns (status: Option<Error>)
    requires Placed(k.keys, k.full, path, []) && depth == |path|
    requires forall r :: r in rules ==> WellFormed(r, k.full.dict.Keys)
    requires SiteWellFormed(v.owner.site) && Entered(v.owner, path) && !v.found
    requires target == Lift(path, DecideRules(v.owner.site, above, rules, depth, v.field))
    modifies v, v.owner, k
    ensures Entered(v.owner, path)
    ensures Decided(old(v.owner.store), v.owner.store, target, v.field, v.owner.toKey, v.data, v.found, status)
    ensures status.None? ==> k.keys == old(k.keys) && k.full == old(k.full)
    decreases 3 - depth, 2, 0
  {
    hide Lift, FullKeys, SiteWellFormed, DecideRules, DecideRule, Entered, Decided, Stored, StatusOf, WellFormed, WellFormedFrom, Target;
    Undecided(v.owner.store, v.field, v.owner.toKey, v.data);
    assert rules[0..] == rules;
    var i := 0;
    while i < |rules|
      invariant 0 <= i <= |rules|
      invariant Entered(v.owner, path) && k.keys == old(k.keys) && k.full == old(k.full)
      invariant v.found ==> Decided(old(v.owner.store), v.owner.store, target, v.field, v.owner.toKey, v.data, true, None)
      invariant !v.found ==> v.owner.store == old(v.owner.store)
      invariant !v.found ==> target == Lift(path, DecideRules(v.owner.site, above, rules[i..], depth, v.field))
    {
      var r := rules[i];
      ghost var mine := Lift(path, DecideRule(v.owner.site, above, r, depth, v.field));
      ghost var before := v.found;
      NextSibling(v, above, rules[i..], path);
      assert rules[i..][1..] == rules[i + 1..];
      StartOfRule(v, above, r, path);
      WellFormedStart(r, k.full.dict.Keys);
      status := ExpandFrom(v, [r.types] + above, r, 0, depth, k, path, [], mine);
      if !before {
        WhatWasDecided(old(v.owner.store), v.owner.store, mine, v.field, v.owner.toKey, v.data, v.found, status);
      }
      if status.Some? {
        return;
      }
      i := i + 1;
    }
    status := None;
    LiftOther(path, Pass);
    if !v.found {
      NextSibling(v, above, rules[i..], path);
    }
  }

  /** A sibling that passes leaves the decision to the rest, any other one makes it. */
  lemma {:induction false} NextSibling(v: ArchiveVisitor, above: Registry, rules: seq<Rule>, path: seq<seq<Pair>>)
    requires |path| <= 2
    ensures rules == [] ==> DecideRules(v.owner.site, above, rules, |path|, v.field) == Pass
    ensures rules != [] ==>
              var mine := Lift(path, DecideRule(v.owner.site, above, rules[0], |path|, v.field));
              Lift(path, DecideRules(v.owner.site, above, rules, |path|, v.field)) ==
              if mine.Pass? then Lift(path, DecideRules(v.owner.site, above, rules[1..], |path|, v.field)) else mine
  {
    if rules != [] {
      var mine := DecideRule(v.owner.site, above, rules[0], |path|, v.field);
      LiftPass(path, mine);
    }
  }

  lemma {:induction false} LiftPass(path: seq<seq<Pair>>, d: Decision)
    ensures Lift(path, d).Pass? <==> d.Pass?
  {
    if path != [] {
      LiftPass(path[1..], d);
    }
  }

  lemma {:induction false} StartOfRule(v: ArchiveVisitor, above: Registry, rule: Rule, path: seq<seq<Pair>>)
    requires |path| <= 2
    ensures Target(v, [rule.types] + above, rule, 0, path, []) ==
            Lift(path, DecideRule(v.owner.site, above, rule, |path|, v.field))
  {
    hide DecideRule, DecideFrom, Lift;
    DecideFromStart(v.owner.site, above, rule, |path|, v.field);
  }

  /** Reading the outcome of one sibling back. */
  lemma {:induction false} WhatWasDecided(before: Store, after: Store, d: Decision, field: Dict, toKey: ToKey, data: Data,
                                          found: bool, status: Option<Error>)
    requires Decided(before, after, d, field, toKey, data, found, status)
    ensures status.Some? || found ==> !d.Pass?
    ensures status.None? && !found ==> d.Pass? && after == before
  {
  }

  /** The store after one archive call, as the decision alone determines it. */
  function Archived(site: Site, toKey: ToKey, store: Store, field: Dict, data: Data): Store
  {
    var d := Decide(site, field);
    if d.Hit? then
      Put(store, DictOf(d.keys[0]), DictOf(d.keys[1]), toKey, d.registry, d.keys[2], data)
    else store
  }

  /** The store after a run of archive calls. */
  function StoreAfter(site: Site, toKey: ToKey, store: Store, calls: seq<(Dict, Data)>): Store
  {
    if calls == [] then store
    else
      var last := calls[|calls| - 1];
      Archived(site, toKey, StoreAfter(site, toKey, store, calls[..|calls| - 1]), last.0, last.1)
  }

  /** `Archiver::archive`: whatever was selected before, the datum goes to the
      database and the index that its own keys name, and a failed call stores nothing. */
  method Archive(owner: Archiver, field: Dict, data: Data) returns (status: Option<Error>)
    requires owner.Valid() && SiteWellFormed(owner.site)
    modifies owner
    ensures owner.Valid()
    ensures owner.store == Archived(owner.site, owner.toKey, old(owner.store), field, data)
    ensures status.None? <==> Decide(owner.site, field).Hit?
    ensures status.Some? ==> Decide(owner.site, field) == Fail(status.value)
  {
    hide DecideRules, Put, FullKeys;
    var v := new ArchiveVisitor(owner, field, data);
    var k := new LevelKeys();
    ghost var d := DecideRules(owner.site, [owner.site.master.types], owner.site.master.rules, 0, field);
    EmptyStart();
    assert k.full.dict.Keys == {};
    status := ExpandRules(v, [owner.site.master.types], owner.site.master.rules, 0, k, [], d);
    if d.Hit? {
      HitLevelsOfRules(owner.site, [owner.site.master.types], owner.site.master.rules, 0, field);
    }
    if status.None? && !v.found {
      status := Some(NoRule);
    }
  }
}
