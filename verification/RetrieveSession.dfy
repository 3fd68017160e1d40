/** A retrieval in place (`MultiRetrieveVisitor` and the read half of `Rule::expand`):
    nested loops over the values of each keyword that push to and pop from the level
    keys, proved to do what the specification of read expansion says. */
module RetrieveSession {
  import opened Wrappers
  import opened Keys
  import opened Rules
  import opened WriteExpansion
  import opened Stores
  import opened ExpansionKeys
  import opened ReadExpansion

  class MultiRetrieveVisitor {
    const w: World
    var db: Option<Dict>
    var open: seq<Dict>
    var selected: map<Dict, Dict>
    var found: seq<Element>

    constructor (w: World, before: Opened)
      ensures this.w == w && State(None) == Fresh(before)
    {
      this.w := w;
      db, open, selected, found := None, before.open, before.selected, [];
    }

    function State(threw: Option<Error>): Reader
      reads this
    {
      Reader(db, open, selected, found, threw)
    }

    /** `MultiRetrieveVisitor::selectDatabase`, with its table of open databases. */
    method SelectDatabase(key: Dict) returns (ok: bool)
      modifies this`db, this`open, this`selected
      ensures var r := ReadExpansion.SelectDatabase(w, old(State(None)), key);
              ok == r.Some? && State(None) == if ok then r.value else old(State(None))
    {
      if db == Some(key) {
        return true;
      }
      if key in open {
        Touch(key);
        db := Some(key);
        return true;
      }
      ok := key in w.store;
      if ok {
        var staying := Staying(open, w.readers);
        selected := map k | k in selected && k in staying :: selected[k];
        open := [key] + staying;
        db := Some(key);
      }
    }

    /** The entry of a database moves to the front of the table. */
    method Touch(key: Dict)
      modifies this`open
      ensures open == [key] + Without(old(open), key)
    {
      var rest: seq<Dict> := [];
      var i := 0;
      assert open[0..] == open && Without([], key) == [];
      hide Without;
      while i < |open|
        invariant 0 <= i <= |open| && open == old(open)
        invariant Without(open, key) == rest + Without(open[i..], key)
      {
        WithoutStep(rest, open, i, key);
        if open[i] != key {
          rest := rest + [open[i]];
        }
        i := i + 1;
      }
      assert open[i..] == [] && rest + [] == rest;
      open := [key] + rest;
    }

    /** `MultiRetrieveVisitor::selectIndex`. */
    method SelectIndex(key: Dict) returns (ok: bool)
      requires db.Some?
      modifies this`selected
      ensures (State(None), ok) == ReadExpansion.SelectIndex(w, old(State(None)), key)
    {
      var current := if db.value in selected then selected[db.value] else map[];
      if current == key {
        return true;
      }
      selected := selected[db.value := key];
      ok := db.value in w.store && key in w.store[db.value];
    }

    /** `MultiRetrieveVisitor::selectDatum`. */
    method SelectDatum(registry: Registry, key: Key, ghost ps: seq<Pair>)
      requires db.Some? && key == KeyOf(ps) && Distinct(Names(ps))
      modifies this`found
      ensures State(None) == ReadExpansion.SelectDatum(w, old(State(None)), registry, ps)
    {
      PairsOfKey(ps);
      var index := CurrentIndex(w, State(None));
      var fingerprint := Fingerprint(w.toKey, registry, PairsOf(key.dict, key.names));
      if index.Some? && Contains(index.value.axes, w.toKey, registry, key.dict) && fingerprint in index.value.entries {
        found := found + [Element(db.value, selected[db.value], Simplified(key.dict), index.value.entries[fingerprint])];
      }
    }

    /** `MultiRetrieveVisitor::values`: the loop that filters by the axis. */
    method Values(registry: Registry, keyword: string) returns (values: seq<string>)
      ensures values == ReadExpansion.Values(w, State(None), registry, keyword)
    {
      var list := Listed(w, registry, keyword);
      var axis := AxisOf(w, State(None), keyword);
      var toKey := v => w.toKey(TypeOf(registry, keyword), v);
      values := [];
      var i := 0;
      while i < |list|
        invariant 0 <= i <= |list|
        invariant values + Filtered(list[i..], toKey, axis) == Filtered(list, toKey, axis)
      {
        hide Listed, AxisOf, Filtered;
        FilterStep(values, list, i, toKey, axis);
        if axis.None? || toKey(list[i]) in axis.value {
          values := values + [list[i]];
        }
        i := i + 1;
      }
    }
  }

  /** One entry more on the way through the table. */
  lemma {:induction false} WithoutStep(rest: seq<Dict>, open: seq<Dict>, i: nat, key: Dict)
    requires i < |open|
    ensures rest + Without(open[i..], key) == (if open[i] == key then rest else rest + [open[i]]) + Without(open[i + 1..], key)
  {
    assert open[i..][0] == open[i] && open[i..][1..] == open[i + 1..];
  }

  /** One value more through the filter of an axis. */
  lemma {:induction false} FilterStep(values: seq<string>, list: seq<string>, i: nat, toKey: string -> string, axis: Option<set<string>>)
    requires i < |list|
    ensures values + Filtered(list[i..], toKey, axis) ==
            (if axis.None? || toKey(list[i]) in axis.value then values + [list[i]] else values) + Filtered(list[i + 1..], toKey, axis)
  {
    var rest := Filtered(list[i + 1..], toKey, axis);
    assert list[i..][0] == list[i] && list[i..][1..] == list[i + 1..];
    hide Filtered;
    assert values + ([list[i]] + rest) == (values + [list[i]]) + rest;
  }

  /** `Rule::expand` on a request, from predicate `cur` on: the loop over the values. */
  method ExpandFrom(v: MultiRetrieveVisitor, registry: Registry, rule: Rule, cur: nat, depth: nat, k: LevelKeys,
                    ghost path: seq<seq<Pair>>, ghost done: seq<Pair>)
    returns (status: Option<Error>)
    requires Placed(k.keys, k.full, path, done) && depth == |path| && |done| == cur <= |rule.predicates|
    requires WellFormedFrom(rule, cur, k.full.dict.Keys) && SiteWellFormed(v.w.site)
    modifies v, k
    ensures v.State(status) == ReadFrom(v.w, registry, rule, cur, depth, done, old(v.State(None)))
    ensures status.None? ==> k.keys == old(k.keys) && k.full == old(k.full)
    decreases 3 - depth, 1, |rule.predicates| - cur
  {
    hide Reach, ReadValues, SiteWellFormed, WellFormedFrom, Flat, DictOf, Names, ReadExpansion.Values;
    if cur == |rule.predicates| {
      LastWellFormed(rule, k.full.dict.Keys);
      status := ExpandReached(v, registry, rule, depth, k, path, done);
      return;
    }
    var p := rule.predicates[cur];
    var values := v.Values(registry, p.keyword);
    if values == [] && p.matcher.Optional() {
      values := [p.matcher.def];
    }
    status := ExpandValues(v, registry, rule, cur, depth, k, values, path, done);
  }

  method ExpandValues(v: MultiRetrieveVisitor, registry: Registry, rule: Rule, cur: nat, depth: nat, k: LevelKeys, values: seq<string>,
                      ghost path: seq<seq<Pair>>, ghost done: seq<Pair>)
    returns (status: Option<Error>)
    requires Placed(k.keys, k.full, path, done) && depth == |path| && |done| == cur < |rule.predicates|
    requires WellFormedFrom(rule, cur, k.full.dict.Keys) && SiteWellFormed(v.w.site)
    modifies v, k
    ensures v.State(status) == ReadValues(v.w, registry, rule, cur, depth, done, values, old(v.State(None)))
    ensures status.None? ==> k.keys == old(k.keys) && k.full == old(k.full)
    decreases 3 - depth, 1, |rule.predicates| - cur, 0
  {
    hide ReadFrom, SiteWellFormed, WellFormedFrom, Flat, DictOf, Names;
    var p := rule.predicates[cur];
    WellFormedStep(rule, cur, k.full.dict.Keys);
    status := None;
    var i := 0;
    assert values[0..] == values;
    while i < |values|
      invariant 0 <= i <= |values| && status.None?
      invariant k.keys == old(k.keys) && k.full == old(k.full)
      invariant ReadValues(v.w, registry, rule, cur, depth, done, values[i..], v.State(None)) ==
                ReadValues(v.w, registry, rule, cur, depth, done, values, old(v.State(None)))
    {
      assert values[i..][1..] == values[i + 1..];
      PushPlaced(k.keys, k.full, path, done, (p.keyword, values[i]));
      k.Push(depth, p.keyword, values[i]);
      if p.Match(k.keys[depth].dict) {
        status := ExpandFrom(v, registry, rule, cur + 1, depth, k, path, done + [(p.keyword, values[i])]);
        if status.Some? {
          return;
        }
      }
      k.Pop(depth, p.keyword);
      i := i + 1;
    }
  }

  /** The end of the predicates: select, then go down or look the datum up. */
  method ExpandReached(v: MultiRetrieveVisitor, registry: Registry, rule: Rule, depth: nat, k: LevelKeys,
                       ghost path: seq<seq<Pair>>, ghost ps: seq<Pair>)
    returns (status: Option<Error>)
    requires Placed(k.keys, k.full, path, ps) && depth == |path|
    requires (forall r :: r in rule.rules ==> WellFormed(r, k.full.dict.Keys)) && SiteWellFormed(v.w.site)
    modifies v, k
    ensures v.State(status) == Reach(v.w, registry, rule, depth, ps, old(v.State(None)))
    ensures status.None? ==> k.keys == old(k.keys) && k.full == old(k.full)
    decreases 3 - depth, 0, 0
  {
    hide ReadRules, ReadSecond, Flat, DictOf, Names, SiteWellFormed, ReadExpansion.SelectDatum;
    LevelAt(k.keys, k.full, path, ps);
    if (rule.rules == []) != (depth == 2) {
      return Some(RaggedRule);
    }
    if depth == 0 {
      var ok := v.SelectDatabase(k.keys[0].dict);
      if !ok {
        return None;
      }
      // the source asserts here that the database key is the full key
      FullAtDatabase(k.keys, k.full, path, ps);
      assert k.keys[0] == k.full;
      status := ExpandSecond(v, k.keys[0], ps);
    } else if v.db.None? {
      return Some(NoDatabase);
    } else if depth == 1 {
      assert Reach(v.w, registry, rule, 1, ps, v.State(None)) ==
             (var (entered, ok) := ReadExpansion.SelectIndex(v.w, v.State(None), DictOf(ps));
              if ok then ReadRules(v.w, registry, rule.rules, 2, entered) else entered);
      var ok := v.SelectIndex(k.keys[1].dict);
      if !ok {
        return None;
      }
      Descend(k.keys, k.full, path, ps);
      status := ExpandRules(v, registry, rule.rules, 2, k, path + [ps]);
    } else {
      // at the datum the full key is the union of the three keys
      FullAtDatum(k.keys, k.full, path, ps);
      assert k.full.dict == k.keys[0].dict + k.keys[1].dict + k.keys[2].dict;
      v.SelectDatum(registry, k.keys[2], ps);
      status := None;
    }
  }

  lemma {:induction false} LevelAt(keys: seq<Key>, full: Key, path: seq<seq<Pair>>, ps: seq<Pair>)
    requires Placed(keys, full, path, ps)
    ensures |keys| == 3 && keys[|path|] == KeyOf(ps)
  {
    hide DictOf, Flat;
  }

  lemma {:induction false} FullAtDatabase(keys: seq<Key>, full: Key, path: seq<seq<Pair>>, ps: seq<Pair>)
    requires Placed(keys, full, path, ps) && path == []
    ensures keys[0] == full
  {
    FlatGrow([], ps);
    assert [] + [ps] == [ps] && [] + ps == ps;
  }

  lemma {:induction false} FullAtDatum(keys: seq<Key>, full: Key, path: seq<seq<Pair>>, ps: seq<Pair>)
    requires Placed(keys, full, path, ps) && |path| == 2
    ensures full.dict == keys[0].dict + keys[1].dict + keys[2].dict
  {
    hide DictOf, Flat;
    assert path + [ps] == [path[0], path[1], ps];
    assert keys[0] == KeyOf(path[0]) && keys[1] == KeyOf(path[1]) && keys[2] == KeyOf(ps);
    FullIsUnion(path[0], path[1], ps);
  }

  /** `Schema::expandSecond` on a request. */
  method ExpandSecond(v: MultiRetrieveVisitor, db: Key, ghost ps: seq<Pair>) returns (status: Option<Error>)
    requires db == KeyOf(ps) && Distinct(Names(ps)) && SiteWellFormed(v.w.site)
    modifies v
    ensures v.State(status) == ReadSecond(v.w, db.dict, old(v.State(None)))
    decreases 2, 3, 0
  {
    hide ReadRules, Flat, DictOf, Names;
    var schema := v.w.site.schemaOf(db.dict);
    var dbRule := FirstMatch(schema.rules, db.dict);
    if dbRule.None? {
      return Some(NoDatabaseRule);
    }
    var k := new LevelKeys.Below(db);
    DescendAfresh(ps);
    status := ExpandRules(v, [dbRule.value.types, schema.types], dbRule.value.rules, 1, k, [ps]);
  }

  /** The loops over sibling rules. */
  method ExpandRules(v: MultiRetrieveVisitor, above: Registry, rules: seq<Rule>, depth: nat, k: LevelKeys, ghost path: seq<seq<Pair>>)
    returns (status: Option<Error>)
    requires Placed(k.keys, k.full, path, []) && depth == |path|
    requires (forall r :: r in rules ==> WellFormed(r, k.full.dict.Keys)) && SiteWellFormed(v.w.site)
    modifies v, k
    ensures v.State(status) == ReadRules(v.w, above, rules, depth, old(v.State(None)))
    ensures status.None? ==> k.keys == old(k.keys) && k.full == old(k.full)
    decreases 3 - depth, 2, 0
  {
    hide ReadFrom, SiteWellFormed, WellFormed, WellFormedFrom, Flat, DictOf, Names;
    status := None;
    var i := 0;
    assert rules[0..] == rules;
    while i < |rules|
      invariant 0 <= i <= |rules| && status.None?
      invariant k.keys == old(k.keys) && k.full == old(k.full)
      invariant ReadRules(v.w, above, rules[i..], depth, v.State(None)) == ReadRules(v.w, above, rules, depth, old(v.State(None)))
    {
      assert rules[i..][1..] == rules[i + 1..];
      WellFormedStart(rules[i], k.full.dict.Keys);
      status := ExpandFrom(v, [rules[i].types] + above, rules[i], 0, depth, k, path, []);
      if status.Some? {
        return;
      }
      i := i + 1;
    }
  }

  /** `Schema::expand` on a request with a new visitor: in place, exactly the
      specification, with the exception that ended it, if any. */
  method RetrieveAll(w: World, before: Opened) returns (found: seq<Element>, status: Option<Error>)
    requires SiteWellFormed(w.site)
    ensures found == Retrieve(w, before).found && status == Retrieve(w, before).threw
  {
    hide ReadRules, WellFormed, Flat;
    var v := new MultiRetrieveVisitor(w, before);
    var k := new LevelKeys();
    EmptyStart();
    assert k.full.dict.Keys == {};
    status := ExpandRules(v, [w.site.master.types], w.site.master.rules, 0, k, []);
    found := v.found;
    assert v.State(status) == Retrieve(w, before);
  }
}
