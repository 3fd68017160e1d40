/** Why the indexes that can be selected have to admit a field: a keyword that one rule uses
    for its datums and a sibling for its indexes is filtered by the axis of the index that
    the first rule selected, and an archived datum is not found. */
module StaleAxis {
  import opened Wrappers
  import opened Keys
  import opened Rules
  import opened WriteExpansion
  import opened Stores
  import opened ReadExpansion
  import opened ArchiveSession
  import opened Completeness
  import opened ArchiveRetrieve

  const FIRST_DATUM := Rule([Predicate("x", MatchAlways)], [], map[])
  const FIRST_INDEX := Rule([Predicate("b", MatchValue("1"))], [FIRST_DATUM], map[])
  const SECOND_DATUM := Rule([Predicate("d", MatchAlways)], [], map[])
  const SECOND_INDEX := Rule([Predicate("b", MatchValue("2")), Predicate("x", MatchAlways)], [SECOND_DATUM], map[])
  const DATABASE := Rule([Predicate("a", MatchAlways)], [FIRST_INDEX, SECOND_INDEX], map[])
  const SCHEMA := Schema(map[], [DATABASE])
  const SITE := Site(SCHEMA, (k: Dict) => SCHEMA)
  const IDENTITY: ToKey := (t: string, v: string) => v

  const FIELD1: Dict := map["a" := "1", "b" := "1", "x" := "1"]
  const FIELD2: Dict := map["a" := "1", "b" := "2", "x" := "2", "d" := "1"]
  const CALLS: seq<(Dict, Data)> := [(FIELD1, "one"), (FIELD2, "two")]
  const REQUEST: Request := map["a" := ["1"], "b" := ["1", "2"], "x" := ["1", "2"], "d" := ["1"]]

  const DB: Dict := map["a" := "1"]
  const IDX1: Dict := map["b" := "1"]
  const IDX2: Dict := map["b" := "2", "x" := "2"]

  lemma {:induction false} Dict1(p: Pair)
    ensures DictOf([p]) == map[p.0 := p.1]
  {
    assert [p][..0] == [];
  }

  lemma {:induction false} Dict2(p: Pair, q: Pair)
    ensures DictOf([p, q]) == map[p.0 := p.1][q.0 := q.1]
  {
    assert [p, q][..1] == [p];
    Dict1(p);
  }

  lemma {:induction false} Walk1(p: Predicate, field: Dict)
    requires p.keyword in field && !p.matcher.Optional()
    ensures WalkField([p], field) == if p.matcher.Accepts(field[p.keyword]) then Matched([(p.keyword, field[p.keyword])]) else Mismatched
  {
    assert [p][1..] == [];
    assert [(p.keyword, field[p.keyword])] + [] == [(p.keyword, field[p.keyword])];
  }

  lemma {:induction false} Walk2(p: Predicate, q: Predicate, field: Dict)
    requires p.keyword in field && !p.matcher.Optional() && p.matcher.Accepts(field[p.keyword])
    requires q.keyword in field && !q.matcher.Optional() && q.matcher.Accepts(field[q.keyword])
    ensures WalkField([p, q], field) == Matched([(p.keyword, field[p.keyword]), (q.keyword, field[q.keyword])])
  {
    assert [p, q][1..] == [q];
    Walk1(q, field);
  }

  const NONE: Types := map[]

  lemma {:induction false} DatabaseStep(f: Dict)
    requires "a" in f && f["a"] == "1"
    ensures DecideRules(SITE, [NONE], [DATABASE], 0, f) ==
            Below([("a", "1")], DecideRules(SITE, [NONE, NONE], [FIRST_INDEX, SECOND_INDEX], 1, f))
  {
    hide DecideRules;
    Walk1(DATABASE.predicates[0], f);
    Dict1(("a", "1"));
    assert DecideRule(SITE, [NONE], DATABASE, 0, f) ==
           Below([("a", "1")], DecideRules(SITE, [NONE, NONE], [FIRST_INDEX, SECOND_INDEX], 1, f));
    OnlyRule(SITE, [NONE], DATABASE, 0, f);
  }

  lemma {:induction false} OnlyRule(site: Site, above: Registry, rule: Rule, depth: nat, f: Dict)
    requires depth <= 2
    ensures DecideRules(site, above, [rule], depth, f) == DecideRule(site, above, rule, depth, f)
  {
    hide DecideRule;
    assert [rule][1..] == [];
    assert DecideRules(site, above, [], depth, f) == Pass;
  }

  lemma {:induction false} DatumStep(rule: Rule, k: string, f: Dict)
    requires rule == Rule([Predicate(k, MatchAlways)], [], NONE) && k in f
    ensures DecideRules(SITE, [NONE, NONE, NONE], [rule], 2, f) == Hit([[(k, f[k])]], [NONE, NONE, NONE, NONE])
  {
    hide DecideRules;
    OnlyRule(SITE, [NONE, NONE, NONE], rule, 2, f);
    Walk1(rule.predicates[0], f);
    assert [NONE] + [NONE, NONE, NONE] == [NONE, NONE, NONE, NONE];
  }

  lemma {:induction false} ThreeLevels(p0: seq<Pair>, p1: seq<Pair>, p2: seq<Pair>, registry: Registry)
    ensures Below(p0, Below(p1, Hit([p2], registry))) == Hit([p0, p1, p2], registry)
    ensures FullKeys([p0, p1, p2]) == DictOf(p0).Keys + DictOf(p1).Keys + DictOf(p2).Keys
  {
    hide DictOf;
    assert [p1] + [p2] == [p1, p2] && [p0] + [p1, p2] == [p0, p1, p2];
    assert [p0, p1, p2][1..] == [p1, p2] && [p1, p2][1..] == [p2] && [p2][1..] == [];
    assert FullKeys([p2]) == DictOf(p2).Keys + FullKeys([]);
    assert FullKeys([p1, p2]) == DictOf(p1).Keys + FullKeys([p2]);
  }

  /** Where the two fields go. */
  lemma {:induction false} Decisions()
    ensures Decide(SITE, FIELD1) == Hit([[("a", "1")], [("b", "1")], [("x", "1")]], [NONE, NONE, NONE, NONE])
    ensures Decide(SITE, FIELD2) == Hit([[("a", "1")], [("b", "2"), ("x", "2")], [("d", "1")]], [NONE, NONE, NONE, NONE])
  {
    hide *;
    Decision1();
    Decision2();
  }

  lemma {:induction false} Decision1()
    ensures Decide(SITE, FIELD1) == Hit([[("a", "1")], [("b", "1")], [("x", "1")]], [NONE, NONE, NONE, NONE])
  {
    var above := [NONE, NONE];
    assert [NONE] + above == [NONE, NONE, NONE];
    DatabaseStep(FIELD1);
    Dict1(("a", "1"));
    Dict1(("b", "1"));
    Dict1(("x", "1"));
    ThreeLevels([("a", "1")], [("b", "1")], [("x", "1")], [NONE, NONE, NONE, NONE]);
    Walk1(FIRST_INDEX.predicates[0], FIELD1);
    DatumStep(FIRST_DATUM, "x", FIELD1);
    assert DecideRules(SITE, above, [FIRST_INDEX, SECOND_INDEX], 1, FIELD1) == DecideRule(SITE, above, FIRST_INDEX, 1, FIELD1);
  }

  lemma {:induction false} Decision2()
    ensures Decide(SITE, FIELD2) == Hit([[("a", "1")], [("b", "2"), ("x", "2")], [("d", "1")]], [NONE, NONE, NONE, NONE])
  {
    var above := [NONE, NONE];
    assert [NONE] + above == [NONE, NONE, NONE];
    DatabaseStep(FIELD2);
    Dict1(("a", "1"));
    Dict1(("d", "1"));
    Dict2(("b", "2"), ("x", "2"));
    ThreeLevels([("a", "1")], [("b", "2"), ("x", "2")], [("d", "1")], [NONE, NONE, NONE, NONE]);
    Walk1(FIRST_INDEX.predicates[0], FIELD2);
    assert [FIRST_INDEX, SECOND_INDEX][1..] == [SECOND_INDEX];
    OnlyRule(SITE, above, SECOND_INDEX, 1, FIELD2);
    Walk2(SECOND_INDEX.predicates[0], SECOND_INDEX.predicates[1], FIELD2);
    DatumStep(SECOND_DATUM, "d", FIELD2);
    assert DecideRules(SITE, above, [FIRST_INDEX, SECOND_INDEX], 1, FIELD2) == DecideRule(SITE, above, SECOND_INDEX, 1, FIELD2);
  }

  const STORE: Store := map[DB := map[IDX1 := Index(map["x" := {"1"}], map["1" := "one"]),
                                      IDX2 := Index(map["d" := {"1"}], map["1" := "two"])]]
  const NOTHING_OPEN := Opened([], map[])
  const WORLD := World(SITE, IDENTITY, STORE, REQUEST, 16)

  lemma {:induction false} FirstPut(registry: Registry, k: string, data: Data)
    ensures PutIndex(EMPTY_INDEX, IDENTITY, registry, [(k, "1")], data) == Index(map[k := {"1"}], map["1" := data])
  {
    Dict1((k, "1"));
    assert Canonical(IDENTITY, registry, (k, "1")) == "1";
    var axes := InsertAxes(map[], IDENTITY, registry, map[k := "1"]);
    assert axes[k] == {} + {Canonical(IDENTITY, registry, (k, "1"))} == {"1"};
    assert axes.Keys == {k};
  }

  /** The store after the two archive calls. */
  lemma {:induction false} StoreOfRun()
    ensures StoreAfter(SITE, IDENTITY, map[], CALLS) == STORE
  {
    hide Decide;
    Decisions();
    Dict1(("a", "1"));
    Dict1(("b", "1"));
    Dict1(("x", "1"));
    Dict1(("d", "1"));
    Dict2(("b", "2"), ("x", "2"));
    var registry := [NONE, NONE, NONE, NONE];
    var first := Index(map["x" := {"1"}], map["1" := "one"]);
    var second := Index(map["d" := {"1"}], map["1" := "two"]);
    FirstPut(registry, "x", "one");
    FirstPut(registry, "d", "two");
    assert CALLS[..1] == [CALLS[0]] && [CALLS[0]][..0] == [];
    assert StoreAfter(SITE, IDENTITY, map[], []) == map[];
    assert StoreAfter(SITE, IDENTITY, map[], [CALLS[0]]) == map[DB := map[IDX1 := first]];
    assert CALLS[|CALLS| - 1] == (FIELD2, "two");
    assert StoreAfter(SITE, IDENTITY, map[], CALLS) == Archived(SITE, IDENTITY, map[DB := map[IDX1 := first]], FIELD2, "two");
    assert IDX2 != IDX1 by { assert "x" in IDX2 && "x" !in IDX1; }
    assert Archived(SITE, IDENTITY, map[DB := map[IDX1 := first]], FIELD2, "two") == map[DB := map[IDX1 := first][IDX2 := second]];
  }

  /** A one-predicate rule over one value. */
  lemma {:induction false} OneValue(registry: Registry, rule: Rule, depth: nat, v: string, s: Reader)
    requires depth <= 2 && |rule.predicates| == 1 && s.threw.None?
    requires Candidates(WORLD, s, registry, rule.predicates[0]) == [v] && rule.predicates[0].matcher.Accepts(v)
    ensures ReadFrom(WORLD, registry, rule, 0, depth, [], s) == Reach(WORLD, registry, rule, depth, [(rule.predicates[0].keyword, v)], s)
  {
    hide Reach, Candidates;
    var p := rule.predicates[0];
    var pair := (p.keyword, v);
    assert [v][1..] == [] && [] + [pair] == [pair];
    var after := ReadFrom(WORLD, registry, rule, 1, depth, [pair], s);
    assert after == Reach(WORLD, registry, rule, depth, [pair], s);
    assert ReadValues(WORLD, registry, rule, 0, depth, [], [], after) == after;
    assert ReadValues(WORLD, registry, rule, 0, depth, [], [v], s) == ReadValues(WORLD, registry, rule, 0, depth, [], [v][1..], after);
  }

  /** A rule whose first predicate refuses the first of two values. */
  lemma {:induction false} SecondOfTwo(registry: Registry, rule: Rule, depth: nat, v: string, u: string, s: Reader)
    requires depth <= 2 && |rule.predicates| >= 1 && s.threw.None?
    requires Candidates(WORLD, s, registry, rule.predicates[0]) == [v, u]
    requires !rule.predicates[0].matcher.Accepts(v) && rule.predicates[0].matcher.Accepts(u)
    ensures ReadFrom(WORLD, registry, rule, 0, depth, [], s)
         == ReadFrom(WORLD, registry, rule, 1, depth, [(rule.predicates[0].keyword, u)], s)
  {
    hide Reach, Candidates;
    var pair := (rule.predicates[0].keyword, u);
    assert [v, u][1..] == [u] && [u][1..] == [] && [] + [pair] == [pair];
    var after := ReadFrom(WORLD, registry, rule, 1, depth, [pair], s);
    assert ReadValues(WORLD, registry, rule, 0, depth, [], [], after) == after;
    assert ReadValues(WORLD, registry, rule, 0, depth, [], [u], s) == after;
  }

  lemma {:induction false} FirstOfTwo(registry: Registry, rule: Rule, depth: nat, v: string, u: string, s: Reader)
    requires depth <= 2 && |rule.predicates| == 1 && s.threw.None?
    requires Candidates(WORLD, s, registry, rule.predicates[0]) == [v, u]
    requires rule.predicates[0].matcher.Accepts(v) && !rule.predicates[0].matcher.Accepts(u)
    ensures ReadFrom(WORLD, registry, rule, 0, depth, [], s) == Reach(WORLD, registry, rule, depth, [(rule.predicates[0].keyword, v)], s)
  {
    hide Reach, Candidates;
    var pair := (rule.predicates[0].keyword, v);
    assert [v, u][1..] == [u] && [u][1..] == [] && [] + [pair] == [pair];
    var after := Reach(WORLD, registry, rule, depth, [pair], s);
    assert ReadFrom(WORLD, registry, rule, 1, depth, [pair], s) == after;
    assert ReadValues(WORLD, registry, rule, 0, depth, [], [], after) == after;
    assert ReadValues(WORLD, registry, rule, 0, depth, [], [u], after) == after;
  }

  lemma {:induction false} NoTypes(registry: Registry, k: string)
    requires forall i :: 0 <= i < |registry| ==> registry[i] == NONE
    ensures TypeOf(registry, k) == "Default"
  {
    if registry != [] {
      NoTypes(registry[1..], k);
    }
  }

  const REG: Registry := [NONE, NONE, NONE]

  lemma {:induction false} FirstDatum(t: Reader, registry: Registry)
    requires t == Reader(Some(DB), [DB], map[DB := IDX1], [], None) && registry == [NONE] + REG
    ensures ReadFrom(WORLD, registry, FIRST_DATUM, 0, 2, [], t) == t.(found := [Element(DB, IDX1, map["x" := "1"], "one")])
  {
    hide Candidates, Filtered;
    Half(t, registry);
    OneValue(registry, FIRST_DATUM, 2, "1", t);
    Dict1(("x", "1"));
    assert Simplified(map["x" := "1"]) == map["x" := "1"];
    assert Fingerprint(IDENTITY, registry, [("x", "1")]) == "1";
  }

  /** The first index rule selects its index and finds its datum. */
  lemma {:induction false} FirstRule()
    ensures ReadFrom(WORLD, REG, FIRST_INDEX, 0, 1, [], Reader(Some(DB), [DB], map[], [], None))
         == Reader(Some(DB), [DB], map[DB := IDX1], [Element(DB, IDX1, map["x" := "1"], "one")], None)
  {
    hide ReadFrom;
    var s := Reader(Some(DB), [DB], map[], [], None);
    NoTypes(REG, "b");
    assert Candidates(WORLD, s, REG, FIRST_INDEX.predicates[0]) == ["1", "2"];
    FirstOfTwo(REG, FIRST_INDEX, 1, "1", "2", s);
    Dict1(("b", "1"));
    var t := s.(selected := map[DB := IDX1]);
    assert SelectIndex(WORLD, s, IDX1) == (t, true);
    FirstDatum(t, [NONE] + REG);
    assert [FIRST_DATUM][1..] == [];
    var r := ReadFrom(WORLD, [NONE] + REG, FIRST_DATUM, 0, 2, [], t);
    assert ReadRules(WORLD, REG, [], 2, r) == r;
    assert ReadRules(WORLD, REG, [FIRST_DATUM], 2, t) == r;
  }

  /** The axis of the first index lets only one of the two requested values through. */
  lemma {:induction false} Half(t: Reader, registry: Registry)
    requires t.db == Some(DB) && DB in t.selected && t.selected[DB] == IDX1
    requires registry == REG || registry == [NONE] + REG
    ensures Candidates(WORLD, t, registry, Predicate("x", MatchAlways)) == ["1"]
    ensures Candidates(WORLD, t, registry, Predicate("b", MatchValue("2"))) == ["1", "2"]
  {
    NoTypes(registry, "x");
    NoTypes(registry, "b");
    assert ["1", "2"][1..] == ["2"] && ["2"][1..] == [];
  }

  /** The second index rule only tries an index that does not exist. */
  lemma {:induction false} SecondRule(s: Reader)
    requires s.threw.None? && s.db == Some(DB) && s.selected == map[DB := IDX1]
    ensures ReadFrom(WORLD, REG, SECOND_INDEX, 0, 1, [], s).found == s.found
    ensures ReadFrom(WORLD, REG, SECOND_INDEX, 0, 1, [], s).threw.None?
  {
    hide Candidates, Filtered;
    Half(s, REG);
    SecondOfTwo(REG, SECOND_INDEX, 1, "1", "2", s);
    var done := [("b", "2")];
    var tuple := done + [("x", "1")];
    assert tuple == [("b", "2"), ("x", "1")];
    Dict2(("b", "2"), ("x", "1"));
    var wrong: Dict := map["b" := "2"]["x" := "1"];
    assert "x" in wrong && "x" !in IDX1 && wrong["x"] != IDX2["x"];
    assert wrong !in STORE[DB];
    var t := s.(selected := s.selected[DB := wrong]);
    assert SelectIndex(WORLD, s, wrong) == (t, false);
    assert Reach(WORLD, REG, SECOND_INDEX, 1, tuple, s) == t;
    assert ["1"][1..] == [];
    assert ReadFrom(WORLD, REG, SECOND_INDEX, 2, 1, tuple, s) == t;
    assert ReadValues(WORLD, REG, SECOND_INDEX, 1, 1, done, [], t) == t;
    assert ReadValues(WORLD, REG, SECOND_INDEX, 1, 1, done, ["1"], s) == t;
  }

  /** The retrieval of both fields only finds the first. */
  lemma {:induction false} OnlyTheFirstIsFound()
    ensures Retrieve(WORLD, NOTHING_OPEN).found == [Element(DB, IDX1, map["x" := "1"], "one")] && Retrieve(WORLD, NOTHING_OPEN).threw.None?
  {
    hide ReadFrom;
    var start := Reader(None, [], map[], [], None);
    var inDb := Reader(Some(DB), [DB], map[], [], None);
    NoTypes([NONE, NONE], "a");
    assert [NONE] + [NONE] == [NONE, NONE] && [NONE] + [NONE, NONE] == REG;
    assert Candidates(WORLD, start, [NONE, NONE], DATABASE.predicates[0]) == ["1"];
    OneValue([NONE, NONE], DATABASE, 0, "1", start);
    Dict1(("a", "1"));
    assert Staying([], 16) == [] && [DB] + [] == [DB];
    assert SelectDatabase(WORLD, start, DB).value.selected == map[];
    assert SelectDatabase(WORLD, start, DB) == Some(inDb);
    FirstRule();
    var s := ReadFrom(WORLD, REG, FIRST_INDEX, 0, 1, [], inDb);
    SecondRule(s);
    var r := ReadFrom(WORLD, REG, SECOND_INDEX, 0, 1, [], s);
    assert [FIRST_INDEX, SECOND_INDEX][1..] == [SECOND_INDEX] && [SECOND_INDEX][1..] == [] && [DATABASE][1..] == [];
    assert ReadRules(WORLD, [NONE, NONE], [], 1, r) == r;
    assert ReadRules(WORLD, [NONE, NONE], [SECOND_INDEX], 1, s) == r;
    assert ReadRules(WORLD, [NONE, NONE], [FIRST_INDEX, SECOND_INDEX], 1, inDb) == r;
    assert ReadSecond(WORLD, DB, inDb) == r;
    assert ReadFrom(WORLD, [NONE, NONE], DATABASE, 0, 0, [], start) == r;
    assert ReadRules(WORLD, [NONE], [], 0, r) == r;
  }

  lemma {:induction false} SecondCovered(k: string, v: string, registry: Registry)
    requires k in REQUEST && v in REQUEST[k] && v != ""
    requires forall i :: 0 <= i < |registry| ==> registry[i] == NONE
    ensures forall m :: Covered(WORLD, registry, Predicate(k, m), v)
  {
    NoTypes(registry, k);
  }

  lemma {:induction false} DatumCovered()
    ensures DecideRules(SITE, REG, [SECOND_DATUM], 2, FIELD2).Hit? && CoversRules(WORLD, REG, [SECOND_DATUM], 2, FIELD2)
  {
    hide Covered;
    DatumStep(SECOND_DATUM, "d", FIELD2);
    OnlyRule(SITE, REG, SECOND_DATUM, 2, FIELD2);
    Walk1(SECOND_DATUM.predicates[0], FIELD2);
    SecondCovered("d", "1", [NONE] + REG);
  }

  lemma {:induction false} IndexCovered()
    ensures DecideRules(SITE, [NONE, NONE], [FIRST_INDEX, SECOND_INDEX], 1, FIELD2).Hit?
    ensures CoversRules(WORLD, [NONE, NONE], [FIRST_INDEX, SECOND_INDEX], 1, FIELD2)
  {
    hide Covered, DecideRules, CoversRules;
    var above := [NONE, NONE];
    assert [NONE] + above == REG;
    DatumCovered();
    Walk1(FIRST_INDEX.predicates[0], FIELD2);
    Walk2(SECOND_INDEX.predicates[0], SECOND_INDEX.predicates[1], FIELD2);
    SecondCovered("b", "2", REG);
    SecondCovered("x", "2", REG);
    assert DecideRule(SITE, above, FIRST_INDEX, 1, FIELD2) == Pass;
    assert DecideRule(SITE, above, SECOND_INDEX, 1, FIELD2).Hit?;
    assert CoversRule(WORLD, above, SECOND_INDEX, 1, FIELD2);
    SecondSibling(above);
  }

  lemma {:induction false} SecondSibling(above: Registry)
    requires DecideRule(SITE, above, FIRST_INDEX, 1, FIELD2) == Pass
    requires DecideRule(SITE, above, SECOND_INDEX, 1, FIELD2).Hit? && CoversRule(WORLD, above, SECOND_INDEX, 1, FIELD2)
    ensures DecideRules(SITE, above, [FIRST_INDEX, SECOND_INDEX], 1, FIELD2).Hit?
    ensures CoversRules(WORLD, above, [FIRST_INDEX, SECOND_INDEX], 1, FIELD2)
  {
    hide DecideRule, CoversRule;
    assert [FIRST_INDEX, SECOND_INDEX][1..] == [SECOND_INDEX];
    OnlyRule(SITE, above, SECOND_INDEX, 1, FIELD2);
    assert CoversRules(WORLD, above, [SECOND_INDEX], 1, FIELD2);
  }

  /** The request covers the second field. */
  lemma {:induction false} RequestCovers()
    ensures Decide(SITE, FIELD2).Hit? && Covers(WORLD, FIELD2)
  {
    hide Decide, DecideRules, Covered;
    Decisions();
    DatabaseStep(FIELD2);
    IndexCovered();
    Walk1(DATABASE.predicates[0], FIELD2);
    Dict1(("a", "1"));
    OnlyRule(SITE, [NONE], DATABASE, 0, FIELD2);
    SecondCovered("a", "1", [NONE, NONE]);
    assert [NONE] + [NONE] == [NONE, NONE];
    assert FirstMatch(SCHEMA.rules, DB) == Some(DATABASE);
    assert DecideRule(SITE, [NONE], DATABASE, 0, FIELD2).Hit?;
    hide CoversRules;
    assert CoversRule(WORLD, [NONE], DATABASE, 0, FIELD2);
    FirstSibling();
  }

  lemma {:induction false} FirstSibling()
    requires DecideRule(SITE, [NONE], DATABASE, 0, FIELD2).Hit? && CoversRule(WORLD, [NONE], DATABASE, 0, FIELD2)
    ensures DecideRules(SITE, [NONE], [DATABASE], 0, FIELD2).Hit? && CoversRules(WORLD, [NONE], [DATABASE], 0, FIELD2)
  {
    hide DecideRule, CoversRule;
    OnlyRule(SITE, [NONE], DATABASE, 0, FIELD2);
  }

  /** The request may name the index of the first field, through the rule before. */
  lemma {:induction false} FirstMayBeSelected()
    ensures MayNameAny(WORLD, [NONE, NONE], [FIRST_INDEX, SECOND_INDEX], IDX1)
  {
    var t := [("b", "1")];
    NoTypes(REG, "b");
    Dict1(("b", "1"));
    assert [FIRST_INDEX.types] + [NONE, NONE] == REG;
    assert MayPush(WORLD, REG, FIRST_INDEX.predicates, t);
    assert MayName(WORLD, REG, FIRST_INDEX, IDX1);
    assert FIRST_INDEX in [FIRST_INDEX, SECOND_INDEX];
  }

  /** The index of the first field does not admit the second. */
  lemma {:induction false} NotAdmitted()
    requires Decide(SITE, FIELD2).Hit?
    ensures !Admitted(WORLD, NOTHING_OPEN, FIELD2)
  {
    hide DecideRules, Lets, AdmittedRules, Admits, OwnScope, MaySelect, MayNameAny;
    var scope := ScopeOf(WORLD, NOTHING_OPEN, FIELD2);
    Decisions();
    DatabaseStep(FIELD2);
    IndexCovered();
    Walk1(DATABASE.predicates[0], FIELD2);
    Dict1(("a", "1"));
    OnlyRule(SITE, [NONE], DATABASE, 0, FIELD2);
    assert FirstMatch(SCHEMA.rules, DB) == Some(DATABASE);
    assert DB in scope;
    NotAdmittedBelow(scope);
    assert !AdmittedRule(WORLD, [NONE], DATABASE, 0, FIELD2, scope);
    AdmittedOnly(DATABASE, scope);
  }

  lemma {:induction false} AdmittedOnly(rule: Rule, scope: Scope)
    requires DecideRule(SITE, [NONE], rule, 0, FIELD2).Hit? && !AdmittedRule(WORLD, [NONE], rule, 0, FIELD2, scope)
    requires DecideRules(SITE, [NONE], [rule], 0, FIELD2).Hit?
    ensures !AdmittedRules(WORLD, [NONE], [rule], 0, FIELD2, scope)
  {
    hide DecideRule, AdmittedRule;
  }

  lemma {:induction false} NotAdmittedBelow(scope: Scope)
    requires DecideRules(SITE, [NONE, NONE], [FIRST_INDEX, SECOND_INDEX], 1, FIELD2).Hit? && DB in scope
    ensures var upto := Upto(WORLD, [NONE, NONE], [FIRST_INDEX, SECOND_INDEX], 1, FIELD2);
            !AdmittedRules(WORLD, [NONE, NONE], [FIRST_INDEX, SECOND_INDEX], 1, FIELD2, OwnScope(WORLD, [NONE, NONE], upto, DB, scope))
  {
    hide DecideRules, Lets, MayNameAny;
    var above := [NONE, NONE];
    assert [NONE] + above == REG;
    DatumCovered();
    Walk1(FIRST_INDEX.predicates[0], FIELD2);
    Walk2(SECOND_INDEX.predicates[0], SECOND_INDEX.predicates[1], FIELD2);
    assert DecideRule(SITE, above, FIRST_INDEX, 1, FIELD2) == Pass;
    assert DecideRule(SITE, above, SECOND_INDEX, 1, FIELD2).Hit?;
    assert [FIRST_INDEX, SECOND_INDEX][1..] == [SECOND_INDEX];
    OnlyRule(SITE, above, SECOND_INDEX, 1, FIELD2);
    var upto := Upto(WORLD, above, [FIRST_INDEX, SECOND_INDEX], 1, FIELD2);
    assert Upto(WORLD, above, [SECOND_INDEX], 1, FIELD2) == [SECOND_INDEX];
    assert upto == [FIRST_INDEX] + [SECOND_INDEX] == [FIRST_INDEX, SECOND_INDEX];
    FirstMayBeSelected();
    var own := OwnScope(WORLD, above, upto, DB, scope);
    NotLet();
    assert DB in WORLD.store && IDX1 in WORLD.store[DB];
    assert DB in own && IDX1 in own[DB];
    assert !Admits(WORLD, REG, SECOND_INDEX.predicates, [("b", "2"), ("x", "2")], own);
    assert !AdmittedRule(WORLD, above, SECOND_INDEX, 1, FIELD2, own);
    hide DecideRule, AdmittedRule, Admits;
    assert AdmittedRules(WORLD, above, [SECOND_INDEX], 1, FIELD2, own) == AdmittedRule(WORLD, above, SECOND_INDEX, 1, FIELD2, own);
  }

  lemma {:induction false} NotLet()
    ensures WORLD.store[DB][IDX1].axes == map["x" := {"1"}]
    ensures !Lets(WORLD, REG, map["x" := {"1"}], Predicate("x", MatchAlways), "2")
  {
    assert IDX2 != IDX1 by { assert "x" in IDX2 && "x" !in IDX1; }
  }

  /** All conditions of the main result hold for the second field but that the indexes
      admit it, nothing throws, and the field is not found. */
  lemma {:induction false} AdmissionIsNeeded()
    ensures var w := World(SITE, IDENTITY, StoreAfter(SITE, IDENTITY, map[], CALLS), REQUEST, 16);
            && Decide(SITE, FIELD2) == Hit([[("a", "1")], [("b", "2"), ("x", "2")], [("d", "1")]], [NONE, NONE, NONE, NONE])
            && OneShape(SITE, CALLS, DB, IDX2, {"d"})
            && Covers(w, FIELD2) && !Admitted(w, NOTHING_OPEN, FIELD2)
            && Retrieve(w, NOTHING_OPEN).threw.None?
            && (forall e :: e in Retrieve(w, NOTHING_OPEN).found ==> e.index != IDX2)
  {
    hide Decide, Retrieve, Covers, Admitted;
    Decisions();
    StoreOfRun();
    RequestCovers();
    NotAdmitted();
    OnlyTheFirstIsFound();
    Dict1(("b", "1"));
    Dict1(("d", "1"));
    assert "x" in IDX2 && "x" !in IDX1;
    forall j | 0 <= j < |CALLS| && Into(SITE, CALLS[j], DB, IDX2)
      ensures DictOf(DatumOf(SITE, CALLS[j])).Keys <= {"d"}
    {
      assert j == 1;
    }
  }

  // ----- The same index in a database that the request does not name -----

  const OTHER: Dict := map["a" := "9"]
  const APART: Store := map[OTHER := map[IDX1 := Index(map["x" := {"1"}], map["1" := "one"])],
                            DB := map[IDX2 := Index(map["d" := {"1"}], map["1" := "two"])]]
  const SECOND_ALONE: Request := map["a" := ["1"], "b" := ["2"], "x" := ["2"], "d" := ["1"]]
  const WORLD_APART := World(SITE, IDENTITY, APART, SECOND_ALONE, 16)

  /** There the index of the first field does not matter: the second is admitted. */
  lemma {:induction false} AdmittedApart()
    ensures Decide(SITE, FIELD2).Hit? && Admitted(WORLD_APART, NOTHING_OPEN, FIELD2)
  {
    hide DecideRules, AdmittedRules, AdmittedRule, ScopeOf;
    Decisions();
    DatabaseStep(FIELD2);
    RuleAdmittedApart(ScopeOf(WORLD_APART, NOTHING_OPEN, FIELD2));
    OnlyRule(SITE, [NONE], DATABASE, 0, FIELD2);
    AdmittedFirst(DATABASE, ScopeOf(WORLD_APART, NOTHING_OPEN, FIELD2));
  }

  lemma {:induction false} RuleAdmittedApart(scope: Scope)
    ensures DecideRule(SITE, [NONE], DATABASE, 0, FIELD2).Hit? && AdmittedRule(WORLD_APART, [NONE], DATABASE, 0, FIELD2, scope)
  {
    hide DecideRules, Lets, AdmittedRules, Admits, Outside, Upto, OwnScope, DictOf;
    DatabaseStep(FIELD2);
    DecidesSecond();
    Walk1(DATABASE.predicates[0], FIELD2);
    Dict1(("a", "1"));
    OnlyRule(SITE, [NONE], DATABASE, 0, FIELD2);
    assert FirstMatch(SCHEMA.rules, DB) == Some(DATABASE);
    DatabaseAdmittedApart(Outside(scope, DB));
    assert [NONE] + [NONE] == [NONE, NONE];
    assert [DATABASE.types, SCHEMA.types] == [NONE, NONE];
    assert WalkField(DATABASE.predicates, FIELD2) == Matched([("a", "1")]);
    OwnKeys(WORLD_APART, [NONE, NONE], Upto(WORLD_APART, [NONE, NONE], [FIRST_INDEX, SECOND_INDEX], 1, FIELD2), scope);
    IndexAdmittedApart(OwnScope(WORLD_APART, [NONE, NONE], Upto(WORLD_APART, [NONE, NONE], [FIRST_INDEX, SECOND_INDEX], 1, FIELD2), DB, scope));
  }

  lemma {:induction false} DecidesSecond()
    ensures DecideRules(SITE, [NONE], [DATABASE], 0, FIELD2).Hit?
    ensures DecideRules(SITE, [NONE, NONE], [FIRST_INDEX, SECOND_INDEX], 1, FIELD2).Hit?
  {
    hide DecideRules;
    IndexCovered();
    DatabaseStep(FIELD2);
  }

  lemma {:induction false} OwnKeys(w: World, above: Registry, rules: seq<Rule>, scope: Scope)
    ensures OwnScope(w, above, rules, DB, scope).Keys <= {DB}
  {
    hide MayNameAny;
  }

  lemma {:induction false} AdmittedFirst(rule: Rule, scope: Scope)
    requires DecideRule(SITE, [NONE], rule, 0, FIELD2).Hit? && AdmittedRule(WORLD_APART, [NONE], rule, 0, FIELD2, scope)
    requires DecideRules(SITE, [NONE], [rule], 0, FIELD2).Hit?
    ensures AdmittedRules(WORLD_APART, [NONE], [rule], 0, FIELD2, scope)
  {
    hide DecideRule, AdmittedRule;
  }

  lemma {:induction false} DatabaseAdmittedApart(scope: Scope)
    ensures Admits(WORLD_APART, [NONE, NONE], DATABASE.predicates, [("a", "1")], scope)
  {
    assert OTHER != DB by { assert OTHER["a"] != DB["a"]; }
    forall db, idx | db in APART && idx in APART[db]
      ensures "a" !in APART[db][idx].axes
    {
    }
  }

  lemma {:induction false} IndexAdmittedApart(own: Scope)
    requires own.Keys <= {DB}
    requires DecideRules(SITE, [NONE, NONE], [FIRST_INDEX, SECOND_INDEX], 1, FIELD2).Hit?
    ensures AdmittedRules(WORLD_APART, [NONE, NONE], [FIRST_INDEX, SECOND_INDEX], 1, FIELD2, own)
  {
    hide DecideRules;
    var above := [NONE, NONE];
    assert [NONE] + above == REG;
    DatumCovered();
    Walk1(FIRST_INDEX.predicates[0], FIELD2);
    Walk2(SECOND_INDEX.predicates[0], SECOND_INDEX.predicates[1], FIELD2);
    assert DecideRule(SITE, above, FIRST_INDEX, 1, FIELD2) == Pass;
    assert DecideRule(SITE, above, SECOND_INDEX, 1, FIELD2).Hit?;
    assert [FIRST_INDEX, SECOND_INDEX][1..] == [SECOND_INDEX];
    OnlyRule(SITE, above, SECOND_INDEX, 1, FIELD2);
    assert OTHER != DB by { assert OTHER["a"] != DB["a"]; }
    forall idx | idx in APART[DB]
      ensures "b" !in APART[DB][idx].axes && "x" !in APART[DB][idx].axes
    {
    }
    assert Admits(WORLD_APART, REG, SECOND_INDEX.predicates, [("b", "2"), ("x", "2")], own);
    assert AdmittedRule(WORLD_APART, above, SECOND_INDEX, 1, FIELD2, own);
    hide DecideRule, AdmittedRule, Admits;
    assert AdmittedRules(WORLD_APART, above, [SECOND_INDEX], 1, FIELD2, own) == AdmittedRule(WORLD_APART, above, SECOND_INDEX, 1, FIELD2, own);
  }
}
