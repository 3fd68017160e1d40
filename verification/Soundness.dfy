/** Whatever a retrieval finds was archived, and was asked for: the converse of the main
    result on archiving and retrieving. */
module Soundness {
  import opened Wrappers
  import opened Keys
  import opened Rules
  import opened WriteExpansion
  import opened Stores
  import opened ReadExpansion
  import opened ReadProduct
  import opened Completeness
  import opened ArchiveRetrieve
  import ArchiveSession
  import Listing

  // ----- What a request asks for -----

  predicate TakesValue(m: Matcher, v: string)
  {
    match m
    case MatchValue(value) => v == value
    case MatchAny(values) => v in values
    case _ => true
  }

  /** The request lists the value, unless the keyword is ignored; or it is a default. */
  predicate Asks(w: World, registry: Registry, p: Predicate, v: string)
  {
    || (p.keyword in w.request && v in w.request[p.keyword] && TypeOf(registry, p.keyword) != "Ignore")
    || p.matcher == MatchOptional(v) || p.matcher == MatchHidden(v)
  }

  predicate AskedPrefix(w: World, registry: Registry, ps: seq<Predicate>, t: seq<Pair>)
  {
    && |t| <= |ps|
    && forall i :: 0 <= i < |t| ==> t[i].0 == ps[i].keyword && TakesValue(ps[i].matcher, t[i].1) && Asks(w, registry, ps[i], t[i].1)
  }

  /** One asked value for every predicate of a rule. */
  predicate Asked(w: World, registry: Registry, rule: Rule, t: seq<Pair>)
  {
    |t| == |rule.predicates| && AskedPrefix(w, registry, rule.predicates, t)
  }

  lemma {:induction false} CandidatesAsked(w: World, s: Reader, registry: Registry, p: Predicate)
    ensures forall v :: v in Candidates(w, s, registry, p) ==> Asks(w, registry, p, v)
  {
  }

  lemma {:induction false} AskedMore(w: World, registry: Registry, ps: seq<Predicate>, done: seq<Pair>, v: string)
    requires AskedPrefix(w, registry, ps, done) && |done| < |ps|
    requires ps[|done|].matcher.Accepts(v) && Asks(w, registry, ps[|done|], v)
    ensures AskedPrefix(w, registry, ps, done + [(ps[|done|].keyword, v)])
  {
    hide Asks;
  }

  // ----- What is found -----

  /** The rules that the retrieval of an element went through, with their tuples, and the call
      that archived it. */
  datatype Trace = Trace(master: Rule, database: Rule, index: Rule, datum: Rule,
                         t0: seq<Pair>, t1: seq<Pair>, t2: seq<Pair>, call: nat)

  function Types3(w: World, c: Trace): Registry
  {
    [c.datum.types, c.index.types, c.database.types, w.site.schemaOf(DictOf(c.t0)).types]
  }

  /** The keys of the element are tuples that were asked for. */
  ghost predicate AskedFor(w: World, e: Element, c: Trace)
  {
    var schema := w.site.schemaOf(e.db);
    && c.master in w.site.master.rules && Asked(w, [c.master.types, w.site.master.types], c.master, c.t0) && e.db == DictOf(c.t0)
    && FirstMatch(schema.rules, e.db) == Some(c.database)
    && c.index in c.database.rules && Asked(w, [c.index.types, c.database.types, schema.types], c.index, c.t1) && e.index == DictOf(c.t1)
    && c.datum in c.index.rules && Asked(w, Types3(w, c), c.datum, c.t2)
    && (Distinct(Names(c.t2)) ==>
          && (forall p :: p in c.t2 && p.1 != "" ==> p.0 in e.datum && e.datum[p.0] == p.1)
          && (forall k :: k in e.datum ==> e.datum[k] != "" && (k, e.datum[k]) in c.t2))
  }

  /** The joined canonical values of a tuple. */
  function Joined(w: World, registry: Registry, t: seq<Pair>): string
  {
    Listing.Join(seq(|t|, i requires 0 <= i < |t| => if t[i].1 == "" then "" else w.toKey(TypeOf(registry, t[i].0), t[i].1)))
  }

  /** A call archived the element's data into its database and index under the joined canonical
      values of its datum tuple, and no later call did; and no data archived into that index
      have a keyword that the tuple lacks, or lack the value of the tuple altogether. */
  ghost predicate WasArchived(w: World, calls: seq<Call>, e: Element, c: Trace)
  {
    && c.call < |calls| && Into(w.site, calls[c.call], e.db, e.index) && calls[c.call].1 == e.data
    && FingerprintOf(w.site, w.toKey, calls[c.call]) == Joined(w, Types3(w, c), c.t2)
    && (forall j :: c.call < j < |calls| && Into(w.site, calls[j], e.db, e.index) ==>
          FingerprintOf(w.site, w.toKey, calls[j]) != Joined(w, Types3(w, c), c.t2))
    && forall k :: Contributed(w.site, calls, e.db, e.index, k) ==>
         exists p :: p in c.t2 && p.0 == k && HasValue(w, calls, e, Types3(w, c), p)
  }

  ghost predicate HasValue(w: World, calls: seq<Call>, e: Element, registry: Registry, p: Pair)
  {
    || ContributedValue(w.site, w.toKey, calls, e.db, e.index, p.0, p.1)
    || ContributedValue(w.site, w.toKey, calls, e.db, e.index, p.0, if p.1 == "" then "" else w.toKey(TypeOf(registry, p.0), p.1))
  }

  ghost predicate Sound(w: World, calls: seq<Call>, e: Element)
  {
    exists c :: AskedFor(w, e, c) && WasArchived(w, calls, e, c)
  }

  ghost predicate AllSound(w: World, calls: seq<Call>, s: Reader)
  {
    forall e :: e in s.found ==> Sound(w, calls, e)
  }

  // ----- One datum -----

  lemma {:induction false} LastCallIs(site: Site, toKey: ToKey, calls: seq<Call>, db: Dict, idx: Dict, fingerprint: string) returns (j: nat)
    requires LastData(site, toKey, calls, db, idx, fingerprint).Some?
    ensures j < |calls| && Into(site, calls[j], db, idx) && FingerprintOf(site, toKey, calls[j]) == fingerprint
    ensures calls[j].1 == LastData(site, toKey, calls, db, idx, fingerprint).value
    ensures forall i :: j < i < |calls| && Into(site, calls[i], db, idx) ==> FingerprintOf(site, toKey, calls[i]) != fingerprint
  {
    hide Decide, Fingerprint, Into;
    var last := calls[|calls| - 1];
    if IntoWith(site, toKey, last, db, idx, fingerprint) {
      j := |calls| - 1;
    } else {
      var init := calls[..|calls| - 1];
      j := LastCallIs(site, toKey, init, db, idx, fingerprint);
      assert calls[j] == init[j];
      assert forall i :: 0 <= i < |init| ==> init[i] == calls[i];
    }
  }

  predicate IntoWith(site: Site, toKey: ToKey, call: Call, db: Dict, idx: Dict, fingerprint: string)
  {
    Into(site, call, db, idx) && FingerprintOf(site, toKey, call) == fingerprint
  }

  lemma {:induction false} JoinedIsFingerprint(w: World, registry: Registry, t: seq<Pair>)
    ensures Fingerprint(w.toKey, registry, t) == Joined(w, registry, t)
  {
    Listing.FingerprintIsJoin(w.toKey, registry, t);
    assert Listing.CanonicalValues(w.toKey, registry, t)
        == seq(|t|, i requires 0 <= i < |t| => if t[i].1 == "" then "" else w.toKey(TypeOf(registry, t[i].0), t[i].1));
  }

  lemma {:induction false} NonEmptyPairs(t: seq<Pair>)
    requires Distinct(Names(t))
    ensures forall p :: p in t && p.1 != "" ==> p.0 in Simplified(DictOf(t)) && Simplified(DictOf(t))[p.0] == p.1
    ensures forall k :: k in Simplified(DictOf(t)) ==> Simplified(DictOf(t))[k] != "" && (k, Simplified(DictOf(t))[k]) in t
  {
    hide DictOf;
    forall p | p in t
      ensures p.0 in DictOf(t) && DictOf(t)[p.0] == p.1
    {
      var i :| 0 <= i < |t| && t[i] == p;
      DictOfLookup(t, i);
    }
    forall k | k in DictOf(t)
      ensures (k, DictOf(t)[k]) in t
    {
      DictOfKeys(t);
      assert k in Names(t);
      var i :| 0 <= i < |Names(t)| && Names(t)[i] == k;
      assert t[i] in t;
    }
  }

  /** The place of the walk: the rules and tuples above. */
  ghost predicate Above(w: World, c: Trace, depth: nat, s: Reader)
  {
    var db := DictOf(c.t0);
    var schema := w.site.schemaOf(db);
    && (depth >= 1 ==>
          && c.master in w.site.master.rules && Asked(w, [c.master.types, w.site.master.types], c.master, c.t0)
          && FirstMatch(schema.rules, db) == Some(c.database) && s.db == Some(db))
    && (depth >= 2 ==>
          && c.index in c.database.rules && Asked(w, [c.index.types, c.database.types, schema.types], c.index, c.t1)
          && (db in s.selected ==> s.selected[db] == DictOf(c.t1)))
  }

  function RegistryAbove(w: World, c: Trace, depth: nat): Registry
  {
    if depth == 0 then [w.site.master.types]
    else if depth == 1 then [c.database.types, w.site.schemaOf(DictOf(c.t0)).types]
    else [c.index.types, c.database.types, w.site.schemaOf(DictOf(c.t0)).types]
  }

  function RulesAt(w: World, c: Trace, depth: nat): seq<Rule>
  {
    if depth == 0 then w.site.master.rules else if depth == 1 then c.database.rules else c.index.rules
  }

  /** What a hit shows of the store, and the store of the run. */
  lemma {:induction false} HitWasArchived(w: World, calls: seq<Call>, c: Trace, s: Reader, e: Element) returns (c': Trace)
    requires w.store == ArchiveSession.StoreAfter(w.site, w.toKey, map[], calls)
    requires CurrentIndex(w, s).Some? && s.db == Some(e.db) && s.selected[e.db] == e.index && e.db == DictOf(c.t0)
    requires Contains(CurrentIndex(w, s).value.axes, w.toKey, Types3(w, c), DictOf(c.t2))
    requires var f := Fingerprint(w.toKey, Types3(w, c), c.t2);
             f in CurrentIndex(w, s).value.entries && e.data == CurrentIndex(w, s).value.entries[f]
    ensures c' == c.(call := c'.call) && WasArchived(w, calls, e, c')
  {
    hide ArchiveSession.StoreAfter, Into, DictOf, Fingerprint, FingerprintOf, Decide, Joined, Contributed, ContributedValue, LastData;
    var f := Fingerprint(w.toKey, Types3(w, c), c.t2);
    JoinedIsFingerprint(w, Types3(w, c), c.t2);
    assert IndexAt(w.store, e.db, e.index) == CurrentIndex(w, s).value;
    LatestWins(w.site, w.toKey, calls, e.db, e.index, f);
    var j := LastCallIs(w.site, w.toKey, calls, e.db, e.index, f);
    c' := c.(call := j);
    forall k | Contributed(w.site, calls, e.db, e.index, k)
      ensures exists p :: p in c.t2 && p.0 == k && HasValue(w, calls, e, Types3(w, c), p)
    {
      AxesOfRun(w.site, w.toKey, calls, e.db, e.index, k);
      var v := DictOf(c.t2)[k];
      InTuple(c.t2, k);
      ValuesOfRun(w.site, w.toKey, calls, e.db, e.index, k, v);
      ValuesOfRun(w.site, w.toKey, calls, e.db, e.index, k, Canonical(w.toKey, Types3(w, c), (k, v)));
      assert HasValue(w, calls, e, Types3(w, c), (k, v));
    }
  }

  lemma {:induction false} InTuple(t: seq<Pair>, k: string)
    requires k in DictOf(t)
    ensures (k, DictOf(t)[k]) in t
  {
    var init, last := t[..|t| - 1], t[|t| - 1];
    assert last in t && forall p :: p in init ==> p in t;
    if last.0 != k {
      InTuple(init, k);
    }
  }

  lemma {:induction false} DatumSound(w: World, calls: seq<Call>, c: Trace, registry: Registry, rule: Rule, ps: seq<Pair>, s: Reader)
    requires w.store == ArchiveSession.StoreAfter(w.site, w.toKey, map[], calls)
    requires AllSound(w, calls, s) && Above(w, c, 2, s) && rule in RulesAt(w, c, 2)
    requires registry == [rule.types] + RegistryAbove(w, c, 2) && Asked(w, registry, rule, ps)
    ensures AllSound(w, calls, SelectDatum(w, s, registry, ps))
  {
    hide ArchiveSession.StoreAfter, DictOf, Fingerprint, Asked, WasArchived, Contains;
    var c2 := c.(datum := rule, t2 := ps);
    assert registry == Types3(w, c2);
    var t := SelectDatum(w, s, registry, ps);
    if t != s {
      var e := t.found[|s.found|];
      assert t.found == s.found + [e];
      var c3 := HitWasArchived(w, calls, c2, s, e);
      if Distinct(Names(ps)) {
        NonEmptyPairs(ps);
      }
      assert AskedFor(w, e, c3);
      assert Sound(w, calls, e);
    }
  }

  // ----- The walk -----

  lemma {:induction false} FromSound(w: World, calls: seq<Call>, c: Trace, rule: Rule, cur: nat, depth: nat, done: seq<Pair>, s: Reader)
    requires w.store == ArchiveSession.StoreAfter(w.site, w.toKey, map[], calls) && depth <= 2 && cur <= |rule.predicates| && |done| == cur
    requires AllSound(w, calls, s) && Above(w, c, depth, s) && rule in RulesAt(w, c, depth)
    requires AskedPrefix(w, [rule.types] + RegistryAbove(w, c, depth), rule.predicates, done)
    ensures var t := ReadFrom(w, [rule.types] + RegistryAbove(w, c, depth), rule, cur, depth, done, s);
            AllSound(w, calls, t) && Above(w, c, depth, t)
    decreases 3 - depth, 1, |rule.predicates| - cur, 1, 0
  {
    hide ArchiveSession.StoreAfter, Candidates, Reach, ReadValues, AllSound, Above, AskedPrefix, Asks, RulesAt;
    if s.threw.None? {
      var registry := [rule.types] + RegistryAbove(w, c, depth);
      if cur == |rule.predicates| {
        ReachSound(w, calls, c, rule, depth, done, s);
      } else {
        CandidatesAsked(w, s, registry, rule.predicates[cur]);
        ValuesSound(w, calls, c, rule, cur, depth, done, Candidates(w, s, registry, rule.predicates[cur]), s);
      }
    }
  }

  lemma {:induction false} ValuesSound(w: World, calls: seq<Call>, c: Trace, rule: Rule, cur: nat, depth: nat, done: seq<Pair>, values: seq<string>, s: Reader)
    requires w.store == ArchiveSession.StoreAfter(w.site, w.toKey, map[], calls) && depth <= 2 && cur < |rule.predicates| && |done| == cur
    requires AllSound(w, calls, s) && Above(w, c, depth, s) && rule in RulesAt(w, c, depth)
    requires AskedPrefix(w, [rule.types] + RegistryAbove(w, c, depth), rule.predicates, done)
    requires forall v :: v in values ==> Asks(w, [rule.types] + RegistryAbove(w, c, depth), rule.predicates[cur], v)
    ensures var t := ReadValues(w, [rule.types] + RegistryAbove(w, c, depth), rule, cur, depth, done, values, s);
            AllSound(w, calls, t) && Above(w, c, depth, t)
    decreases 3 - depth, 1, |rule.predicates| - cur, 0, |values|
  {
    hide ArchiveSession.StoreAfter, Candidates, Reach, ReadFrom, AllSound, Above, AskedPrefix, Asks, RulesAt;
    if values != [] && s.threw.None? {
      var p, registry := rule.predicates[cur], [rule.types] + RegistryAbove(w, c, depth);
      var longer := done + [(p.keyword, values[0])];
      var after := if p.matcher.Accepts(values[0]) then ReadFrom(w, registry, rule, cur + 1, depth, longer, s) else s;
      assert values[0] in values;
      if p.matcher.Accepts(values[0]) {
        AskedMore(w, registry, rule.predicates, done, values[0]);
        FromSound(w, calls, c, rule, cur + 1, depth, longer, s);
      }
      ValuesSound(w, calls, c, rule, cur, depth, done, values[1..], after);
    }
  }

  lemma {:induction false} ReachSound(w: World, calls: seq<Call>, c: Trace, rule: Rule, depth: nat, ps: seq<Pair>, s: Reader)
    requires w.store == ArchiveSession.StoreAfter(w.site, w.toKey, map[], calls) && depth <= 2 && |ps| == |rule.predicates|
    requires AllSound(w, calls, s) && Above(w, c, depth, s) && rule in RulesAt(w, c, depth)
    requires AskedPrefix(w, [rule.types] + RegistryAbove(w, c, depth), rule.predicates, ps)
    ensures var t := Reach(w, [rule.types] + RegistryAbove(w, c, depth), rule, depth, ps, s);
            AllSound(w, calls, t) && Above(w, c, depth, t)
    decreases 3 - depth, 0, 1, 0, 0
  {
    hide ArchiveSession.StoreAfter, ReadRules, ReadSecond, SelectDatum, Sound, AskedPrefix, DictOf;
    var registry := [rule.types] + RegistryAbove(w, c, depth);
    if s.threw.None? && (rule.rules == []) == (depth == 2) {
      if depth == 0 {
        var entered := SelectDatabase(w, s, DictOf(ps));
        if entered.Some? {
          SecondSound(w, calls, c.(master := rule, t0 := ps), entered.value);
        }
      } else if depth == 1 {
        IndexSound(w, calls, c, rule, ps, s);
      } else {
        DatumSound(w, calls, c, registry, rule, ps, s);
        ReachKeepsView(w, registry, rule, ps, s);
      }
    }
  }

  lemma {:induction false} IndexSound(w: World, calls: seq<Call>, c: Trace, rule: Rule, ps: seq<Pair>, s: Reader)
    requires w.store == ArchiveSession.StoreAfter(w.site, w.toKey, map[], calls) && |ps| == |rule.predicates| && s.threw.None? && rule.rules != []
    requires AllSound(w, calls, s) && Above(w, c, 1, s) && rule in RulesAt(w, c, 1)
    requires AskedPrefix(w, [rule.types] + RegistryAbove(w, c, 1), rule.predicates, ps)
    ensures var t := Reach(w, [rule.types] + RegistryAbove(w, c, 1), rule, 1, ps, s);
            AllSound(w, calls, t) && Above(w, c, 1, t)
    decreases 2, 0, 0, 0, 0
  {
    hide ArchiveSession.StoreAfter, ReadRules, Sound, AskedPrefix, DictOf;
    var below := [rule.types] + RegistryAbove(w, c, 1);
    var (entered, ok) := SelectIndex(w, s, DictOf(ps));
    var c1 := c.(index := rule, t1 := ps);
    assert below == RegistryAbove(w, c1, 2) == [rule.types, c.database.types, w.site.schemaOf(DictOf(c.t0)).types];
    if ok {
      RulesSound(w, calls, c1, rule.rules, 2, entered);
    }
  }

  lemma {:induction false} SecondSound(w: World, calls: seq<Call>, c: Trace, s: Reader)
    requires w.store == ArchiveSession.StoreAfter(w.site, w.toKey, map[], calls) && AllSound(w, calls, s) && s.db == Some(DictOf(c.t0))
    requires c.master in w.site.master.rules && AskedPrefix(w, [c.master.types] + [w.site.master.types], c.master.predicates, c.t0) && |c.t0| == |c.master.predicates|
    ensures AllSound(w, calls, ReadSecond(w, DictOf(c.t0), s))
    decreases 2, 3, 0, 0, 0
  {
    hide ArchiveSession.StoreAfter, ReadRules, AllSound, AskedPrefix, DictOf;
    var schema := w.site.schemaOf(DictOf(c.t0));
    var dbRule := FirstMatch(schema.rules, DictOf(c.t0));
    assert [c.master.types] + [w.site.master.types] == [c.master.types, w.site.master.types];
    if dbRule.Some? {
      RulesSound(w, calls, c.(database := dbRule.value), dbRule.value.rules, 1, s);
    } else {
      Thrown(w, calls, s);
    }
  }

  lemma {:induction false} Thrown(w: World, calls: seq<Call>, s: Reader)
    requires AllSound(w, calls, s)
    ensures AllSound(w, calls, s.(threw := Some(NoDatabaseRule)))
  {
  }

  lemma {:induction false} RulesSound(w: World, calls: seq<Call>, c: Trace, rules: seq<Rule>, depth: nat, s: Reader)
    requires w.store == ArchiveSession.StoreAfter(w.site, w.toKey, map[], calls) && depth <= 2
    requires AllSound(w, calls, s) && Above(w, c, depth, s) && forall r :: r in rules ==> r in RulesAt(w, c, depth)
    ensures var t := ReadRules(w, RegistryAbove(w, c, depth), rules, depth, s);
            AllSound(w, calls, t) && Above(w, c, depth, t)
    decreases 3 - depth, 2, |rules|, 0, 0
  {
    hide ArchiveSession.StoreAfter, ReadFrom, AllSound, Above, RulesAt;
    if rules != [] && s.threw.None? {
      assert rules[0] in rules;
      FromSound(w, calls, c, rules[0], 0, depth, [], s);
      RulesSound(w, calls, c, rules[1..], depth, ReadFrom(w, [rules[0].types] + RegistryAbove(w, c, depth), rules[0], 0, depth, [], s));
    }
  }

  /** Every element that a retrieval finds, whatever was open before and however it ends, was
      archived by a call of the run, last under the joined canonical values of a tuple that
      was asked for. */
  lemma {:induction false} FoundWasArchived(w: World, before: Opened, calls: seq<Call>, e: Element) returns (c: Trace)
    requires w.store == ArchiveSession.StoreAfter(w.site, w.toKey, map[], calls) && e in Retrieve(w, before).found
    ensures AskedFor(w, e, c) && WasArchived(w, calls, e, c)
  {
    hide ArchiveSession.StoreAfter, ReadRules, AskedFor, WasArchived;
    var none := Rule([], [], map[]);
    c := Trace(none, none, none, none, [], [], [], 0);
    RulesSound(w, calls, c, w.site.master.rules, 0, Fresh(before));
    assert Sound(w, calls, e);
    c :| AskedFor(w, e, c) && WasArchived(w, calls, e, c);
  }

  // ----- A datum rule finds exactly what was archived -----

  /** What a run archived last under a tuple, where no data archived into the index have a
      keyword that the tuple lacks, or lack its value altogether. */
  ghost function Holds(w: World, calls: seq<Call>, db: Dict, idx: Dict, registry: Registry, t: seq<Pair>): Option<Data>
  {
    if forall k :: Contributed(w.site, calls, db, idx, k) ==>
         k in DictOf(t) && HasValue(w, calls, Element(db, idx, map[], ""), registry, (k, DictOf(t)[k]))
    then LastData(w.site, w.toKey, calls, db, idx, Joined(w, registry, t)) else None
  }

  /** One element for each tuple that holds something, in the order of the tuples. */
  ghost function HoldsAll(w: World, calls: seq<Call>, db: Dict, idx: Dict, registry: Registry, tuples: seq<seq<Pair>>): seq<Element>
  {
    if tuples == [] then []
    else
      var d := Holds(w, calls, db, idx, registry, tuples[0]);
      (if d.Some? then [Element(db, idx, Simplified(DictOf(tuples[0])), d.value)] else [])
      + HoldsAll(w, calls, db, idx, registry, tuples[1..])
  }

  /** The axes let a tuple through exactly when the archived data have its keywords and values. */
  lemma {:induction false} ContainsIff(w: World, calls: seq<Call>, db: Dict, idx: Dict, registry: Registry, t: seq<Pair>)
    requires w.store == ArchiveSession.StoreAfter(w.site, w.toKey, map[], calls)
    ensures Contains(IndexAt(w.store, db, idx).axes, w.toKey, registry, DictOf(t)) <==>
            forall k :: Contributed(w.site, calls, db, idx, k) ==>
              k in DictOf(t) && HasValue(w, calls, Element(db, idx, map[], ""), registry, (k, DictOf(t)[k]))
  {
    hide ArchiveSession.StoreAfter, DictOf, Contributed, ContributedValue, IndexAt;
    var axes, key := IndexAt(w.store, db, idx).axes, DictOf(t);
    forall k
      ensures k in axes <==> Contributed(w.site, calls, db, idx, k)
      ensures k in axes && k in key ==>
                (key[k] in axes[k] || Canonical(w.toKey, registry, (k, key[k])) in axes[k] <==>
                 HasValue(w, calls, Element(db, idx, map[], ""), registry, (k, key[k])))
    {
      AxesOfRun(w.site, w.toKey, calls, db, idx, k);
      if k in key {
        ValuesOfRun(w.site, w.toKey, calls, db, idx, k, key[k]);
        ValuesOfRun(w.site, w.toKey, calls, db, idx, k, Canonical(w.toKey, registry, (k, key[k])));
      }
    }
  }

  /** One tuple gives one element or none, and one exactly where the run left something. */
  lemma {:induction false} HitExactly(w: World, calls: seq<Call>, registry: Registry, rule: Rule, t: seq<Pair>, s: Reader)
    requires w.store == ArchiveSession.StoreAfter(w.site, w.toKey, map[], calls)
    requires s.db.Some? && s.db.value in s.selected && s.threw.None? && rule.rules == []
    ensures var db := s.db.value;
            Reach(w, registry, rule, 2, t, s) == s.(found := s.found + HoldsAll(w, calls, db, s.selected[db], registry, [t]))
  {
    hide ArchiveSession.StoreAfter, DictOf, Contributed, HasValue, Contains, Fingerprint, Joined, LastData;
    var db, f := s.db.value, Fingerprint(w.toKey, registry, t);
    var idx := s.selected[db];
    JoinedIsFingerprint(w, registry, t);
    LatestWins(w.site, w.toKey, calls, db, idx, f);
    ContainsIff(w, calls, db, idx, registry, t);
    assert CurrentIndex(w, s).Some? ==> IndexAt(w.store, db, idx) == CurrentIndex(w, s).value;
    assert CurrentIndex(w, s).None? ==> IndexAt(w.store, db, idx).entries == map[];
    assert [t][1..] == [];
    assert s.found + [] == s.found;
  }

  lemma {:induction false} HitsExactly(w: World, calls: seq<Call>, registry: Registry, rule: Rule, tuples: seq<seq<Pair>>, s: Reader)
    requires w.store == ArchiveSession.StoreAfter(w.site, w.toKey, map[], calls)
    requires s.db.Some? && s.db.value in s.selected && s.threw.None? && rule.rules == []
    ensures var db := s.db.value;
            ReachAll(w, registry, rule, 2, [], tuples, s) == s.(found := s.found + HoldsAll(w, calls, db, s.selected[db], registry, tuples))
    decreases |tuples|
  {
    hide ArchiveSession.StoreAfter, Reach, Holds, DictOf;
    if tuples == [] {
      assert s.found + [] == s.found;
    } else {
      var db, t := s.db.value, tuples[0];
      var idx := s.selected[db];
      assert [] + t == t && [t][1..] == [];
      HitExactly(w, calls, registry, rule, t, s);
      HitsExactly(w, calls, registry, rule, tuples[1..], Reach(w, registry, rule, 2, t, s));
      var one, rest := HoldsAll(w, calls, db, idx, registry, [t]), HoldsAll(w, calls, db, idx, registry, tuples[1..]);
      assert HoldsAll(w, calls, db, idx, registry, tuples) == one + rest;
      assert (s.found + one) + rest == s.found + (one + rest);
    }
  }

  /** With the index selected, a datum rule appends one element for each tuple of its product
      under which the run left data, and no other: none twice, none invented, none misplaced. */
  lemma {:induction false} DatumRuleFinds(w: World, calls: seq<Call>, registry: Registry, rule: Rule, s: Reader)
    requires w.store == ArchiveSession.StoreAfter(w.site, w.toKey, map[], calls)
    requires s.db.Some? && s.db.value in s.selected && s.threw.None? && rule.rules == []
    ensures var db, ps := s.db.value, rule.predicates;
            ReadFrom(w, registry, rule, 0, 2, [], s) ==
            s.(found := s.found + HoldsAll(w, calls, db, s.selected[db], registry, Product(ps, ListsAt(w, registry, ps, s))))
  {
    hide ArchiveSession.StoreAfter, HoldsAll, ReadFrom, ReachAll, Product, Candidates, Steady;
    var ps := rule.predicates;
    var lists := ListsAt(w, registry, ps, s);
    assert ps[0..] == ps && lists[0..] == lists;
    SteadyInView(w, registry, ps, s);
    LevelIsProduct(w, registry, rule, 0, 2, [], lists, Some(View(s.db, s.selected)), s);
    HitsExactly(w, calls, registry, rule, Product(ps, lists), s);
  }

  // ----- A rule out of place -----

  predicate SomeTaken(m: Matcher, values: seq<string>)
  {
    exists v :: v in values && TakesValue(m, v)
  }

  /** Some value of every predicate from `cur` on is tried and accepted. */
  predicate Feasible(w: World, s: Reader, registry: Registry, ps: seq<Predicate>, cur: nat)
  {
    forall i :: cur <= i < |ps| ==> SomeTaken(ps[i].matcher, Candidates(w, s, registry, ps[i]))
  }

  /** A rule that ends above the third level, or goes on below it, ends the retrieval when a
      tuple gets through it; and does nothing when none does. */
  lemma {:induction false} RaggedThrows(w: World, registry: Registry, rule: Rule, cur: nat, depth: nat, done: seq<Pair>, s: Reader)
    requires depth <= 2 && cur <= |rule.predicates| && s.threw.None? && (rule.rules == []) != (depth == 2)
    ensures ReadFrom(w, registry, rule, cur, depth, done, s) ==
            if Feasible(w, s, registry, rule.predicates, cur) then s.(threw := Some(RaggedRule)) else s
    decreases |rule.predicates| - cur, 1, 0
  {
    hide Candidates;
    if cur < |rule.predicates| {
      hide ReadValues, Feasible;
      RaggedValues(w, registry, rule, cur, depth, done, Candidates(w, s, registry, rule.predicates[cur]), s);
      FeasibleStep(w, s, registry, rule.predicates, cur);
    }
  }

  lemma {:induction false} FeasibleStep(w: World, s: Reader, registry: Registry, ps: seq<Predicate>, cur: nat)
    requires cur < |ps|
    ensures Feasible(w, s, registry, ps, cur) <==>
            Feasible(w, s, registry, ps, cur + 1) && SomeTaken(ps[cur].matcher, Candidates(w, s, registry, ps[cur]))
  {
    hide Candidates, SomeTaken;
  }

  lemma {:induction false} RaggedValues(w: World, registry: Registry, rule: Rule, cur: nat, depth: nat, done: seq<Pair>, values: seq<string>, s: Reader)
    requires depth <= 2 && cur < |rule.predicates| && s.threw.None? && (rule.rules == []) != (depth == 2)
    ensures ReadValues(w, registry, rule, cur, depth, done, values, s) ==
            if Feasible(w, s, registry, rule.predicates, cur + 1) && SomeTaken(rule.predicates[cur].matcher, values)
            then s.(threw := Some(RaggedRule)) else s
    decreases |rule.predicates| - cur, 0, |values|
  {
    hide Feasible, ReadFrom;
    if values != [] {
      var p := rule.predicates[cur];
      assert p.matcher.Accepts(values[0]) == TakesValue(p.matcher, values[0]);
      assert forall v :: v in values <==> v == values[0] || v in values[1..];
      if p.matcher.Accepts(values[0]) {
        RaggedThrows(w, registry, rule, cur + 1, depth, done + [(p.keyword, values[0])], s);
      }
      if !(p.matcher.Accepts(values[0]) && Feasible(w, s, registry, rule.predicates, cur + 1)) {
        RaggedValues(w, registry, rule, cur, depth, done, values[1..], s);
      }
    }
  }
}
