/** Axes lose no hit: an index that is skipped, and a value that is filtered out, holds
    nothing that the request asks for. */
module AxisPruning {
  import opened Wrappers
  import opened Keys
  import opened Rules
  import opened WriteExpansion
  import opened Stores
  import opened ReadExpansion
  import opened ReadProduct
  import opened Completeness
  import ArchiveSession
  import opened ArchiveRetrieve

  // ----- Skipping an index -----

  /** `IndexAxis::partialMatch`: the request has a value on every axis that it mentions. */
  predicate PartialMatch(axes: map<string, set<string>>, request: Request)
  {
    forall k :: k in axes && k in request ==> exists i :: 0 <= i < |request[k]| && request[k][i] in axes[k]
  }

  /** `Key::partialMatch`, for the key of an index. */
  predicate KeyMatches(key: Dict, request: Request)
  {
    forall k :: k in key && k in request && request[k] != [] ==> key[k] in request[k]
  }

  /** An index with its own key. */
  datatype KeyedIndex = KeyedIndex(key: Dict, index: Index)

  /** `IndexBase::partialMatch`. */
  predicate MayMatch(i: KeyedIndex, request: Request)
  {
    KeyMatches(i.key, request) && PartialMatch(i.index.axes, request)
  }

  /** `IndexBase::put` for each of some keys in turn. */
  function PutAll(index: Index, toKey: ToKey, registry: Registry, keys: seq<(seq<Pair>, Data)>): Index
  {
    if keys == [] then index
    else PutIndex(PutAll(index, toKey, registry, keys[..|keys| - 1]), toKey, registry, keys[|keys| - 1].0, keys[|keys| - 1].1)
  }

  /** The request names the canonical value of the key for all of its keywords that it
      mentions. */
  predicate Asks(toKey: ToKey, registry: Registry, request: Request, key: Dict)
  {
    forall k :: k in key && k in request ==> Canonical(toKey, registry, (k, key[k])) in request[k]
  }

  /** Some key put has the keyword, and this canonical value for it. */
  predicate SomeHas(keys: seq<(seq<Pair>, Data)>, k: string)
  {
    exists i :: 0 <= i < |keys| && k in DictOf(keys[i].0)
  }

  predicate SomeHolds(toKey: ToKey, registry: Registry, keys: seq<(seq<Pair>, Data)>, k: string, v: string)
  {
    exists i :: 0 <= i < |keys| && k in DictOf(keys[i].0) && Canonical(toKey, registry, (k, DictOf(keys[i].0)[k])) == v
  }

  /** After any sequence of puts the axes hold the canonical values of exactly the keys put. */
  lemma {:induction false} AxesOfPuts(toKey: ToKey, registry: Registry, keys: seq<(seq<Pair>, Data)>, k: string, v: string)
    ensures var axes := PutAll(EMPTY_INDEX, toKey, registry, keys).axes;
            (k in axes <==> SomeHas(keys, k)) && (k in axes && v in axes[k] <==> SomeHolds(toKey, registry, keys, k, v))
  {
    hide DictOf, Canonical, Fingerprint, SomeHas, SomeHolds;
    if keys == [] {
      NoneHas(toKey, registry, k, v);
    } else {
      AxesOfPuts(toKey, registry, keys[..|keys| - 1], k, v);
      LastHas(toKey, registry, keys, k, v);
    }
  }

  lemma {:induction false} NoneHas(toKey: ToKey, registry: Registry, k: string, v: string)
    ensures !SomeHas([], k) && !SomeHolds(toKey, registry, [], k, v)
  {
  }

  lemma {:induction false} LastHas(toKey: ToKey, registry: Registry, keys: seq<(seq<Pair>, Data)>, k: string, v: string)
    requires keys != []
    ensures var init, last := keys[..|keys| - 1], DictOf(keys[|keys| - 1].0);
            && (SomeHas(keys, k) <==> SomeHas(init, k) || k in last)
            && (SomeHolds(toKey, registry, keys, k, v) <==>
                  SomeHolds(toKey, registry, init, k, v) || (k in last && Canonical(toKey, registry, (k, last[k])) == v))
  {
    hide DictOf, Canonical;
    var init := keys[..|keys| - 1];
    assert forall i :: 0 <= i < |init| ==> init[i] == keys[i];
  }

  /** The axes hold canonical values only. */
  lemma {:induction false} AxesAreCanonical(toKey: ToKey, registry: Registry, keys: seq<(seq<Pair>, Data)>, k: string, v: string)
    requires Canonicalises(toKey)
    ensures var axes := PutAll(EMPTY_INDEX, toKey, registry, keys).axes;
            k in axes && v in axes[k] ==> toKey(TypeOf(registry, k), v) == v
  {
    hide PutAll, DictOf;
    AxesOfPuts(toKey, registry, keys, k, v);
    if SomeHolds(toKey, registry, keys, k, v) {
      var i :| 0 <= i < |keys| && k in DictOf(keys[i].0) && Canonical(toKey, registry, (k, DictOf(keys[i].0)[k])) == v;
      var t, raw := TypeOf(registry, k), DictOf(keys[i].0)[k];
      assert toKey(t, toKey(t, raw)) == toKey(t, raw) && toKey(t, "") == "";
    }
  }

  /** No index is skipped that holds a key the request asks for, and no stored key is
      refused by its index where all keys of the index have the same keywords. */
  lemma {:induction false} StoredIsNotSkipped(idx: Dict, toKey: ToKey, registry: Registry, keys: seq<(seq<Pair>, Data)>, i: nat, request: Request)
    requires i < |keys| && KeyMatches(idx, request) && Asks(toKey, registry, request, DictOf(keys[i].0))
    requires forall j :: 0 <= j < |keys| ==> DictOf(keys[j].0).Keys == DictOf(keys[i].0).Keys
    ensures MayMatch(KeyedIndex(idx, PutAll(EMPTY_INDEX, toKey, registry, keys)), request)
    ensures Contains(PutAll(EMPTY_INDEX, toKey, registry, keys).axes, toKey, registry, DictOf(keys[i].0))
  {
    hide DictOf, Canonical, PutAll;
    var key := DictOf(keys[i].0);
    var axes := PutAll(EMPTY_INDEX, toKey, registry, keys).axes;
    forall k | k in axes
      ensures k in key && Canonical(toKey, registry, (k, key[k])) in axes[k]
    {
      AxesOfPuts(toKey, registry, keys, k, "");
      var j :| 0 <= j < |keys| && k in DictOf(keys[j].0);
      assert k in DictOf(keys[j].0).Keys;
      AxesOfPuts(toKey, registry, keys, k, Canonical(toKey, registry, (k, key[k])));
      assert SomeHolds(toKey, registry, keys, k, Canonical(toKey, registry, (k, key[k])));
    }
    forall k | k in axes && k in request
      ensures exists i :: 0 <= i < |request[k]| && request[k][i] in axes[k]
    {
      var n :| 0 <= n < |request[k]| && request[k][n] == Canonical(toKey, registry, (k, key[k]));
    }
  }

  /** Exactly which indexes are skipped: those whose key has, for some keyword that the request
      has values for, another value, and those into which data with a requested keyword were
      put, but none with a requested value. */
  lemma {:induction false} SkippedExactly(idx: Dict, toKey: ToKey, registry: Registry, keys: seq<(seq<Pair>, Data)>, request: Request)
    ensures MayMatch(KeyedIndex(idx, PutAll(EMPTY_INDEX, toKey, registry, keys)), request) <==>
            && (forall k :: k in idx && k in request && request[k] != [] ==> idx[k] in request[k])
            && forall k :: k in request && SomeHas(keys, k) ==> exists v :: v in request[k] && SomeHolds(toKey, registry, keys, k, v)
  {
    hide PutAll, SomeHas, SomeHolds;
    var axes := PutAll(EMPTY_INDEX, toKey, registry, keys).axes;
    forall k, v
      ensures (k in axes <==> SomeHas(keys, k)) && (k in axes && v in axes[k] <==> SomeHolds(toKey, registry, keys, k, v))
    {
      AxesOfPuts(toKey, registry, keys, k, v);
    }
    if PartialMatch(axes, request) {
      forall k | k in request && SomeHas(keys, k)
        ensures exists v :: v in request[k] && SomeHolds(toKey, registry, keys, k, v)
      {
        AxesOfPuts(toKey, registry, keys, k, "");
        var i :| 0 <= i < |request[k]| && request[k][i] in axes[k];
        assert SomeHolds(toKey, registry, keys, k, request[k][i]);
      }
    }
    if forall k :: k in request && SomeHas(keys, k) ==> exists v :: v in request[k] && SomeHolds(toKey, registry, keys, k, v) {
      forall k | k in axes && k in request
        ensures exists i :: 0 <= i < |request[k]| && request[k][i] in axes[k]
      {
        AxesOfPuts(toKey, registry, keys, k, "");
        var v :| v in request[k] && SomeHolds(toKey, registry, keys, k, v);
        var i :| 0 <= i < |request[k]| && request[k][i] == v;
      }
    }
  }


  // ----- Filtering the values of a level -----

  /** The tuples all of whose pairs are kept. */
  function Sift(keep: Pair -> bool, tuples: seq<seq<Pair>>): seq<seq<Pair>>
  {
    if tuples == [] then []
    else if forall i :: 0 <= i < |tuples[0]| ==> keep(tuples[0][i]) then [tuples[0]] + Sift(keep, tuples[1..])
    else Sift(keep, tuples[1..])
  }

  lemma {:induction false} SiftConcat(keep: Pair -> bool, a: seq<seq<Pair>>, b: seq<seq<Pair>>)
    ensures Sift(keep, a + b) == Sift(keep, a) + Sift(keep, b)
  {
    if a == [] {
      assert a + b == b;
    } else {
      assert (a + b)[0] == a[0] && (a + b)[1..] == a[1..] + b;
      SiftConcat(keep, a[1..], b);
    }
  }

  function Front(p: Pair, tails: seq<seq<Pair>>): seq<seq<Pair>>
  {
    seq(|tails|, i requires 0 <= i < |tails| => [p] + tails[i])
  }

  lemma {:induction false} SiftFront(keep: Pair -> bool, p: Pair, tails: seq<seq<Pair>>)
    ensures Sift(keep, Front(p, tails)) == if keep(p) then Front(p, Sift(keep, tails)) else []
  {
    if tails != [] {
      var all, t := Front(p, tails), tails[0];
      assert all[0] == [p] + t && all[1..] == Front(p, tails[1..]);
      SiftFront(keep, p, tails[1..]);
      if keep(p) {
        KeepsTuple(keep, p, t);
        assert Front(p, [t] + Sift(keep, tails[1..])) == [[p] + t] + Front(p, Sift(keep, tails[1..]));
      } else {
        assert !keep(([p] + t)[0]);
      }
    }
  }

  lemma {:induction false} KeepsTuple(keep: Pair -> bool, p: Pair, t: seq<Pair>)
    requires keep(p)
    ensures (forall i :: 0 <= i < |[p] + t| ==> keep(([p] + t)[i])) <==> forall i :: 0 <= i < |t| ==> keep(t[i])
  {
    forall i | 0 <= i < |t|
      ensures t[i] == ([p] + t)[i + 1]
    {
    }
  }

  /** The values of a list that are kept for a keyword. */
  function SiftValues(keep: Pair -> bool, k: string, values: seq<string>): seq<string>
  {
    if values == [] then []
    else (if keep((k, values[0])) then [values[0]] else []) + SiftValues(keep, k, values[1..])
  }

  lemma {:induction false} SiftFronted(keep: Pair -> bool, p: Predicate, values: seq<string>, tails: seq<seq<Pair>>)
    ensures Fronted(p.keyword, Accepted(p, SiftValues(keep, p.keyword, values)), Sift(keep, tails))
         == Sift(keep, Fronted(p.keyword, Accepted(p, values), tails))
  {
    if values != [] {
      var v, rest := values[0], SiftValues(keep, p.keyword, values[1..]);
      SiftFronted(keep, p, values[1..], tails);
      assert [] + rest == rest && ([v] + rest)[1..] == rest;
      if p.matcher.Accepts(v) {
        var accepted := Accepted(p, values[1..]);
        assert ([v] + accepted)[1..] == accepted;
        SiftConcat(keep, Front((p.keyword, v), tails), Fronted(p.keyword, accepted, tails));
        SiftFront(keep, (p.keyword, v), tails);
        var kept := Accepted(p, rest);
        assert ([v] + kept)[1..] == kept;
      }
    }
  }

  /** The product of the kept values is the kept part of the product. */
  lemma {:induction false} SiftProduct(keep: Pair -> bool, ps: seq<Predicate>, lists: seq<seq<string>>, kept: seq<seq<string>>)
    requires |ps| == |lists| == |kept|
    requires forall i :: 0 <= i < |ps| ==> kept[i] == SiftValues(keep, ps[i].keyword, lists[i])
    ensures Product(ps, kept) == Sift(keep, Product(ps, lists))
  {
    if ps == [] {
      assert Sift(keep, [[]]) == [[]] + Sift(keep, []);
    } else {
      hide Fronted, Accepted, Sift, SiftValues;
      SiftProduct(keep, ps[1..], lists[1..], kept[1..]);
      SiftFronted(keep, ps[0], lists[0], Product(ps[1..], lists[1..]));
    }
  }

  // ----- What is filtered out would have been a miss -----

  /** A canonicalisation that does nothing twice, and nothing to the empty value. */
  ghost predicate Canonicalises(toKey: ToKey)
  {
    forall t, v {:trigger toKey(t, v)} :: toKey(t, toKey(t, v)) == toKey(t, v) && toKey(t, "") == ""
  }

  /** The filter of `MultiRetrieveVisitor::values` on one pair. */
  predicate OnAxis(w: World, s: Reader, registry: Registry, p: Pair)
  {
    AxisOf(w, s, p.0).None? || w.toKey(TypeOf(registry, p.0), p.1) in AxisOf(w, s, p.0).value
  }

  /** The axes hold canonical values only. */
  ghost predicate CanonicalAxes(w: World, s: Reader, registry: Registry)
  {
    forall k, v :: AxisOf(w, s, k).Some? && v in AxisOf(w, s, k).value ==> w.toKey(TypeOf(registry, k), v) == v
  }

  lemma {:induction false} ValuesAreSifted(w: World, s: Reader, registry: Registry, k: string, values: seq<string>)
    ensures Filtered(values, v => w.toKey(TypeOf(registry, k), v), AxisOf(w, s, k)) ==
            SiftValues(p => OnAxis(w, s, registry, p), k, values)
  {
    if values != [] {
      ValuesAreSifted(w, s, registry, k, values[1..]);
      var rest := Filtered(values[1..], v => w.toKey(TypeOf(registry, k), v), AxisOf(w, s, k));
      assert [] + rest == rest;
    }
  }

  /** A tuple with a value that is off its axis selects nothing. */
  lemma {:induction false} OffAxisMisses(w: World, s: Reader, registry: Registry, rule: Rule, ps: seq<Pair>, i: nat)
    requires i < |ps| && Distinct(Names(ps)) && !OnAxis(w, s, registry, ps[i])
    requires Canonicalises(w.toKey) && CanonicalAxes(w, s, registry) && s.db.Some? && s.threw.None? && rule.rules == []
    ensures Reach(w, registry, rule, 2, ps, s) == s
  {
    hide DictOf, Fingerprint;
    DictOfLookup(ps, i);
    var k, v := ps[i].0, ps[i].1;
    var t := TypeOf(registry, k);
    assert w.toKey(t, v) !in AxisOf(w, s, k).value;
    assert w.toKey(t, "") == "";
  }

  /** Leaving out the tuples that are off an axis changes no hit. */
  lemma {:induction false} SiftedHits(w: World, registry: Registry, rule: Rule, tuples: seq<seq<Pair>>, s: Reader)
    requires Canonicalises(w.toKey) && CanonicalAxes(w, s, registry) && s.db.Some? && s.threw.None? && rule.rules == []
    requires forall t :: t in tuples ==> Distinct(Names(t))
    ensures ReachAll(w, registry, rule, 2, [], Sift(p => OnAxis(w, s, registry, p), tuples), s) == ReachAll(w, registry, rule, 2, [], tuples, s)
    decreases |tuples|
  {
    hide Reach, OnAxis, Names, Distinct, Canonicalises;
    var keep := p => OnAxis(w, s, registry, p);
    if tuples != [] {
      var t := tuples[0];
      assert [] + t == t && Distinct(Names(t));
      if forall i :: 0 <= i < |t| ==> OnAxis(w, s, registry, t[i]) {
        var s' := Reach(w, registry, rule, 2, t, s);
        DatumReach(w, registry, rule, t, s);
        SameAxes(w, registry, s, s');
        SiftedHits(w, registry, rule, tuples[1..], s');
        SameSift(w, registry, s, s', tuples[1..]);
        assert ([t] + Sift(keep, tuples[1..]))[1..] == Sift(keep, tuples[1..]);
      } else {
        var i :| 0 <= i < |t| && !OnAxis(w, s, registry, t[i]);
        OffAxisMisses(w, s, registry, rule, t, i);
        SiftedHits(w, registry, rule, tuples[1..], s);
      }
    }
  }

  lemma {:induction false} DatumReach(w: World, registry: Registry, rule: Rule, ps: seq<Pair>, s: Reader)
    requires s.db.Some? && s.threw.None? && rule.rules == []
    ensures var s' := Reach(w, registry, rule, 2, ps, s); s'.db == s.db && s'.selected == s.selected && s'.threw.None?
  {
  }

  lemma {:induction false} SameAxes(w: World, registry: Registry, s: Reader, s': Reader)
    requires s'.db == s.db && s'.selected == s.selected
    ensures forall k :: AxisOf(w, s', k) == AxisOf(w, s, k)
    ensures CanonicalAxes(w, s, registry) ==> CanonicalAxes(w, s', registry)
    ensures forall p :: OnAxis(w, s', registry, p) == OnAxis(w, s, registry, p)
  {
  }

  lemma {:induction false} SameSift(w: World, registry: Registry, s: Reader, s': Reader, tuples: seq<seq<Pair>>)
    requires forall p :: OnAxis(w, s', registry, p) == OnAxis(w, s, registry, p)
    ensures Sift(p => OnAxis(w, s', registry, p), tuples) == Sift(p => OnAxis(w, s, registry, p), tuples)
  {
    if tuples != [] {
      SameSift(w, registry, s, s', tuples[1..]);
    }
  }

  /** The lists as they would be if the axes filtered nothing: the default stands in only
      where the request lists no value. */
  function Unfiltered(w: World, registry: Registry, ps: seq<Predicate>): (r: seq<seq<string>>)
    ensures |r| == |ps|
  {
    seq(|ps|, i requires 0 <= i < |ps| =>
      var listed := Listed(w, registry, ps[i].keyword);
      if listed == [] && ps[i].matcher.Optional() then [ps[i].matcher.def] else listed)
  }

  /** The hit of one tuple. */
  function HitOf(w: World, s: Reader, registry: Registry, t: seq<Pair>): seq<Element>
    requires s.db.Some?
  {
    SelectDatum(w, s.(found := []), registry, t).found
  }

  lemma {:induction false} ReachHits(w: World, registry: Registry, rule: Rule, t: seq<Pair>, s: Reader)
    requires s.db.Some? && s.threw.None? && rule.rules == []
    ensures var s' := Reach(w, registry, rule, 2, t, s);
            s'.found == s.found + HitOf(w, s, registry, t) && s'.db == s.db && s'.selected == s.selected && s'.threw.None?
  {
    assert CurrentIndex(w, s.(found := [])) == CurrentIndex(w, s);
    assert s.found + [] == s.found;
  }

  /** What a datum rule finds for some tuples are the hits of the tuples. */
  lemma {:induction false} AllHits(w: World, registry: Registry, rule: Rule, tuples: seq<seq<Pair>>, s: Reader, base: Reader, e: Element)
    requires base.db.Some? && s.db == base.db && s.selected == base.selected && s.threw.None? && rule.rules == []
    ensures e in ReachAll(w, registry, rule, 2, [], tuples, s).found <==>
            e in s.found || exists t :: t in tuples && e in HitOf(w, base, registry, t)
    decreases |tuples|
  {
    hide Reach, SelectDatum;
    if tuples != [] {
      var t := tuples[0];
      assert [] + t == t;
      ReachHits(w, registry, rule, t, s);
      SameHit(w, registry, s, base, t);
      AllHits(w, registry, rule, tuples[1..], Reach(w, registry, rule, 2, t, s), base, e);
      assert forall u :: u in tuples <==> u == t || u in tuples[1..];
    }
  }

  lemma {:induction false} SameHit(w: World, registry: Registry, s: Reader, base: Reader, t: seq<Pair>)
    requires base.db.Some? && s.db == base.db && s.selected == base.selected
    ensures HitOf(w, s, registry, t) == HitOf(w, base, registry, t)
  {
    assert CurrentIndex(w, s.(found := [])) == CurrentIndex(w, base.(found := []));
  }

  /** A tuple that hits has all its values on their axes. */
  lemma {:induction false} HitIsOnAxes(w: World, s: Reader, registry: Registry, rule: Rule, t: seq<Pair>, i: nat)
    requires Canonicalises(w.toKey) && CanonicalAxes(w, s, registry) && s.db.Some? && s.threw.None? && rule.rules == []
    requires i < |t| && Distinct(Names(t)) && HitOf(w, s, registry, t) != []
    ensures OnAxis(w, s, registry, t[i])
  {
    hide OnAxis, Canonicalises, CanonicalAxes, Reach, SelectDatum;
    ReachHits(w, registry, rule, t, s);
    assert |Reach(w, registry, rule, 2, t, s).found| == |s.found| + |HitOf(w, s, registry, t)|;
    if !OnAxis(w, s, registry, t[i]) {
      OffAxisMisses(w, s, registry, rule, t, i);
    }
  }

  /** A default stands in where the request lists values and all of them are off the axis. */
  predicate Defaulted(w: World, s: Reader, registry: Registry, p: Predicate, v: string)
  {
    && p.matcher.Optional() && v == p.matcher.def && Listed(w, registry, p.keyword) != []
    && forall u :: u in Listed(w, registry, p.keyword) ==> !OnAxis(w, s, registry, (p.keyword, u))
  }

  /** One value under the filter: on its axis, it is kept; kept, it was there, or is a default. */
  lemma {:induction false} KeptValue(w: World, s: Reader, registry: Registry, p: Predicate, v: string)
    ensures var listed := Listed(w, registry, p.keyword);
            var wide := if listed == [] && p.matcher.Optional() then [p.matcher.def] else listed;
            && (v in wide && OnAxis(w, s, registry, (p.keyword, v)) ==> v in Candidates(w, s, registry, p))
            && (v in Candidates(w, s, registry, p) ==> v in wide || Defaulted(w, s, registry, p, v))
  {
    hide Listed, TypeOf;
    var listed, values := Listed(w, registry, p.keyword), Values(w, s, registry, p.keyword);
    assert forall u :: u in values <==> u in listed && OnAxis(w, s, registry, (p.keyword, u));
    if values != [] {
      assert values[0] in values;
    }
  }

  /** The read of a datum rule finds what the kept tuples hit. */
  lemma {:induction false} ReadFinds(w: World, registry: Registry, rule: Rule, s: Reader, e: Element)
    requires s.db.Some? && s.threw.None? && rule.rules == []
    ensures e in ReadFrom(w, registry, rule, 0, 2, [], s).found <==>
            e in s.found || exists t: seq<Pair> :: Choice(rule.predicates, ListsAt(w, registry, rule.predicates, s), t) && e in HitOf(w, s, registry, t)
  {
    hide ReadFrom, ReachAll, Product, Candidates, Choice, HitOf, Steady;
    var ps := rule.predicates;
    var lists := ListsAt(w, registry, ps, s);
    assert ps[0..] == ps && lists[0..] == lists;
    SteadyInView(w, registry, ps, s);
    LevelIsProduct(w, registry, rule, 0, 2, [], lists, Some(View(s.db, s.selected)), s);
    AllHits(w, registry, rule, Product(ps, lists), s, s, e);
    forall t: seq<Pair>
      ensures t in Product(ps, lists) <==> Choice(ps, lists, t)
    {
      ProductIsChoices(ps, lists, t);
    }
  }

  lemma {:induction false} UnfilteredFinds(w: World, registry: Registry, rule: Rule, s: Reader, e: Element)
    requires s.db.Some? && s.threw.None? && rule.rules == []
    ensures var lists := Unfiltered(w, registry, rule.predicates);
            e in ReachAll(w, registry, rule, 2, [], Product(rule.predicates, lists), s).found <==>
            e in s.found || exists t: seq<Pair> :: Choice(rule.predicates, lists, t) && e in HitOf(w, s, registry, t)
  {
    hide ReachAll, Product, Choice, HitOf, Unfiltered;
    var ps, lists := rule.predicates, Unfiltered(w, registry, rule.predicates);
    AllHits(w, registry, rule, Product(ps, lists), s, s, e);
    forall t: seq<Pair>
      ensures t in Product(ps, lists) <==> Choice(ps, lists, t)
    {
      ProductIsChoices(ps, lists, t);
    }
  }

  lemma {:induction false} ChoiceNames(ps: seq<Predicate>, lists: seq<seq<string>>, t: seq<Pair>)
    requires |ps| == |lists| && Choice(ps, lists, t)
    ensures Names(t) == Keywords(ps)
  {
  }

  /** Filtering by the axes loses no hit of any datum rule, and adds none but those of
      defaults that stand in for values which are all off their axis. */
  lemma {:induction false} PruningLosesNothing(w: World, registry: Registry, rule: Rule, s: Reader, e: Element)
    requires Canonicalises(w.toKey) && CanonicalAxes(w, s, registry) && s.db.Some? && s.threw.None? && rule.rules == []
    requires Distinct(Keywords(rule.predicates))
    ensures var all := ReachAll(w, registry, rule, 2, [], Product(rule.predicates, Unfiltered(w, registry, rule.predicates)), s);
            var read := ReadFrom(w, registry, rule, 0, 2, [], s);
            && (e in all.found ==> e in read.found)
            && (e in read.found && e !in all.found ==>
                  exists t: seq<Pair>, i: nat :: e in HitOf(w, s, registry, t) && i < |t| == |rule.predicates| && Defaulted(w, s, registry, rule.predicates[i], t[i].1))
  {
    hide ReadFrom, ReachAll, Product, HitOf, Canonicalises, CanonicalAxes, OnAxis, Candidates, Defaulted, Listed;
    var ps := rule.predicates;
    var wide, kept := Unfiltered(w, registry, ps), ListsAt(w, registry, ps, s);
    ReadFinds(w, registry, rule, s, e);
    UnfilteredFinds(w, registry, rule, s, e);
    forall t: seq<Pair> | Choice(ps, wide, t) && e in HitOf(w, s, registry, t)
      ensures Choice(ps, kept, t)
    {
      ChoiceNames(ps, wide, t);
      forall i | 0 <= i < |ps|
        ensures t[i].1 in kept[i]
      {
        HitIsOnAxes(w, s, registry, rule, t, i);
        KeptValue(w, s, registry, ps[i], t[i].1);
      }
    }
    forall t: seq<Pair> | Choice(ps, kept, t)
      ensures Choice(ps, wide, t) || exists i :: 0 <= i < |ps| && Defaulted(w, s, registry, ps[i], t[i].1)
    {
      forall i | 0 <= i < |ps|
        ensures t[i].1 in wide[i] || Defaulted(w, s, registry, ps[i], t[i].1)
      {
        KeptValue(w, s, registry, ps[i], t[i].1);
      }
    }
  }

  /** No default stands in for values which are all off their axis. */
  predicate NoneDefaulted(w: World, s: Reader, registry: Registry, ps: seq<Predicate>)
  {
    forall i :: 0 <= i < |ps| ==> !Defaulted(w, s, registry, ps[i], if ps[i].matcher.Optional() then ps[i].matcher.def else "")
  }

  lemma {:induction false} SiftedTwice(keep: Pair -> bool, k: string, values: seq<string>)
    ensures SiftValues(keep, k, SiftValues(keep, k, values)) == SiftValues(keep, k, values)
  {
    if values != [] {
      var rest := SiftValues(keep, k, values[1..]);
      SiftedTwice(keep, k, values[1..]);
      assert [] + rest == rest && ([values[0]] + rest)[1..] == rest;
    }
  }

  /** Then the filtered and the unfiltered lists keep the same values. */
  lemma {:induction false} SameSifted(w: World, s: Reader, registry: Registry, ps: seq<Predicate>, i: nat)
    requires i < |ps| && NoneDefaulted(w, s, registry, ps)
    ensures var keep := p => OnAxis(w, s, registry, p);
            SiftValues(keep, ps[i].keyword, ListsAt(w, registry, ps, s)[i]) == SiftValues(keep, ps[i].keyword, Unfiltered(w, registry, ps)[i])
  {
    hide SiftValues, Filtered, Listed, OnAxis;
    var k := ps[i].keyword;
    var listed, values := Listed(w, registry, k), Values(w, s, registry, k);
    PrunedIsSifted(w, registry, k, s);
    SiftedTwice(p => OnAxis(w, s, registry, p), k, listed);
    if listed == [] {
      NothingSifted(p => OnAxis(w, s, registry, p), k);
    } else if ps[i].matcher.Optional() && values == [] {
      var u :| u in listed && OnAxis(w, s, registry, (k, u));
      KeptListed(w, s, registry, k, u);
    }
  }

  lemma {:induction false} NothingSifted(keep: Pair -> bool, k: string)
    ensures SiftValues(keep, k, []) == []
  {
  }

  lemma {:induction false} KeptListed(w: World, s: Reader, registry: Registry, k: string, u: string)
    requires u in Listed(w, registry, k) && OnAxis(w, s, registry, (k, u))
    ensures u in Values(w, s, registry, k)
  {
    hide Listed;
  }

  /** Otherwise the read of a datum rule is, hit by hit and in order, what it would be if
      the axes filtered nothing. */
  lemma {:induction false} PruningKeepsHits(w: World, registry: Registry, rule: Rule, s: Reader)
    requires Canonicalises(w.toKey) && CanonicalAxes(w, s, registry) && s.db.Some? && s.threw.None? && rule.rules == []
    requires Distinct(Keywords(rule.predicates)) && NoneDefaulted(w, s, registry, rule.predicates)
    ensures ReadFrom(w, registry, rule, 0, 2, [], s) ==
            ReachAll(w, registry, rule, 2, [], Product(rule.predicates, Unfiltered(w, registry, rule.predicates)), s)
  {
    hide ReadFrom, Reach, ReachAll, Product, Canonicalises, CanonicalAxes, Candidates, OnAxis, Steady, NoneDefaulted, SiftValues, Listed;
    var ps := rule.predicates;
    var wide, kept := Unfiltered(w, registry, ps), ListsAt(w, registry, ps, s);
    assert ps[0..] == ps && kept[0..] == kept;
    SteadyInView(w, registry, ps, s);
    LevelIsProduct(w, registry, rule, 0, 2, [], kept, Some(View(s.db, s.selected)), s);
    var keep := p => OnAxis(w, s, registry, p);
    var sifted := seq(|ps|, i requires 0 <= i < |ps| => SiftValues(keep, ps[i].keyword, wide[i]));
    forall i | 0 <= i < |ps|
      ensures sifted[i] == SiftValues(keep, ps[i].keyword, kept[i])
    {
      SameSifted(w, s, registry, ps, i);
    }
    SiftProduct(keep, ps, wide, sifted);
    SiftProduct(keep, ps, kept, sifted);
    DistinctChoices(ps, wide);
    DistinctChoices(ps, kept);
    SiftedHits(w, registry, rule, Product(ps, wide), s);
    SiftedHits(w, registry, rule, Product(ps, kept), s);
  }

  lemma {:induction false} DistinctChoices(ps: seq<Predicate>, lists: seq<seq<string>>)
    requires |ps| == |lists| && Distinct(Keywords(ps))
    ensures forall t :: t in Product(ps, lists) ==> Distinct(Names(t))
  {
    forall t | t in Product(ps, lists)
      ensures Distinct(Names(t))
    {
      ProductIsChoices(ps, lists, t);
      assert Names(t) == Keywords(ps);
    }
  }

  lemma {:induction false} PrunedIsSifted(w: World, registry: Registry, k: string, s: Reader)
    ensures Values(w, s, registry, k) == SiftValues(p => OnAxis(w, s, registry, p), k, Listed(w, registry, k))
  {
    hide Filtered, SiftValues, Listed, OnAxis;
    ValuesAreSifted(w, s, registry, k, Listed(w, registry, k));
  }

  // ----- Over runs -----

  /** The data of an index were archived under types that agree with these. */
  ghost predicate TypesAgree(site: Site, calls: seq<Call>, db: Dict, idx: Dict, registry: Registry)
  {
    forall j, k :: 0 <= j < |calls| && Into(site, calls[j], db, idx) && k in DictOf(DatumOf(site, calls[j])) ==>
      TypeOf(Decide(site, calls[j].0).registry, k) == TypeOf(registry, k)
  }

  /** The axes of every index that a run leaves hold canonical values only. */
  lemma {:induction false} RunAxesAreCanonical(w: World, calls: seq<Call>, s: Reader, registry: Registry)
    requires w.store == ArchiveSession.StoreAfter(w.site, w.toKey, map[], calls) && Canonicalises(w.toKey)
    requires s.db.Some? && s.db.value in s.selected ==> TypesAgree(w.site, calls, s.db.value, s.selected[s.db.value], registry)
    ensures CanonicalAxes(w, s, registry)
  {
    hide ArchiveSession.StoreAfter, Decide, DatumOf, DictOf;
    forall k, v | AxisOf(w, s, k).Some? && v in AxisOf(w, s, k).value
      ensures w.toKey(TypeOf(registry, k), v) == v
    {
      var db, idx := s.db.value, s.selected[s.db.value];
      assert IndexAt(w.store, db, idx) == w.store[db][idx];
      ValuesOfRun(w.site, w.toKey, calls, db, idx, k, v);
      var j :| 0 <= j < |calls| && Into(w.site, calls[j], db, idx) && k in DictOf(DatumOf(w.site, calls[j])) && CanonicalOf(w.site, w.toKey, calls[j], k) == v;
      var t := TypeOf(registry, k);
      assert w.toKey(t, "") == "";
    }
  }
}
