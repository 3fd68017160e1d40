/** The keys that the expansions push to and pop from in place: one per level and
    one of all levels together. */
module ExpansionKeys {
  import opened Keys
  import opened Rules
  import opened WriteExpansion

  /** The keys of the three levels and the key of all levels together, which the
      expansion pushes to and pops from in place. */
  class LevelKeys {
    var keys: seq<Key>
    var full: Key

    constructor ()
      ensures keys == Levels([], []) && full == KeyOf([])
    {
      keys := [KeyOf([]), KeyOf([]), KeyOf([])];
      full := KeyOf([]);
    }

    /** The start of `Schema::expandSecond`: the database key is complete. */
    constructor Below(db: Key)
      ensures keys == [db, KeyOf([]), KeyOf([])] && full == db
    {
      keys := [db, KeyOf([]), KeyOf([])];
      full := db;
    }

    method Push(depth: nat, k: string, v: string)
      requires depth < |keys|
      modifies this
      ensures keys == old(keys)[depth := old(keys[depth]).Push(k, v)] && full == old(full).Push(k, v)
    {
      keys := keys[depth := keys[depth].Push(k, v)];
      full := full.Push(k, v);
    }

    method Pop(depth: nat, k: string)
      requires depth < |keys| && keys[depth].names != [] && keys[depth].names[|keys[depth].names| - 1] == k
      requires full.names != [] && full.names[|full.names| - 1] == k
      modifies this
      ensures keys == old(keys)[depth := old(keys[depth]).Pop(k)] && full == old(full).Pop(k)
    {
      full := full.Pop(k);
      keys := keys[depth := keys[depth].Pop(k)];
    }
  }

  /** The level keys at a point of the walk: `path` is complete, `done` is being
      pushed and deeper levels are still empty. */
  function Levels(path: seq<seq<Pair>>, done: seq<Pair>): seq<Key>
    requires |path| <= 2
  {
    seq(3, i requires 0 <= i < 3 =>
      if i < |path| then KeyOf(path[i]) else if i == |path| then KeyOf(done) else KeyOf([]))
  }

  /** All pairs of a path, in push order. */
  function Flat(path: seq<seq<Pair>>): seq<Pair>
  {
    if path == [] then [] else path[0] + Flat(path[1..])
  }

  /** `path` is complete, `done` is being pushed, deeper levels are empty, and the
      full key has every pair so far. */
  ghost predicate Placed(keys: seq<Key>, full: Key, path: seq<seq<Pair>>, done: seq<Pair>)
  {
    && |path| <= 2 && Distinct(Names(done))
    && keys == Levels(path, done)
    && full == KeyOf(Flat(path + [done]))
  }

  lemma {:induction false} FlatGrow(path: seq<seq<Pair>>, ps: seq<Pair>)
    ensures Flat(path + [ps]) == Flat(path) + ps
  {
    if path == [] {
      assert [ps][1..] == [];
      assert Flat([ps]) == ps + Flat([]);
    } else {
      assert (path + [ps])[0] == path[0] && (path + [ps])[1..] == path[1..] + [ps];
      FlatGrow(path[1..], ps);
    }
  }

  lemma {:induction false} FullKeysOfFlat(path: seq<seq<Pair>>)
    ensures DictOf(Flat(path)).Keys == FullKeys(path)
  {
    if path != [] {
      FullKeysOfFlat(path[1..]);
      DictOfConcat(path[0], Flat(path[1..]));
    }
  }

  /** Where all three levels are complete the full key is their union. */
  lemma {:induction false} FullIsUnion(p0: seq<Pair>, p1: seq<Pair>, p2: seq<Pair>)
    ensures DictOf(Flat([p0, p1, p2])) == DictOf(p0) + DictOf(p1) + DictOf(p2)
  {
    hide DictOf;
    FlatGrow([], p0);
    FlatGrow([p0], p1);
    FlatGrow([p0, p1], p2);
    assert [] + [p0] == [p0] && [p0] + [p1] == [p0, p1] && [p0, p1] + [p2] == [p0, p1, p2] && [] + p0 == p0;
    DictOfConcat(p0, p1);
    DictOfConcat(p0 + p1, p2);
  }

  lemma {:induction false} FlatPush(path: seq<seq<Pair>>, done: seq<Pair>, p: Pair)
    ensures Flat(path + [done + [p]]) == Flat(path + [done]) + [p]
    ensures DictOf(done).Keys <= DictOf(Flat(path + [done])).Keys
  {
    FlatGrow(path, done);
    FlatGrow(path, done + [p]);
    assert Flat(path) + (done + [p]) == (Flat(path) + done) + [p];
    DictOfConcat(Flat(path), done);
  }

  /** One more pair on top of `done`, where its keyword is new; popping it goes back. */
  lemma {:induction false} PushPlaced(keys: seq<Key>, full: Key, path: seq<seq<Pair>>, done: seq<Pair>, p: Pair)
    requires Placed(keys, full, path, done) && p.0 !in full.dict
    ensures Placed(keys[|path| := keys[|path|].Push(p.0, p.1)], full.Push(p.0, p.1), path, done + [p])
    ensures keys[|path|].Push(p.0, p.1).Pop(p.0) == keys[|path|]
    ensures full.Push(p.0, p.1).Pop(p.0) == full
    ensures full.Push(p.0, p.1).dict.Keys == full.dict.Keys + {p.0}
  {
    hide DictOf, Flat;
    FlatPush(path, done, p);
    KeyOfPush(done, p);
    KeyOfPush(Flat(path + [done]), p);
    DictOfKeys(done);
    PopUndoesPush(KeyOf(done), p.0, p.1);
    PopUndoesPush(full, p.0, p.1);
    assert Names(done + [p]) == Names(done) + [p.0];
    assert keys[|path| := KeyOf(done + [p])] == Levels(path, done + [p]);
  }

  lemma {:induction false} Descend(keys: seq<Key>, full: Key, path: seq<seq<Pair>>, done: seq<Pair>)
    requires Placed(keys, full, path, done) && |path| < 2
    ensures Placed(keys, full, path + [done], [])
  {
    FlatGrow(path + [done], []);
    assert Flat(path + [done]) + [] == Flat(path + [done]);
    assert Levels(path + [done], []) == Levels(path, done);
  }

  /** The keys at the start of `Schema::expandSecond`. */
  lemma {:induction false} DescendAfresh(ps: seq<Pair>)
    requires Distinct(Names(ps))
    ensures Placed([KeyOf(ps), KeyOf([]), KeyOf([])], KeyOf(ps), [ps], [])
  {
    FlatGrow([], ps);
    assert [] + [ps] == [ps] && [] + ps == ps;
    var keys := Levels([], ps);
    assert keys == [KeyOf(ps), KeyOf([]), KeyOf([])];
    Descend(keys, KeyOf(ps), [], ps);
  }

  lemma {:induction false} EmptyStart()
    ensures Placed(Levels([], []), KeyOf([]), [], [])
  {
    FlatGrow([], []);
  }

  lemma {:induction false} NonEmptyKey(ps: seq<Pair>)
    ensures ps != [] ==> DictOf(ps) != map[]
  {
    if ps != [] {
      assert ps[|ps| - 1].0 in DictOf(ps);
    }
  }

  /** Well-formedness of what is left of a rule at predicate `cur`. */
  predicate WellFormedFrom(rule: Rule, cur: nat, above: set<string>)
    requires cur <= |rule.predicates|
  {
    && (rule.rules != [] ==> rule.predicates != [])
    && Distinct(Keywords(rule.predicates[cur..]))
    && KeywordSet(rule.predicates[cur..]) !! above
    && forall r :: r in rule.rules ==> WellFormed(r, above + KeywordSet(rule.predicates[cur..]))
  }

  lemma {:induction false} WellFormedStart(rule: Rule, above: set<string>)
    requires WellFormed(rule, above)
    ensures WellFormedFrom(rule, 0, above)
  {
    assert rule.predicates[0..] == rule.predicates;
  }

  lemma {:induction false} WellFormedStep(rule: Rule, cur: nat, above: set<string>)
    requires cur < |rule.predicates| && WellFormedFrom(rule, cur, above)
    ensures rule.predicates[cur].keyword !in above
    ensures WellFormedFrom(rule, cur + 1, above + {rule.predicates[cur].keyword})
  {
    var ps := rule.predicates[cur..];
    var k := ps[0].keyword;
    var rest := rule.predicates[cur + 1..];
    assert Keywords(ps) == [k] + Keywords(rest);
    assert KeywordSet(ps) == {k} + KeywordSet(rest);
    assert above + KeywordSet(ps) == (above + {k}) + KeywordSet(rest);
    assert Keywords(ps)[0] == k;
    forall q | q in Keywords(rest)
      ensures q != k
    {
      var j :| 0 <= j < |rest| && Keywords(rest)[j] == q;
      assert Keywords(ps)[j + 1] == q;
    }
    forall i, j | 0 <= i < j < |rest|
      ensures Keywords(rest)[i] != Keywords(rest)[j]
    {
      assert Keywords(ps)[i + 1] != Keywords(ps)[j + 1];
    }
  }

  /** The schema of every database keeps the keywords of a path distinct below the
      key that leads to it. */
  ghost predicate SiteWellFormed(site: Site)
  {
    && (forall r :: r in site.master.rules ==> WellFormed(r, {}))
    && forall k, r, c :: r in site.schemaOf(k).rules && r.Match(k) && c in r.rules ==> WellFormed(c, k.Keys)
  }

  function PairsOf(dict: Dict, names: seq<string>): seq<Pair>
    requires forall n :: n in names ==> n in dict
  {
    seq(|names|, i requires 0 <= i < |names| => (names[i], dict[names[i]]))
  }

  lemma {:induction false} PairsOfKey(ps: seq<Pair>)
    requires Distinct(Names(ps))
    ensures forall n :: n in Names(ps) ==> n in DictOf(ps)
    ensures PairsOf(DictOf(ps), Names(ps)) == ps
  {
    DictOfKeys(ps);
    forall i | 0 <= i < |ps|
      ensures PairsOf(DictOf(ps), Names(ps))[i] == ps[i]
    {
      DictOfLookup(ps, i);
    }
  }

  lemma {:induction false} LastWellFormed(rule: Rule, above: set<string>)
    requires WellFormedFrom(rule, |rule.predicates|, above)
    ensures rule.rules != [] ==> rule.predicates != []
    ensures forall r :: r in rule.rules ==> WellFormed(r, above)
  {
    hide WellFormed;
    assert rule.predicates[|rule.predicates|..] == [];
    assert above + KeywordSet([]) == above;
  }
}
