/** An index in place: its axes grow with every key put, and its three searches loop over
    axes and values. */
module IndexSession {
  import opened Wrappers
  import opened Keys
  import opened Rules
  import opened Stores
  import opened ReadExpansion
  import opened AxisPruning

  class IndexBase {
    const key: Dict
    const toKey: ToKey
    var axes: map<string, set<string>>
    var entries: map<string, Data>

    constructor (key: Dict, toKey: ToKey)
      ensures this.key == key && this.toKey == toKey && Contents() == EMPTY_INDEX
    {
      this.key, this.toKey := key, toKey;
      axes, entries := map[], map[];
    }

    function Contents(): Index
      reads this
    {
      Index(axes, entries)
    }

    /** `IndexAxis::insert`: the loop over the keywords of the key. */
    method Insert(registry: Registry, k: Dict)
      modifies this`axes
      ensures axes == InsertAxes(old(axes), toKey, registry, k)
    {
      hide Canonical, InsertAxes;
      var todo := k.Keys;
      assert k - todo == map[];
      InsertNone(axes, registry);
      while todo != {}
        invariant todo <= k.Keys
        invariant axes == InsertAxes(old(axes), toKey, registry, k - todo)
        decreases |todo|
      {
        var keyword :| keyword in todo;
        var axis := if keyword in axes then axes[keyword] else {};
        ghost var before := k - todo;
        assert todo == (todo - {keyword}) + {keyword};
        axes := axes[keyword := axis + {Canonical(toKey, registry, (keyword, k[keyword]))}];
        todo := todo - {keyword};
        InsertOne(old(axes), registry, before, keyword, k[keyword]);
        OneMore(k, todo, keyword);
      }
      assert k - todo == k;
    }

    lemma {:induction false} InsertNone(axes: map<string, set<string>>, registry: Registry)
      ensures InsertAxes(axes, toKey, registry, map[]) == axes
    {
      var same := InsertAxes(axes, toKey, registry, map[]);
      assert same.Keys == axes.Keys;
      assert forall x :: x in same ==> same[x] == axes[x];
    }

    lemma {:induction false} OneMore(k: Dict, todo: set<string>, keyword: string)
      requires keyword in k && keyword !in todo
      ensures k - todo == (k - (todo + {keyword}))[keyword := k[keyword]]
    {
    }

    /** One more keyword inserted. */
    lemma {:induction false} InsertOne(before: map<string, set<string>>, registry: Registry, k: Dict, keyword: string, value: string)
      requires keyword !in k
      ensures var axes := InsertAxes(before, toKey, registry, k);
              InsertAxes(before, toKey, registry, k[keyword := value]) ==
              axes[keyword := (if keyword in axes then axes[keyword] else {}) + {Canonical(toKey, registry, (keyword, value))}]
    {
      hide Canonical;
      var axes := InsertAxes(before, toKey, registry, k);
      var left := InsertAxes(before, toKey, registry, k[keyword := value]);
      var right := axes[keyword := (if keyword in axes then axes[keyword] else {}) + {Canonical(toKey, registry, (keyword, value))}];
      assert left.Keys == right.Keys;
      forall x | x in left
        ensures left[x] == right[x]
      {
      }
    }

    /** `IndexBase::put`. */
    method Put(registry: Registry, ps: seq<Pair>, data: Data)
      modifies this
      ensures Contents() == PutIndex(old(Contents()), toKey, registry, ps, data)
    {
      hide InsertAxes, Fingerprint;
      Insert(registry, DictOf(ps));
      entries := entries[Fingerprint(toKey, registry, ps) := data];
    }

    /** `IndexBase::mayContain`: the loop over the axes. */
    method MayContain(registry: Registry, k: Dict) returns (r: bool)
      ensures r <==> Contains(axes, toKey, registry, k)
    {
      hide Canonical;
      var todo := axes.Keys;
      while todo != {}
        invariant todo <= axes.Keys
        invariant forall x :: x in axes && x !in todo ==>
          x in k && (k[x] in axes[x] || Canonical(toKey, registry, (x, k[x])) in axes[x])
        decreases |todo|
      {
        var x :| x in todo;
        if x !in k || (k[x] !in axes[x] && Canonical(toKey, registry, (x, k[x])) !in axes[x]) {
          return false;
        }
        todo := todo - {x};
      }
      r := true;
    }

    /** `Key::partialMatch` on the key of the index. */
    method KeyPartialMatch(request: Request) returns (r: bool)
      ensures r <==> KeyMatches(key, request)
    {
      var todo := key.Keys;
      while todo != {}
        invariant todo <= key.Keys
        invariant forall x :: x in key && x !in todo && x in request && request[x] != [] ==> key[x] in request[x]
        decreases |todo|
      {
        var x :| x in todo;
        var values := if x in request then request[x] else [];
        if values != [] && key[x] !in values {
          return false;
        }
        todo := todo - {x};
      }
      r := true;
    }

    /** `IndexAxis::partialMatch`: the loop over the axes, and in it over the values. */
    method AxesPartialMatch(request: Request) returns (r: bool)
      ensures r <==> AxisPruning.PartialMatch(axes, request)
    {
      var todo := axes.Keys;
      while todo != {}
        invariant todo <= axes.Keys
        invariant forall x :: x in axes && x !in todo && x in request ==> exists i :: 0 <= i < |request[x]| && request[x][i] in axes[x]
        decreases |todo|
      {
        var x :| x in todo;
        if x in request {
          var found, i := false, 0;
          while i < |request[x]| && !found
            invariant 0 <= i <= |request[x]|
            invariant found <==> exists j :: 0 <= j < i && request[x][j] in axes[x]
            decreases |request[x]| - i, !found
          {
            if request[x][i] in axes[x] {
              found := true;
            }
            i := i + 1;
          }
          if !found {
            return false;
          }
        }
        todo := todo - {x};
      }
      r := true;
    }

    /** `IndexBase::partialMatch`. */
    method PartialMatch(request: Request) returns (r: bool)
      ensures r <==> MayMatch(KeyedIndex(key, Contents()), request)
    {
      r := KeyPartialMatch(request);
      if r {
        r := AxesPartialMatch(request);
      }
    }
  }
}
