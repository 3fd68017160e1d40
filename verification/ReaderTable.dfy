/** The bounded table of open databases holds those that were selected most recently. */
module ReaderTable {
  import opened Wrappers
  import opened Keys
  import opened Stores
  import opened ReadExpansion

  /** The keys of some selections, each once, the one selected last first. */
  function Recent(keys: seq<Dict>): seq<Dict>
  {
    if keys == [] then [] else [keys[|keys| - 1]] + Without(Recent(keys[..|keys| - 1]), keys[|keys| - 1])
  }

  /** The selections of databases that exist. */
  function Existing(store: Store, keys: seq<Dict>): seq<Dict>
  {
    if keys == [] then []
    else Existing(store, keys[..|keys| - 1]) + if keys[|keys| - 1] in store then [keys[|keys| - 1]] else []
  }

  /** Selections one after the other; one that is refused changes nothing. */
  function Selections(w: World, keys: seq<Dict>): Reader
  {
    if keys == [] then Fresh(Opened([], map[]))
    else
      var s := Selections(w, keys[..|keys| - 1]);
      match SelectDatabase(w, s, keys[|keys| - 1])
      case None => s
      case Some(t) => t
  }

  predicate Once(keys: seq<Dict>)
  {
    forall i, j :: 0 <= i < j < |keys| ==> keys[i] != keys[j]
  }

  /** Room for `n` entries; zero stands for no bound. */
  function Upto(n: nat, keys: seq<Dict>): seq<Dict>
  {
    if n == 0 || |keys| <= n then keys else keys[..n]
  }

  lemma {:induction false} WithoutConcat(a: seq<Dict>, b: seq<Dict>, k: Dict)
    ensures Without(a + b, k) == Without(a, k) + Without(b, k)
  {
    if a == [] {
      assert a + b == b;
    } else {
      assert (a + b)[1..] == a[1..] + b;
      WithoutConcat(a[1..], b, k);
    }
  }

  lemma {:induction false} WithoutAbsent(a: seq<Dict>, k: Dict)
    requires k !in a
    ensures Without(a, k) == a
  {
    if a != [] {
      WithoutAbsent(a[1..], k);
    }
  }

  lemma {:induction false} WithoutPresent(a: seq<Dict>, k: Dict)
    requires k in a && Once(a)
    ensures |Without(a, k)| == |a| - 1
  {
    if a[0] == k {
      WithoutAbsent(a[1..], k);
    } else {
      WithoutPresent(a[1..], k);
    }
  }

  lemma {:induction false} WithoutOnce(a: seq<Dict>, k: Dict)
    requires Once(a)
    ensures Once([k] + Without(a, k)) && forall x :: x in Without(a, k) <==> x in a && x != k
  {
    if a != [] {
      WithoutOnce(a[1..], k);
      var rest := Without(a[1..], k);
      assert a[0] !in a[1..] && a[0] !in rest;
      assert Once(rest) by {
        assert forall i :: 0 <= i < |rest| ==> ([k] + rest)[i + 1] == rest[i];
      }
      assert k !in rest;
    }
  }

  /** One more selection, on the recency list and on the table. */
  lemma {:induction false} TableStep(n: nat, recent: seq<Dict>, k: Dict)
    requires Once(recent)
    ensures var open := Upto(n, recent);
            Upto(n, [k] + Without(recent, k)) == [k] + if k in open then Without(open, k) else Staying(open, n)
  {
    hide Without;
    var open := Upto(n, recent);
    var rest := recent[|open|..];
    assert recent == open + rest;
    WithoutConcat(open, rest, k);
    if k in open {
      WithoutPresent(open, k);
      var i :| 0 <= i < |open| && open[i] == k;
      assert recent[i] == k;
      assert k !in rest by {
        assert forall j :: 0 <= j < |rest| ==> rest[j] == recent[|open| + j];
      }
      WithoutAbsent(rest, k);
      var more := [k] + Without(open, k);
      assert [k] + (Without(open, k) + rest) == more + rest && |more| == |open|;
    } else {
      WithoutAbsent(open, k);
      assert Without(recent, k) == open + Without(rest, k);
      if n == 0 || |open| < n {
        assert rest == [];
        WithoutAbsent(rest, k);
      } else {
        assert ([k] + (open + Without(rest, k)))[..n] == [k] + open[..n - 1];
      }
    }
  }

  lemma {:induction false} RecentOnce(keys: seq<Dict>)
    ensures Once(Recent(keys)) && (keys != [] ==> Recent(keys)[0] == keys[|keys| - 1])
  {
    if keys != [] {
      RecentOnce(keys[..|keys| - 1]);
      WithoutOnce(Recent(keys[..|keys| - 1]), keys[|keys| - 1]);
    }
  }

  /** The front of the list selected again changes nothing. */
  lemma {:induction false} Again(keys: seq<Dict>, k: Dict)
    requires keys != [] && keys[|keys| - 1] == k
    ensures Recent(keys + [k]) == Recent(keys)
  {
    RecentOnce(keys);
    var recent := Recent(keys);
    assert (keys + [k])[..|keys|] == keys;
    assert recent == [k] + recent[1..];
    assert k !in recent[1..];
    WithoutAbsent(recent[1..], k);
  }

  /** What the table is after the selections of some databases that exist. */
  predicate Holds(w: World, s: Reader, existing: seq<Dict>)
  {
    && s.open == Upto(w.readers, Recent(existing))
    && s.db == (if existing == [] then None else Some(existing[|existing| - 1]))
  }

  lemma {:induction false} SelectKeeps(w: World, s: Reader, existing: seq<Dict>, k: Dict)
    requires Holds(w, s, existing) && forall x :: x in existing ==> x in w.store
    ensures match SelectDatabase(w, s, k)
            case None => k !in w.store
            case Some(t) => k in w.store && Holds(w, t, existing + [k])
  {
    var recent, longer := Recent(existing), existing + [k];
    RecentOnce(existing);
    RecentFrom(existing);
    assert longer[..|existing|] == existing && longer[|existing|] == k;
    TableStep(w.readers, recent, k);
    if s.db == Some(k) {
      Again(existing, k);
    }
    assert k in s.open ==> k in recent;
  }

  lemma {:induction false} RecentFrom(keys: seq<Dict>)
    ensures forall k :: k in Recent(keys) ==> k in keys
  {
    if keys != [] {
      var init, last := keys[..|keys| - 1], keys[|keys| - 1];
      RecentFrom(init);
      RecentOnce(init);
      WithoutOnce(Recent(init), last);
      assert last in keys && forall k :: k in init ==> k in keys;
    }
  }

  lemma {:induction false} ExistingExist(store: Store, keys: seq<Dict>)
    ensures forall k :: k in Existing(store, keys) ==> k in store
  {
    if keys != [] {
      ExistingExist(store, keys[..|keys| - 1]);
    }
  }

  /** After any selections the open databases are the ones that were selected most recently,
      as many as the table has room for, in that order; and the current database is the one
      selected last of those that exist. */
  lemma {:induction false} OpenAreRecent(w: World, keys: seq<Dict>)
    ensures var s, existing := Selections(w, keys), Existing(w.store, keys);
            && s.open == Upto(w.readers, Recent(existing))
            && s.db == if existing == [] then None else Some(existing[|existing| - 1])
  {
    hide SelectDatabase;
    if keys == [] {
      assert Recent([]) == [];
    } else {
      hide Recent;
      var init, k := keys[..|keys| - 1], keys[|keys| - 1];
      OpenAreRecent(w, init);
      ExistingExist(w.store, init);
      SelectKeeps(w, Selections(w, init), Existing(w.store, init), k);
      assert Existing(w.store, init) + [] == Existing(w.store, init);
    }
  }
}
