/** The `Key` of the database: a dictionary of metadata together with the order
    in which its keywords were pushed.  Equality of keys only looks at the
    dictionary (`Key::operator==`), the fingerprint also looks at the order. */
module Keys {

  type Dict = map<string, string>

  /** One keyword with its value, in push order. */
  type Pair = (string, string)

  /** The dictionary that pushing `ps` from left to right leaves behind. */
  function DictOf(ps: seq<Pair>): Dict
  {
    if ps == [] then map[] else DictOf(ps[..|ps| - 1])[ps[|ps| - 1].0 := ps[|ps| - 1].1]
  }

  function Names(ps: seq<Pair>): (names: seq<string>)
    ensures |names| == |ps|
    ensures forall i :: 0 <= i < |ps| ==> names[i] == ps[i].0
  {
    seq(|ps|, i requires 0 <= i < |ps| => ps[i].0)
  }

  predicate Distinct(names: seq<string>)
  {
    forall i, j :: 0 <= i < j < |names| ==> names[i] != names[j]
  }

  /** The dictionary has exactly the pushed keywords. */
  lemma {:induction false} DictOfKeys(ps: seq<Pair>)
    ensures DictOf(ps).Keys == set n | n in Names(ps)
  {
    if ps != [] {
      var init := ps[..|ps| - 1];
      DictOfKeys(init);
      assert Names(ps) == Names(init) + [ps[|ps| - 1].0];
    }
  }

  /** With distinct keywords nothing is overwritten: every pushed pair is found again. */
  lemma {:induction false} DictOfLookup(ps: seq<Pair>, i: nat)
    requires Distinct(Names(ps)) && i < |ps|
    ensures ps[i].0 in DictOf(ps) && DictOf(ps)[ps[i].0] == ps[i].1
  {
    var init := ps[..|ps| - 1];
    if i < |init| {
      assert Names(init) == Names(ps)[..|init|];
      DictOfLookup(init, i);
      assert Names(ps)[i] != Names(ps)[|init|];
    }
  }

  /** Two keys pushed one after the other give the union of their dictionaries. */
  lemma {:induction false} DictOfConcat(ps: seq<Pair>, qs: seq<Pair>)
    ensures DictOf(ps + qs) == DictOf(ps) + DictOf(qs)
  {
    if qs == [] {
      assert ps + qs == ps;
    } else {
      var init := qs[..|qs| - 1];
      assert (ps + qs)[..|ps + qs| - 1] == ps + init;
      DictOfConcat(ps, init);
    }
  }

  /** A key: its dictionary and the order in which its keywords were pushed. */
  datatype Key = Key(dict: Dict, names: seq<string>)
  {
    function Push(k: string, v: string): Key
    {
      Key(dict[k := v], names + [k])
    }

    /** The source asserts that the popped keyword is the last one pushed. */
    function Pop(k: string): Key
      requires names != [] && names[|names| - 1] == k
    {
      Key(dict - {k}, names[..|names| - 1])
    }
  }

  function KeyOf(ps: seq<Pair>): Key
  {
    Key(DictOf(ps), Names(ps))
  }

  /** A pop undoes a push exactly when the keyword was not already there. */
  lemma {:induction false} PopUndoesPush(key: Key, k: string, v: string)
    ensures key.Push(k, v).Pop(k) == key <==> k !in key.dict
  {
    assert key.Push(k, v).Pop(k).names == key.names;
    if k !in key.dict {
      assert key.dict[k := v] - {k} == key.dict;
    }
  }

  lemma {:induction false} KeyOfPush(ps: seq<Pair>, p: Pair)
    ensures KeyOf(ps + [p]) == KeyOf(ps).Push(p.0, p.1)
  {
    assert (ps + [p])[..|ps|] == ps;
  }
}
