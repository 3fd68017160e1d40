/** Visiting the tree: every data node ever inserted is reported once, masked or not,
    newest first within its parent, and the stack of keys is handed back as it was. */
module PMemVisit {
  import opened Wrappers
  import opened Keys
  import opened PMemTree

  /** What the visitor sees: an index with its key, and a datum of an index with the pairs
      on its path below the index. */
  datatype Event = IndexVisited(node: nat, key: seq<Pair>) | DatumVisited(index: nat, key: seq<Pair>, data: nat)

  /** The sub-nodes of one kind, newest first. */
  function NewestFirst(m: Memory, nodes: seq<nat>, branches: bool): (r: seq<nat>)
    requires Within(m, nodes)
    ensures Within(m, r) && |r| <= |nodes|
    ensures forall c :: c in r <==> c in nodes && c < |m| && m[c].Branching? == branches
    decreases |nodes|
  {
    if nodes == [] then []
    else
      var c := nodes[|nodes| - 1];
      (if m[c].Branching? == branches then [c] else []) + NewestFirst(m, nodes[..|nodes| - 1], branches)
  }

  function DatumEvents(m: Memory, leaves: seq<nat>, key: seq<Pair>, index: nat): seq<Event>
    requires Within(m, leaves)
  {
    seq(|leaves|, i requires 0 <= i < |leaves| => DatumVisited(index, key + [m[leaves[i]].kv], leaves[i]))
  }

  /** A node with an empty key and value, such as the root, is no part of any key. */
  predicate Named(kv: Pair)
  {
    kv != ("", "")
  }

  ghost predicate Subtrees(m: Memory, dir: Directory, p: Identifier, subtrees: seq<nat>)
    requires Valid(m, dir) && p in dir
  {
    forall c :: c in subtrees ==> c in m[dir[p]].nodes && c < |m| && m[c].Branching?
  }

  lemma {:induction false} FirstSubtree(m: Memory, dir: Directory, p: Identifier, subtrees: seq<nat>)
    requires Valid(m, dir) && p in dir && Subtrees(m, dir, p, subtrees) && subtrees != []
    ensures subtrees[0] < |m|
    ensures var q := p + [m[subtrees[0]].kv]; q in dir && dir[q] == subtrees[0] && dir[p] < dir[q] < |m|
    ensures Subtrees(m, dir, p, subtrees[1..])
  {
    assert subtrees[0] in subtrees && Lists(m, dir, p);
  }

  /** `visitLeaves` of the branch at a path: nothing where its assertion fails, that
      data are visited below an index only. */
  ghost function Visit(m: Memory, dir: Directory, p: Identifier, key: seq<Pair>, index: Option<nat>, entries: bool): Option<seq<Event>>
    requires Valid(m, dir) && p in dir
    decreases |m| - dir[p], 1, 0
  {
    var node := m[dir[p]];
    var key' := if Named(node.kv) then key + [node.kv] else key;
    if Named(node.kv) && node.index then
      if !entries then Some([IndexVisited(dir[p], key')])
      else match VisitBelow(m, dir, p, [], Some(dir[p]), entries)
        case None => None
        case Some(es) => Some([IndexVisited(dir[p], key')] + es)
    else VisitBelow(m, dir, p, key', index, entries)
  }

  /** The leaves of a branch, then its subtrees. */
  ghost function VisitBelow(m: Memory, dir: Directory, p: Identifier, key: seq<Pair>, index: Option<nat>, entries: bool): Option<seq<Event>>
    requires Valid(m, dir) && p in dir
    decreases |m| - dir[p], 0, |m[dir[p]].nodes| + 1
  {
    var leaves, subtrees := NewestFirst(m, m[dir[p]].nodes, false), NewestFirst(m, m[dir[p]].nodes, true);
    if leaves != [] && index.None? then None
    else match VisitTrees(m, dir, p, subtrees, key, index, entries)
      case None => None
      case Some(es) => Some((if leaves == [] then [] else DatumEvents(m, leaves, key, index.value)) + es)
  }

  ghost function VisitTrees(m: Memory, dir: Directory, p: Identifier, subtrees: seq<nat>, key: seq<Pair>, index: Option<nat>, entries: bool): Option<seq<Event>>
    requires Valid(m, dir) && p in dir && Subtrees(m, dir, p, subtrees)
    decreases |m| - dir[p], 0, |subtrees|
  {
    if subtrees == [] then Some([])
    else
      FirstSubtree(m, dir, p, subtrees);
      var q := p + [m[subtrees[0]].kv];
      match Visit(m, dir, q, key, index, entries)
      case None => None
      case Some(es) =>
        match VisitTrees(m, dir, p, subtrees[1..], key, index, entries)
        case None => None
        case Some(more) => Some(es + more)
  }

  // ----- When a visit throws -----

  /** A branch that a visit takes as an index: its own key and value are not both empty. */
  predicate Marked(m: Memory, dir: Directory, p: Identifier)
    requires Valid(m, dir) && p in dir
  {
    Named(m[dir[p]].kv) && m[dir[p]].index
  }

  ghost predicate Bare(m: Memory, dir: Directory, p: Identifier, q: Identifier)
    requires Valid(m, dir)
  {
    && q in dir && p <= q && (exists c: nat :: HasDatum(m, dir[q], c))
    && forall r :: r in dir && p <= r <= q ==> !Marked(m, dir, r)
  }

  /** Some data hang at or below a path with no index at or below it on the way. */
  ghost predicate BareData(m: Memory, dir: Directory, p: Identifier)
    requires Valid(m, dir)
  {
    exists q :: Bare(m, dir, p, q)
  }

  ghost predicate BareIn(m: Memory, dir: Directory, p: Identifier, subtrees: seq<nat>)
    requires Valid(m, dir) && p in dir && Subtrees(m, dir, p, subtrees)
  {
    exists c :: c in subtrees && BareData(m, dir, p + [m[c].kv])
  }

  /** A visit fails exactly where it meets data below no index. */
  lemma {:induction false} VisitThrows(m: Memory, dir: Directory, p: Identifier, key: seq<Pair>, index: Option<nat>, entries: bool)
    requires Valid(m, dir) && p in dir
    ensures Visit(m, dir, p, key, index, entries).None? <==> index.None? && BareData(m, dir, p)
    decreases |m| - dir[p], 1, 0
  {
    hide Ordered, Injective, VisitBelow;
    var node := m[dir[p]];
    var key' := if Named(node.kv) then key + [node.kv] else key;
    if Marked(m, dir, p) {
      forall q
        ensures !Bare(m, dir, p, q)
      {
        assert p <= p;
      }
      if entries {
        VisitBelowThrows(m, dir, p, [], Some(dir[p]), entries);
      }
    } else {
      VisitBelowThrows(m, dir, p, key', index, entries);
    }
  }

  lemma {:induction false} VisitBelowThrows(m: Memory, dir: Directory, p: Identifier, key: seq<Pair>, index: Option<nat>, entries: bool)
    requires Valid(m, dir) && p in dir
    requires index.None? ==> !Marked(m, dir, p)
    ensures VisitBelow(m, dir, p, key, index, entries).None? <==> index.None? && BareData(m, dir, p)
    decreases |m| - dir[p], 0, |m[dir[p]].nodes| + 1
  {
    hide Ordered, Injective, VisitTrees, BareIn, BareData, DatumEvents, Visit, NewestFirst;
    var subtrees := NewestFirst(m, m[dir[p]].nodes, true);
    VisitTreesThrows(m, dir, p, subtrees, key, index, entries);
    if index.None? {
      BareSplits(m, dir, p);
    }
  }

  lemma {:induction false} VisitTreesThrows(m: Memory, dir: Directory, p: Identifier, subtrees: seq<nat>, key: seq<Pair>, index: Option<nat>, entries: bool)
    requires Valid(m, dir) && p in dir && Subtrees(m, dir, p, subtrees)
    ensures VisitTrees(m, dir, p, subtrees, key, index, entries).None? <==> index.None? && BareIn(m, dir, p, subtrees)
    decreases |m| - dir[p], 0, |subtrees|
  {
    hide Ordered, Injective, Visit, BareData;
    if subtrees != [] {
      FirstSubtree(m, dir, p, subtrees);
      VisitThrows(m, dir, p + [m[subtrees[0]].kv], key, index, entries);
      VisitTreesThrows(m, dir, p, subtrees[1..], key, index, entries);
    }
  }

  lemma {:induction false} BareHere(m: Memory, dir: Directory, p: Identifier, c: nat)
    requires Valid(m, dir) && p in dir && !Marked(m, dir, p) && HasDatum(m, dir[p], c)
    ensures BareData(m, dir, p)
  {
    hide Valid, Marked, HasDatum;
    forall r: Identifier | r in dir && p <= r <= p
      ensures !Marked(m, dir, r)
    {
      assert r == p;
    }
    assert Bare(m, dir, p, p);
  }

  lemma {:induction false} BareUp(m: Memory, dir: Directory, p: Identifier, kv: Pair)
    requires Valid(m, dir) && p in dir && !Marked(m, dir, p) && BareData(m, dir, p + [kv])
    ensures BareData(m, dir, p)
  {
    hide Valid, Marked, HasDatum;
    var q :| Bare(m, dir, p + [kv], q);
    assert p <= p + [kv] <= q;
    forall r | r in dir && p <= r <= q
      ensures !Marked(m, dir, r)
    {
      if r != p {
        NextStep(p, kv, r, q);
      }
    }
    assert Bare(m, dir, p, q);
  }

  lemma {:induction false} BareDown(m: Memory, dir: Directory, p: Identifier, q: Identifier)
    requires Valid(m, dir) && p in dir && Bare(m, dir, p, q) && p != q
    ensures var child := p + [q[|p|]];
            && child in dir && BareData(m, dir, child) && m[dir[child]].Branching?
            && dir[child] in m[dir[p]].nodes && m[dir[child]].kv == q[|p|]
  {
    hide Ordered, Injective, Marked, HasDatum;
    var child := p + [q[|p|]];
    assert child <= q && child[..|child| - 1] == p;
    Prefixes(m, dir, child, q);
    HangsAt(m, dir, child);
    assert Bare(m, dir, child, q);
  }

  /** Bare data below a branch that is no index are its own, or below one of its subtrees. */
  lemma {:induction false} BareSplits(m: Memory, dir: Directory, p: Identifier)
    requires Valid(m, dir) && p in dir && !Marked(m, dir, p)
    ensures var nodes := m[dir[p]].nodes;
            BareData(m, dir, p) <==> NewestFirst(m, nodes, false) != [] || BareIn(m, dir, p, NewestFirst(m, nodes, true))
  {
    hide Ordered, Injective, Marked, NewestFirst;
    var leaves, subtrees := NewestFirst(m, m[dir[p]].nodes, false), NewestFirst(m, m[dir[p]].nodes, true);
    if leaves != [] {
      assert leaves[0] in leaves;
      BareHere(m, dir, p, leaves[0]);
    }
    if BareIn(m, dir, p, subtrees) {
      var c :| c in subtrees && BareData(m, dir, p + [m[c].kv]);
      BareUp(m, dir, p, m[c].kv);
    }
    if BareData(m, dir, p) {
      var q :| Bare(m, dir, p, q);
      var c: nat :| HasDatum(m, dir[q], c);
      if q == p {
        assert c in leaves;
      } else {
        BareDown(m, dir, p, q);
        assert dir[p + [q[|p|]]] in subtrees;
      }
    }
  }

  /** What is on the way from a path to one below its sub-branch is at or below that. */
  lemma {:induction false} NextStep(p: Identifier, kv: Pair, r: Identifier, q: Identifier)
    requires p <= r <= q && r != p && p + [kv] <= q
    ensures p + [kv] <= r
  {
    assert r[|p|] == q[|p|] == (p + [kv])[|p|];
    assert r[..|p| + 1] == p + [kv];
  }

  // ----- Every data node once -----

  /** The data nodes below a path, each as often as it is there. */
  ghost function DataBelow(m: Memory, dir: Directory, p: Identifier): multiset<nat>
    requires Valid(m, dir) && p in dir
    decreases |m| - dir[p], |m[dir[p]].nodes| + 1
  {
    multiset(NewestFirst(m, m[dir[p]].nodes, false)) + DataInTrees(m, dir, p, NewestFirst(m, m[dir[p]].nodes, true))
  }

  ghost function DataInTrees(m: Memory, dir: Directory, p: Identifier, subtrees: seq<nat>): multiset<nat>
    requires Valid(m, dir) && p in dir && Subtrees(m, dir, p, subtrees)
    decreases |m| - dir[p], |subtrees|
  {
    if subtrees == [] then multiset{}
    else
      FirstSubtree(m, dir, p, subtrees);
      DataBelow(m, dir, p + [m[subtrees[0]].kv]) + DataInTrees(m, dir, p, subtrees[1..])
  }

  /** The data nodes that some events report. */
  function Reported(es: seq<Event>): multiset<nat>
  {
    if es == [] then multiset{}
    else (if es[0].DatumVisited? then multiset{es[0].data} else multiset{}) + Reported(es[1..])
  }

  lemma {:induction false} ReportedConcat(a: seq<Event>, b: seq<Event>)
    ensures Reported(a + b) == Reported(a) + Reported(b)
  {
    if a == [] {
      assert a + b == b;
    } else {
      assert (a + b)[1..] == a[1..] + b;
      ReportedConcat(a[1..], b);
    }
  }

  lemma {:induction false} ReportedLeaves(m: Memory, leaves: seq<nat>, key: seq<Pair>, index: nat)
    requires Within(m, leaves)
    ensures Reported(DatumEvents(m, leaves, key, index)) == multiset(leaves)
  {
    var es := DatumEvents(m, leaves, key, index);
    if leaves != [] {
      assert es[1..] == DatumEvents(m, leaves[1..], key, index);
      ReportedLeaves(m, leaves[1..], key, index);
      assert leaves == [leaves[0]] + leaves[1..];
    }
  }

  /** A visit right to the entries reports the data nodes below the path, masked or not,
      each exactly as often as it is there. */
  lemma {:induction false} VisitReports(m: Memory, dir: Directory, p: Identifier, key: seq<Pair>, index: Option<nat>)
    requires Valid(m, dir) && p in dir && Visit(m, dir, p, key, index, true).Some?
    ensures Reported(Visit(m, dir, p, key, index, true).value) == DataBelow(m, dir, p)
    decreases |m| - dir[p], 1, 0
  {
    hide Ordered, Injective, VisitBelow, DataBelow;
    var node := m[dir[p]];
    var key' := if Named(node.kv) then key + [node.kv] else key;
    if Named(node.kv) && node.index {
      VisitBelowReports(m, dir, p, [], Some(dir[p]));
      ReportedConcat([IndexVisited(dir[p], key')], VisitBelow(m, dir, p, [], Some(dir[p]), true).value);
    } else {
      VisitBelowReports(m, dir, p, key', index);
    }
  }

  lemma {:induction false} VisitBelowReports(m: Memory, dir: Directory, p: Identifier, key: seq<Pair>, index: Option<nat>)
    requires Valid(m, dir) && p in dir && VisitBelow(m, dir, p, key, index, true).Some?
    ensures Reported(VisitBelow(m, dir, p, key, index, true).value) == DataBelow(m, dir, p)
    decreases |m| - dir[p], 0, |m[dir[p]].nodes| + 1
  {
    hide Ordered, Injective, DatumEvents, VisitTrees, DataInTrees;
    var leaves, subtrees := NewestFirst(m, m[dir[p]].nodes, false), NewestFirst(m, m[dir[p]].nodes, true);
    VisitTreesReports(m, dir, p, subtrees, key, index);
    var first := if leaves == [] then [] else DatumEvents(m, leaves, key, index.value);
    ReportedConcat(first, VisitTrees(m, dir, p, subtrees, key, index, true).value);
    if leaves != [] {
      ReportedLeaves(m, leaves, key, index.value);
    }
  }

  lemma {:induction false} VisitTreesReports(m: Memory, dir: Directory, p: Identifier, subtrees: seq<nat>, key: seq<Pair>, index: Option<nat>)
    requires Valid(m, dir) && p in dir && Subtrees(m, dir, p, subtrees)
    requires VisitTrees(m, dir, p, subtrees, key, index, true).Some?
    ensures Reported(VisitTrees(m, dir, p, subtrees, key, index, true).value) == DataInTrees(m, dir, p, subtrees)
    decreases |m| - dir[p], 0, |subtrees|
  {
    hide Ordered, Injective, Visit, DataBelow;
    if subtrees != [] {
      FirstSubtree(m, dir, p, subtrees);
      var q := p + [m[subtrees[0]].kv];
      VisitReports(m, dir, q, key, index);
      VisitTreesReports(m, dir, p, subtrees[1..], key, index);
      ReportedConcat(Visit(m, dir, q, key, index, true).value, VisitTrees(m, dir, p, subtrees[1..], key, index, true).value);
    }
  }

  // ----- What a visited datum is called -----

  /** Only the root has no name. */
  predicate AllNamed(m: Memory, dir: Directory)
    requires Valid(m, dir)
  {
    forall p :: p in dir ==> (Named(m[dir[p]].kv) <==> p != [])
  }

  /** The last index on the way to a path, itself included, is the branch at `ip`. */
  predicate Nearest(m: Memory, dir: Directory, ip: Identifier, q: Identifier)
    requires Valid(m, dir)
  {
    && ip in dir && ip <= q && Marked(m, dir, ip)
    && forall r :: r in dir && ip < r <= q ==> !Marked(m, dir, r)
  }

  predicate NoIndex(m: Memory, dir: Directory, q: Identifier)
    requires Valid(m, dir)
  {
    forall r :: r in dir && r <= q ==> !Marked(m, dir, r)
  }

  /** The datum of an event hangs below the branch at `q`, its index is the last on the way
      there, and its key is the rest of the way and its own pair. */
  predicate Placed(m: Memory, dir: Directory, q: Identifier, ip: Identifier, e: Event)
    requires Valid(m, dir)
  {
    && e.DatumVisited? && q in dir && Nearest(m, dir, ip, q) && dir[ip] == e.index
    && HasDatum(m, dir[q], e.data)
    && e.key == q[|ip|..] + [m[e.data].kv]
  }

  ghost predicate AllPlaced(m: Memory, dir: Directory, p: Identifier, es: seq<Event>)
    requires Valid(m, dir)
  {
    forall e :: e in es && e.DatumVisited? ==> exists q, ip :: p <= q && Placed(m, dir, q, ip, e)
  }

  /** The index at a path or above it, at `ip`, and the pairs since. */
  predicate Since(m: Memory, dir: Directory, p: Identifier, key: seq<Pair>, index: Option<nat>, ip: Identifier)
    requires Valid(m, dir)
  {
    if index.None? then NoIndex(m, dir, p) && key == p
    else Nearest(m, dir, ip, p) && dir[ip] == index.value && key == p[|ip|..]
  }

  /** The same for the branch above a path. */
  predicate Above(m: Memory, dir: Directory, p: Identifier, key: seq<Pair>, index: Option<nat>, ip: Identifier)
    requires Valid(m, dir)
  {
    if p == [] then index.None? && key == []
    else Since(m, dir, p[..|p| - 1], key, index, ip)
  }

  /** Past a branch that is no index, the same index is the last on the way. */
  lemma {:induction false} StillNearest(m: Memory, dir: Directory, p: Identifier, ip: Identifier)
    requires Valid(m, dir) && p in dir && p != [] && !Marked(m, dir, p)
    ensures Nearest(m, dir, ip, p[..|p| - 1]) ==> Nearest(m, dir, ip, p)
    ensures NoIndex(m, dir, p[..|p| - 1]) ==> NoIndex(m, dir, p)
  {
    hide Ordered, Injective, Marked;
    forall r | r in dir && r <= p
      ensures r == p || r <= p[..|p| - 1]
    {
    }
  }

  lemma {:induction false} AtIndex(m: Memory, dir: Directory, p: Identifier)
    requires Valid(m, dir) && p in dir && Marked(m, dir, p)
    ensures Nearest(m, dir, p, p) && p[|p|..] == []
  {
  }

  lemma {:induction false} KeyGrows(m: Memory, dir: Directory, p: Identifier, key: seq<Pair>, index: Option<nat>, ip: Identifier)
    requires Valid(m, dir) && p in dir && p != [] && Above(m, dir, p, key, index, ip)
    ensures key + [m[dir[p]].kv] == if index.None? then p else p[|ip|..]
  {
    hide Ordered, Injective;
    LastPair(m, dir, p);
    Extended(p, if index.None? then 0 else |ip|);
    assert p[..|p| - 1] == p[0..|p| - 1] && p[0..] == p;
  }

  lemma {:induction false} LastPair(m: Memory, dir: Directory, p: Identifier)
    requires Valid(m, dir) && p in dir && p != []
    ensures m[dir[p]].kv == p[|p| - 1]
  {
    assert Hangs(m, dir, p);
  }

  lemma {:induction false} Extended(p: Identifier, n: nat)
    requires n < |p|
    ensures p[n..|p| - 1] + [p[|p| - 1]] == p[n..]
  {
  }

  lemma {:induction false} Rejoined(ip: Identifier, q: Identifier, kv: Pair)
    requires ip <= q
    ensures ip + (q[|ip|..] + [kv]) == q + [kv]
  {
  }

  lemma {:induction false} VisitPlaces(m: Memory, dir: Directory, p: Identifier, key: seq<Pair>, index: Option<nat>, ip: Identifier, entries: bool)
    requires Valid(m, dir) && AllNamed(m, dir) && p in dir && Above(m, dir, p, key, index, ip)
    requires Visit(m, dir, p, key, index, entries).Some?
    ensures AllPlaced(m, dir, p, Visit(m, dir, p, key, index, entries).value)
    decreases |m| - dir[p], 1, 0
  {
    hide Ordered, Injective, VisitBelow, Placed;
    var kv := m[dir[p]].kv;
    var key' := if Named(kv) then key + [kv] else key;
    if p != [] {
      KeyGrows(m, dir, p, key, index, ip);
    }
    if Marked(m, dir, p) {
      if entries {
        AtIndex(m, dir, p);
        VisitBelowPlaces(m, dir, p, [], Some(dir[p]), p, entries);
      }
    } else {
      if p != [] {
        StillNearest(m, dir, p, ip);
      }
      VisitBelowPlaces(m, dir, p, key', index, ip, entries);
    }
  }

  lemma {:induction false} VisitBelowPlaces(m: Memory, dir: Directory, p: Identifier, key: seq<Pair>, index: Option<nat>, ip: Identifier, entries: bool)
    requires Valid(m, dir) && AllNamed(m, dir) && p in dir
    requires Since(m, dir, p, key, index, ip)
    requires VisitBelow(m, dir, p, key, index, entries).Some?
    ensures AllPlaced(m, dir, p, VisitBelow(m, dir, p, key, index, entries).value)
    decreases |m| - dir[p], 0, |m[dir[p]].nodes| + 1
  {
    hide Ordered, Injective, VisitTrees, AllNamed, Placed, NewestFirst, DatumEvents;
    var leaves, subtrees := NewestFirst(m, m[dir[p]].nodes, false), NewestFirst(m, m[dir[p]].nodes, true);
    VisitTreesPlaces(m, dir, p, subtrees, key, index, ip, entries);
    if leaves != [] {
      LeavesPlaced(m, dir, p, leaves, key, index.value, ip);
      assert p <= p;
    }
  }

  lemma {:induction false} LeavesPlaced(m: Memory, dir: Directory, p: Identifier, leaves: seq<nat>, key: seq<Pair>, index: nat, ip: Identifier)
    requires Valid(m, dir) && p in dir && Within(m, leaves)
    requires forall c :: c in leaves ==> c in m[dir[p]].nodes && m[c].DataNode?
    requires Since(m, dir, p, key, Some(index), ip)
    ensures forall e :: e in DatumEvents(m, leaves, key, index) ==> Placed(m, dir, p, ip, e)
  {
    hide Ordered, Injective;
    var es := DatumEvents(m, leaves, key, index);
    forall e | e in es
      ensures Placed(m, dir, p, ip, e)
    {
      var i :| 0 <= i < |leaves| && es[i] == e;
      assert leaves[i] in leaves;
    }
  }

  lemma {:induction false} VisitTreesPlaces(m: Memory, dir: Directory, p: Identifier, subtrees: seq<nat>, key: seq<Pair>, index: Option<nat>, ip: Identifier, entries: bool)
    requires Valid(m, dir) && AllNamed(m, dir) && p in dir && Subtrees(m, dir, p, subtrees)
    requires Since(m, dir, p, key, index, ip)
    requires VisitTrees(m, dir, p, subtrees, key, index, entries).Some?
    ensures AllPlaced(m, dir, p, VisitTrees(m, dir, p, subtrees, key, index, entries).value)
    decreases |m| - dir[p], 0, |subtrees|
  {
    hide Ordered, Injective, Visit, Placed, AllNamed;
    if subtrees != [] {
      FirstSubtree(m, dir, p, subtrees);
      var q := p + [m[subtrees[0]].kv];
      assert q[..|q| - 1] == p;
      VisitPlaces(m, dir, q, key, index, ip, entries);
      VisitTreesPlaces(m, dir, p, subtrees[1..], key, index, ip, entries);
      var es, more := Visit(m, dir, q, key, index, entries).value, VisitTrees(m, dir, p, subtrees[1..], key, index, entries).value;
      forall e: Event | e in es + more && e.DatumVisited?
        ensures exists r, i :: p <= r && Placed(m, dir, r, i, e)
      {
        if e in es {
          var r, i :| q <= r && Placed(m, dir, r, i, e);
          assert p <= q <= r;
        }
      }
    }
  }

  /** A visit from the root names every datum: the path of its index and its key are the
      identifier under which it was inserted. */
  lemma {:induction false} VisitNames(m: Memory, dir: Directory, entries: bool, e: Event) returns (q: Identifier, ip: Identifier)
    requires Valid(m, dir) && AllNamed(m, dir) && Visit(m, dir, [], [], None, entries).Some?
    requires e in Visit(m, dir, [], [], None, entries).value && e.DatumVisited?
    ensures Placed(m, dir, q, ip, e) && ip + e.key == q + [m[e.data].kv]
  {
    hide Ordered, Injective, AllNamed, Visit;
    VisitPlaces(m, dir, [], [], None, [], entries);
    q, ip :| [] <= q && Placed(m, dir, q, ip, e);
    Rejoined(ip, q, m[e.data].kv);
  }
}
