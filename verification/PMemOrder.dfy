/** The order of a visit: data newest first within their branch, an index before its data,
    and every index once, under the pairs since the index around it. */
module PMemOrder {
  import opened Wrappers
  import opened Keys
  import opened PMemTree
  import opened PMemVisit
  import opened PMemOnce
  import opened PMemRuns

  // ----- One datum before another -----

  ghost predicate ReportsAt(es: seq<Event>, i: int, n: nat)
  {
    0 <= i < |es| && es[i].DatumVisited? && es[i].data == n
  }

  ghost predicate Precedes(es: seq<Event>, n: nat, o: nat)
  {
    exists i, j :: i < j && ReportsAt(es, i, n) && ReportsAt(es, j, o)
  }

  lemma {:induction false} PrecedesWithin(a: seq<Event>, es: seq<Event>, b: seq<Event>, n: nat, o: nat)
    requires Precedes(es, n, o)
    ensures Precedes(a + es + b, n, o)
  {
    var i, j :| i < j && ReportsAt(es, i, n) && ReportsAt(es, j, o);
    assert ReportsAt(a + es + b, |a| + i, n) && ReportsAt(a + es + b, |a| + j, o);
  }

  /** The data among some nodes, collected from the back. */
  lemma {:induction false} LastFirst(m: Memory, nodes: seq<nat>)
    requires Within(m, nodes) && nodes != []
    ensures Within(m, nodes[..|nodes| - 1])
    ensures var c := nodes[|nodes| - 1];
            NewestFirst(m, nodes, false) == (if m[c].DataNode? then [c] else []) + NewestFirst(m, nodes[..|nodes| - 1], false)
  {
  }

  lemma {:induction false} NewestFirstAt(m: Memory, nodes: seq<nat>, a: nat) returns (x: nat)
    requires Within(m, nodes) && a < |nodes| && m[nodes[a]].DataNode?
    ensures x < |NewestFirst(m, nodes, false)| && NewestFirst(m, nodes, false)[x] == nodes[a]
    decreases |nodes|
  {
    hide NewestFirst;
    LastFirst(m, nodes);
    if a == |nodes| - 1 {
      x := 0;
    } else {
      x := NewestFirstAt(m, nodes[..|nodes| - 1], a);
      if m[nodes[|nodes| - 1]].DataNode? {
        x := x + 1;
      }
    }
  }

  lemma {:induction false} NewestFirstOrder(m: Memory, nodes: seq<nat>, a: nat, b: nat) returns (x: nat, y: nat)
    requires Within(m, nodes) && a < b < |nodes| && m[nodes[a]].DataNode? && m[nodes[b]].DataNode?
    ensures x < y < |NewestFirst(m, nodes, false)|
    ensures NewestFirst(m, nodes, false)[x] == nodes[b] && NewestFirst(m, nodes, false)[y] == nodes[a]
    decreases |nodes|
  {
    hide NewestFirst;
    LastFirst(m, nodes);
    var init := nodes[..|nodes| - 1];
    if b == |nodes| - 1 {
      x := 0;
      y := NewestFirstAt(m, init, a);
      y := y + 1;
    } else {
      x, y := NewestFirstOrder(m, init, a, b);
      if m[nodes[|nodes| - 1]].DataNode? {
        x, y := x + 1, y + 1;
      }
    }
  }

  // ----- The visit of a branch within that of a branch above -----

  ghost predicate Holds3(whole: seq<Event>, a: seq<Event>, part: seq<Event>, b: seq<Event>)
  {
    whole == a + part + b
  }

  lemma {:induction false} TreesContain(m: Memory, dir: Directory, p: Identifier, subtrees: seq<nat>, key: seq<Pair>, index: Option<nat>, c: nat, entries: bool) returns (a: seq<Event>, b: seq<Event>)
    requires Valid(m, dir) && p in dir && Subtrees(m, dir, p, subtrees) && c in subtrees && c < |m| && p + [m[c].kv] in dir
    requires VisitTrees(m, dir, p, subtrees, key, index, entries).Some?
    ensures var part := Visit(m, dir, p + [m[c].kv], key, index, entries);
            part.Some? && Holds3(VisitTrees(m, dir, p, subtrees, key, index, entries).value, a, part.value, b)
    decreases |subtrees|
  {
    hide Ordered, Injective, Visit;
    FirstSubtree(m, dir, p, subtrees);
    var first := Visit(m, dir, p + [m[subtrees[0]].kv], key, index, entries).value;
    var rest := VisitTrees(m, dir, p, subtrees[1..], key, index, entries).value;
    if c == subtrees[0] {
      a, b := [], rest;
      assert [] + first + rest == first + rest;
    } else {
      assert c in subtrees[1..];
      a, b := TreesContain(m, dir, p, subtrees[1..], key, index, c, entries);
      var part := Visit(m, dir, p + [m[c].kv], key, index, entries).value;
      assert first + (a + part + b) == (first + a) + part + b;
      a := first + a;
    }
  }

  lemma {:induction false} ChildOnTheWay(m: Memory, dir: Directory, p: Identifier, q: Identifier)
    requires Valid(m, dir) && p in dir && q in dir && p < q
    ensures var child := p + [q[|p|]];
            && child <= q && child in dir && dir[child] < |m| && m[dir[child]].kv == q[|p|]
            && dir[child] in NewestFirst(m, m[dir[p]].nodes, true)
  {
    hide Injective, Lists, Unmixed;
    var child := p + [q[|p|]];
    PrefixStep(p, q[|p|], q);
    assert child[..|child| - 1] == p;
    Prefixes(m, dir, child, q);
    assert Hangs(m, dir, child);
  }

  /** A visit ends in those of the subtrees. */
  lemma {:induction false} EndsInTrees(m: Memory, dir: Directory, p: Identifier, key: seq<Pair>, index: Option<nat>, entries: bool)
    returns (key': seq<Pair>, index': Option<nat>, front: seq<Event>)
    requires Valid(m, dir) && p in dir && (entries || !Marked(m, dir, p)) && Visit(m, dir, p, key, index, entries).Some?
    ensures Subtrees(m, dir, p, NewestFirst(m, m[dir[p]].nodes, true))
    ensures var trees := VisitTrees(m, dir, p, NewestFirst(m, m[dir[p]].nodes, true), key', index', entries);
            trees.Some? && Visit(m, dir, p, key, index, entries).value == front + trees.value
  {
    hide Ordered, Injective, VisitTrees, NewestFirst, DatumEvents;
    var node := m[dir[p]];
    var marked := Named(node.kv) && node.index;
    key' := if marked then [] else if Named(node.kv) then key + [node.kv] else key;
    index' := if marked then Some(dir[p]) else index;
    var leaves := NewestFirst(m, node.nodes, false);
    var own := if leaves == [] then [] else DatumEvents(m, leaves, key', index'.value);
    if marked {
      var head := IndexVisited(dir[p], key + [node.kv]);
      front := [head] + own;
      var trees := VisitTrees(m, dir, p, NewestFirst(m, node.nodes, true), key', index', entries).value;
      assert [head] + (own + trees) == front + trees;
    } else {
      front := own;
    }
  }

  lemma {:induction false} HoldsInside(whole: seq<Event>, front: seq<Event>, trees: seq<Event>, a: seq<Event>, child: seq<Event>, b: seq<Event>,
                                       c: seq<Event>, part: seq<Event>, d: seq<Event>)
    requires whole == front + trees && Holds3(trees, a, child, b) && Holds3(child, c, part, d)
    ensures Holds3(whole, front + a + c, part, d + b)
  {
    assert front + (a + (c + part + d) + b) == (front + a + c) + part + (d + b);
  }

  lemma {:induction false} VisitContains(m: Memory, dir: Directory, p: Identifier, key: seq<Pair>, index: Option<nat>, q: Identifier, entries: bool)
    returns (key': seq<Pair>, index': Option<nat>, a: seq<Event>, b: seq<Event>)
    requires Valid(m, dir) && p in dir && q in dir && p <= q && Visit(m, dir, p, key, index, entries).Some?
    requires entries || forall r :: r in dir && p <= r < q ==> !Marked(m, dir, r)
    ensures Visit(m, dir, q, key', index', entries).Some?
    ensures Holds3(Visit(m, dir, p, key, index, entries).value, a, Visit(m, dir, q, key', index', entries).value, b)
    decreases |q| - |p|
  {
    hide Ordered, Injective, Visit, VisitTrees, NewestFirst, Subtrees, Holds3, Marked;
    if p == q {
      key', index', a, b := key, index, [], [];
      Whole(Visit(m, dir, p, key, index, entries).value);
    } else {
      ChildOnTheWay(m, dir, p, q);
      var child := p + [q[|p|]];
      var k, i, front := EndsInTrees(m, dir, p, key, index, entries);
      var subtrees := NewestFirst(m, m[dir[p]].nodes, true);
      var a1, b1 := TreesContain(m, dir, p, subtrees, k, i, dir[child], entries);
      var a2: seq<Event>, b2: seq<Event>;
      key', index', a2, b2 := VisitContains(m, dir, child, k, i, q, entries);
      HoldsInside(Visit(m, dir, p, key, index, entries).value, front, VisitTrees(m, dir, p, subtrees, k, i, entries).value, a1,
                  Visit(m, dir, child, k, i, entries).value, b1, a2, Visit(m, dir, q, key', index', entries).value, b2);
      a, b := front + a1 + a2, b2 + b1;
    }
  }

  lemma {:induction false} Whole(es: seq<Event>)
    ensures Holds3(es, [], es, [])
  {
    assert [] + es + [] == es;
  }

  /** Of two data below one branch, the one that was inserted later is reported first. */
  lemma {:induction false} VisitOrder(m: Memory, dir: Directory, p: Identifier, key: seq<Pair>, index: Option<nat>, q: Identifier, a: nat, b: nat)
    requires Valid(m, dir) && p in dir && q in dir && p <= q && Visit(m, dir, p, key, index, true).Some?
    requires a < b < |m[dir[q]].nodes| && Within(m, m[dir[q]].nodes)
    requires m[m[dir[q]].nodes[a]].DataNode? && m[m[dir[q]].nodes[b]].DataNode?
    ensures Precedes(Visit(m, dir, p, key, index, true).value, m[dir[q]].nodes[b], m[dir[q]].nodes[a])
  {
    hide Ordered, Injective, Visit;
    assert Visit(m, dir, p, key, index, true).Some?;
    var key', index', front, back := VisitContains(m, dir, p, key, index, q, true);
    OwnOrder(m, dir, q, key', index', a, b);
    PrecedesWithin(front, Visit(m, dir, q, key', index', true).value, back, m[dir[q]].nodes[b], m[dir[q]].nodes[a]);
  }

  lemma {:induction false} OwnOrder(m: Memory, dir: Directory, q: Identifier, key: seq<Pair>, index: Option<nat>, a: nat, b: nat)
    requires Valid(m, dir) && q in dir && Visit(m, dir, q, key, index, true).Some?
    requires a < b < |m[dir[q]].nodes| && Within(m, m[dir[q]].nodes)
    requires m[m[dir[q]].nodes[a]].DataNode? && m[m[dir[q]].nodes[b]].DataNode?
    ensures Precedes(Visit(m, dir, q, key, index, true).value, m[dir[q]].nodes[b], m[dir[q]].nodes[a])
  {
    hide Ordered, Injective, Visit, VisitTrees, NewestFirst, DatumEvents, Precedes;
    var leaves := NewestFirst(m, m[dir[q]].nodes, false);
    var x, y := NewestFirstOrder(m, m[dir[q]].nodes, a, b);
    var front, k, i, back := OwnEvents(m, dir, q, key, index);
    LeavesInOrder(m, leaves, k, i, x, y);
    PrecedesWithin(front, DatumEvents(m, leaves, k, i), back, leaves[x], leaves[y]);
  }

  /** A visit of a branch with data contains the events of its own data. */
  lemma {:induction false} OwnEvents(m: Memory, dir: Directory, q: Identifier, key: seq<Pair>, index: Option<nat>)
    returns (front: seq<Event>, key': seq<Pair>, i: nat, back: seq<Event>)
    requires Valid(m, dir) && q in dir && Visit(m, dir, q, key, index, true).Some? && NewestFirst(m, m[dir[q]].nodes, false) != []
    ensures Visit(m, dir, q, key, index, true).value == front + DatumEvents(m, NewestFirst(m, m[dir[q]].nodes, false), key', i) + back
  {
    hide Ordered, Injective, VisitTrees, NewestFirst, DatumEvents;
    var node := m[dir[q]];
    var marked := Named(node.kv) && node.index;
    var own := if Named(node.kv) then key + [node.kv] else key;
    key', i := if marked then [] else own, if marked then dir[q] else index.value;
    back := VisitTrees(m, dir, q, NewestFirst(m, node.nodes, true), key', Some(i), true).value;
    front := if marked then [IndexVisited(dir[q], own)] else [];
    Regrouped(front, DatumEvents(m, NewestFirst(m, node.nodes, false), key', i), back);
  }

  lemma {:induction false} Regrouped(a: seq<Event>, b: seq<Event>, c: seq<Event>)
    ensures a + (b + c) == a + b + c && (a == [] ==> b + c == a + b + c)
  {
  }

  lemma {:induction false} LeavesInOrder(m: Memory, leaves: seq<nat>, key: seq<Pair>, index: nat, x: nat, y: nat)
    requires Within(m, leaves) && x < y < |leaves|
    ensures Precedes(DatumEvents(m, leaves, key, index), leaves[x], leaves[y])
  {
    var own := DatumEvents(m, leaves, key, index);
    assert ReportsAt(own, x, leaves[x]) && ReportsAt(own, y, leaves[y]);
  }

  // ----- An index before its data -----

  ghost predicate IndexAt(es: seq<Event>, i: int, n: nat)
  {
    0 <= i < |es| && es[i].IndexVisited? && es[i].node == n
  }

  /** The index of every datum is the one around the visit, or has been reported before. */
  ghost predicate IndexFirst(es: seq<Event>, index: Option<nat>)
  {
    forall j :: 0 <= j < |es| && es[j].DatumVisited? ==> Some(es[j].index) == index || exists i :: i < j && IndexAt(es, i, es[j].index)
  }

  lemma {:induction false} IndexFirstConcat(a: seq<Event>, b: seq<Event>, index: Option<nat>)
    requires IndexFirst(a, index) && IndexFirst(b, index)
    ensures IndexFirst(a + b, index)
  {
    var es := a + b;
    forall j | 0 <= j < |es| && es[j].DatumVisited?
      ensures Some(es[j].index) == index || exists i :: i < j && IndexAt(es, i, es[j].index)
    {
      if j < |a| {
        if i :| i < j && IndexAt(a, i, a[j].index) {
          assert IndexAt(es, i, es[j].index);
        }
      } else {
        var k, n := j - |a|, es[j].index;
        assert b[k] == es[j];
        if i :| i < k && IndexAt(b, i, n) {
          assert IndexAt(es, |a| + i, es[j].index);
        }
      }
    }
  }

  lemma {:induction false} VisitIndexFirst(m: Memory, dir: Directory, p: Identifier, key: seq<Pair>, index: Option<nat>, entries: bool)
    requires Valid(m, dir) && p in dir && Visit(m, dir, p, key, index, entries).Some?
    ensures IndexFirst(Visit(m, dir, p, key, index, entries).value, index)
    decreases |m| - dir[p], 1, 0
  {
    hide Ordered, Injective, VisitBelow;
    var node := m[dir[p]];
    var key' := if Named(node.kv) then key + [node.kv] else key;
    if Named(node.kv) && node.index {
      if entries {
        VisitBelowIndexFirst(m, dir, p, [], Some(dir[p]), entries);
        IndexInFront(dir[p], key', VisitBelow(m, dir, p, [], Some(dir[p]), entries).value, index);
      }
    } else {
      VisitBelowIndexFirst(m, dir, p, key', index, entries);
    }
  }

  lemma {:induction false} IndexInFront(n: nat, key: seq<Pair>, es: seq<Event>, index: Option<nat>)
    requires IndexFirst(es, Some(n))
    ensures IndexFirst([IndexVisited(n, key)] + es, index)
  {
    var all := [IndexVisited(n, key)] + es;
    assert IndexAt(all, 0, n);
    forall j | 0 <= j < |all| && all[j].DatumVisited?
      ensures exists i :: i < j && IndexAt(all, i, all[j].index)
    {
      var k, o := j - 1, all[j].index;
      assert es[k] == all[j];
      if i :| i < k && IndexAt(es, i, o) {
        assert IndexAt(all, i + 1, all[j].index);
      }
    }
  }

  lemma {:induction false} VisitBelowIndexFirst(m: Memory, dir: Directory, p: Identifier, key: seq<Pair>, index: Option<nat>, entries: bool)
    requires Valid(m, dir) && p in dir && VisitBelow(m, dir, p, key, index, entries).Some?
    ensures IndexFirst(VisitBelow(m, dir, p, key, index, entries).value, index)
    decreases |m| - dir[p], 0, |m[dir[p]].nodes| + 1
  {
    hide Ordered, Injective, VisitTrees, NewestFirst;
    var leaves, subtrees := NewestFirst(m, m[dir[p]].nodes, false), NewestFirst(m, m[dir[p]].nodes, true);
    VisitTreesIndexFirst(m, dir, p, subtrees, key, index, entries);
    var first := if leaves == [] then [] else DatumEvents(m, leaves, key, index.value);
    IndexFirstConcat(first, VisitTrees(m, dir, p, subtrees, key, index, entries).value, index);
  }

  lemma {:induction false} VisitTreesIndexFirst(m: Memory, dir: Directory, p: Identifier, subtrees: seq<nat>, key: seq<Pair>, index: Option<nat>, entries: bool)
    requires Valid(m, dir) && p in dir && Subtrees(m, dir, p, subtrees) && VisitTrees(m, dir, p, subtrees, key, index, entries).Some?
    ensures IndexFirst(VisitTrees(m, dir, p, subtrees, key, index, entries).value, index)
    decreases |m| - dir[p], 0, |subtrees|
  {
    hide Ordered, Injective, Visit, IndexFirst;
    if subtrees == [] {
      assert IndexFirst([], index) by { NothingFirst(index); }
    } else {
      FirstSubtree(m, dir, p, subtrees);
      var q := p + [m[subtrees[0]].kv];
      VisitIndexFirst(m, dir, q, key, index, entries);
      VisitTreesIndexFirst(m, dir, p, subtrees[1..], key, index, entries);
      IndexFirstConcat(Visit(m, dir, q, key, index, entries).value, VisitTrees(m, dir, p, subtrees[1..], key, index, entries).value, index);
    }
  }

  lemma {:induction false} NothingFirst(index: Option<nat>)
    ensures IndexFirst([], index)
  {
  }

  // ----- The indexes -----

  /** The event of an index branch: its key is the way from the last index above it. */
  ghost predicate IndexPlaced(m: Memory, dir: Directory, p: Identifier, q: Identifier, e: Event)
    requires Valid(m, dir)
  {
    && e.IndexVisited? && q in dir && q != [] && p <= q && Marked(m, dir, q) && dir[q] == e.node
    && (if NoIndex(m, dir, q[..|q| - 1]) then e.key == q
        else exists ip :: Nearest(m, dir, ip, q[..|q| - 1]) && e.key == q[|ip|..])
  }

  ghost predicate IndexesPlaced(m: Memory, dir: Directory, p: Identifier, es: seq<Event>)
    requires Valid(m, dir)
  {
    forall e :: e in es && e.IndexVisited? ==> exists q :: IndexPlaced(m, dir, p, q, e)
  }

  lemma {:induction false} OwnIndexPlaced(m: Memory, dir: Directory, p: Identifier, key: seq<Pair>, index: Option<nat>, ip: Identifier)
    requires Valid(m, dir) && AllNamed(m, dir) && p in dir && Above(m, dir, p, key, index, ip) && Marked(m, dir, p)
    ensures IndexPlaced(m, dir, p, p, IndexVisited(dir[p], key + [m[dir[p]].kv]))
  {
    hide Ordered, Injective;
    assert p != [];
    KeyGrows(m, dir, p, key, index, ip);
    if index.Some? {
      assert Nearest(m, dir, ip, p[..|p| - 1]);
      assert ip <= p[..|p| - 1] && Marked(m, dir, ip);
      assert !NoIndex(m, dir, p[..|p| - 1]);
    }
  }

  lemma {:induction false} VisitIndexesPlaced(m: Memory, dir: Directory, p: Identifier, key: seq<Pair>, index: Option<nat>, ip: Identifier, entries: bool)
    requires Valid(m, dir) && AllNamed(m, dir) && p in dir && Above(m, dir, p, key, index, ip)
    requires Visit(m, dir, p, key, index, entries).Some?
    ensures IndexesPlaced(m, dir, p, Visit(m, dir, p, key, index, entries).value)
    decreases |m| - dir[p], 1, 0
  {
    hide Ordered, Injective, VisitBelow, IndexPlaced;
    var kv := m[dir[p]].kv;
    var key' := if Named(kv) then key + [kv] else key;
    if p != [] {
      KeyGrows(m, dir, p, key, index, ip);
    }
    if Marked(m, dir, p) {
      OwnIndexPlaced(m, dir, p, key, index, ip);
      if entries {
        AtIndex(m, dir, p);
        VisitBelowIndexesPlaced(m, dir, p, [], Some(dir[p]), p, entries);
      }
    } else {
      if p != [] {
        StillNearest(m, dir, p, ip);
      }
      VisitBelowIndexesPlaced(m, dir, p, key', index, ip, entries);
    }
  }

  lemma {:induction false} VisitBelowIndexesPlaced(m: Memory, dir: Directory, p: Identifier, key: seq<Pair>, index: Option<nat>, ip: Identifier, entries: bool)
    requires Valid(m, dir) && AllNamed(m, dir) && p in dir && Since(m, dir, p, key, index, ip)
    requires VisitBelow(m, dir, p, key, index, entries).Some?
    ensures IndexesPlaced(m, dir, p, VisitBelow(m, dir, p, key, index, entries).value)
    decreases |m| - dir[p], 0, |m[dir[p]].nodes| + 1
  {
    hide Ordered, Injective, VisitTrees, AllNamed, IndexPlaced, NewestFirst;
    VisitTreesIndexesPlaced(m, dir, p, NewestFirst(m, m[dir[p]].nodes, true), key, index, ip, entries);
  }

  lemma {:induction false} VisitTreesIndexesPlaced(m: Memory, dir: Directory, p: Identifier, subtrees: seq<nat>, key: seq<Pair>, index: Option<nat>, ip: Identifier, entries: bool)
    requires Valid(m, dir) && AllNamed(m, dir) && p in dir && Subtrees(m, dir, p, subtrees)
    requires Since(m, dir, p, key, index, ip)
    requires VisitTrees(m, dir, p, subtrees, key, index, entries).Some?
    ensures IndexesPlaced(m, dir, p, VisitTrees(m, dir, p, subtrees, key, index, entries).value)
    decreases |m| - dir[p], 0, |subtrees|
  {
    hide Ordered, Injective, Visit, AllNamed, IndexPlaced;
    if subtrees != [] {
      FirstSubtree(m, dir, p, subtrees);
      var q := p + [m[subtrees[0]].kv];
      assert q[..|q| - 1] == p;
      VisitIndexesPlaced(m, dir, q, key, index, ip, entries);
      VisitTreesIndexesPlaced(m, dir, p, subtrees[1..], key, index, ip, entries);
      var es, more := Visit(m, dir, q, key, index, entries).value, VisitTrees(m, dir, p, subtrees[1..], key, index, entries).value;
      forall e: Event | e in es + more && e.IndexVisited?
        ensures exists r :: IndexPlaced(m, dir, p, r, e)
      {
        if e in es {
          var r :| IndexPlaced(m, dir, q, r, e);
          PlacedHigher(m, dir, p, q, r, e);
        }
      }
    }
  }

  lemma {:induction false} PlacedHigher(m: Memory, dir: Directory, p: Identifier, q: Identifier, r: Identifier, e: Event)
    requires Valid(m, dir) && IndexPlaced(m, dir, q, r, e) && p <= q
    ensures IndexPlaced(m, dir, p, r, e)
  {
    hide Valid;
    assert p <= q <= r;
  }

  /** Every index below is reported by a visit right to the entries. */
  lemma {:induction false} IndexIsVisited(m: Memory, dir: Directory, p: Identifier, key: seq<Pair>, index: Option<nat>, q: Identifier)
    requires Valid(m, dir) && p in dir && q in dir && p <= q && Marked(m, dir, q) && Visit(m, dir, p, key, index, true).Some?
    ensures exists i :: IndexAt(Visit(m, dir, p, key, index, true).value, i, dir[q])
  {
    hide Ordered, Injective, VisitBelow;
    var key', index', a, b := VisitContains(m, dir, p, key, index, q, true);
    var part := Visit(m, dir, q, key', index', true).value;
    assert IndexAt(part, 0, dir[q]);
    assert IndexAt(a + part + b, |a|, dir[q]);
  }

  /** A visit that stops at the indexes reports every index that has none above. */
  lemma {:induction false} OuterIndexIsVisited(m: Memory, dir: Directory, p: Identifier, key: seq<Pair>, index: Option<nat>, q: Identifier)
    requires Valid(m, dir) && p in dir && q in dir && p <= q && Marked(m, dir, q) && Visit(m, dir, p, key, index, false).Some?
    requires forall r :: r in dir && p <= r < q ==> !Marked(m, dir, r)
    ensures exists i :: IndexAt(Visit(m, dir, p, key, index, false).value, i, dir[q])
  {
    hide Ordered, Injective, VisitBelow;
    var key', index', a, b := VisitContains(m, dir, p, key, index, q, false);
    var part := Visit(m, dir, q, key', index', false).value;
    assert IndexAt(part, 0, dir[q]);
    assert IndexAt(a + part + b, |a|, dir[q]);
  }

  /** The event of an index that has none above, from a path on. */
  ghost predicate OuterIndex(m: Memory, dir: Directory, p: Identifier, e: Event)
    requires Valid(m, dir)
  {
    e.IndexVisited? && exists q :: q in dir && p <= q && Marked(m, dir, q) && dir[q] == e.node && forall r :: r in dir && p <= r < q ==> !Marked(m, dir, r)
  }

  /** And it reports nothing else: no index within another, and no data. */
  lemma {:induction false} OnlyOuterIndexes(m: Memory, dir: Directory, p: Identifier, key: seq<Pair>, entry: Event)
    requires Valid(m, dir) && p in dir && Visit(m, dir, p, key, None, false).Some? && entry in Visit(m, dir, p, key, None, false).value
    ensures OuterIndex(m, dir, p, entry)
    decreases |m| - dir[p], 1, 0
  {
    hide Ordered, Injective, VisitBelow, OuterIndex;
    var node := m[dir[p]];
    if Marked(m, dir, p) {
      IsOuter(m, dir, p, entry);
    } else {
      var key' := if Named(node.kv) then key + [node.kv] else key;
      BelowOnlyOuter(m, dir, p, key', entry);
    }
  }

  lemma {:induction false} IsOuter(m: Memory, dir: Directory, p: Identifier, e: Event)
    requires Valid(m, dir) && p in dir && Marked(m, dir, p) && e.IndexVisited? && e.node == dir[p]
    ensures OuterIndex(m, dir, p, e)
  {
    hide Valid, Marked;
    assert p <= p;
  }

  lemma {:induction false} BelowOnlyOuter(m: Memory, dir: Directory, p: Identifier, key: seq<Pair>, entry: Event)
    requires Valid(m, dir) && p in dir && !Marked(m, dir, p)
    requires VisitBelow(m, dir, p, key, None, false).Some? && entry in VisitBelow(m, dir, p, key, None, false).value
    ensures OuterIndex(m, dir, p, entry)
    decreases |m| - dir[p], 0, |m[dir[p]].nodes| + 1
  {
    hide Ordered, Injective, VisitTrees, NewestFirst, OuterIndex, Marked;
    TreesOnlyOuter(m, dir, p, NewestFirst(m, m[dir[p]].nodes, true), key, entry);
  }

  lemma {:induction false} TreesOnlyOuter(m: Memory, dir: Directory, p: Identifier, subtrees: seq<nat>, key: seq<Pair>, entry: Event)
    requires Valid(m, dir) && p in dir && !Marked(m, dir, p) && Subtrees(m, dir, p, subtrees)
    requires VisitTrees(m, dir, p, subtrees, key, None, false).Some? && entry in VisitTrees(m, dir, p, subtrees, key, None, false).value
    ensures OuterIndex(m, dir, p, entry)
    decreases |m| - dir[p], 0, |subtrees|
  {
    hide Ordered, Injective, Visit, OuterIndex, Marked;
    FirstSubtree(m, dir, p, subtrees);
    var kv := m[subtrees[0]].kv;
    var q := p + [kv];
    if entry in Visit(m, dir, q, key, None, false).value {
      OnlyOuterIndexes(m, dir, q, key, entry);
      OuterHigher(m, dir, p, kv, entry);
    } else {
      TreesOnlyOuter(m, dir, p, subtrees[1..], key, entry);
    }
  }

  lemma {:induction false} OuterHigher(m: Memory, dir: Directory, p: Identifier, kv: Pair, e: Event)
    requires Valid(m, dir) && p in dir && !Marked(m, dir, p) && OuterIndex(m, dir, p + [kv], e)
    ensures OuterIndex(m, dir, p, e)
  {
    hide Valid, Marked;
    var q :| q in dir && p + [kv] <= q && Marked(m, dir, q) && dir[q] == e.node && forall r :: r in dir && p + [kv] <= r < q ==> !Marked(m, dir, r);
    assert p <= p + [kv] <= q;
    forall r | r in dir && p <= r < q
      ensures !Marked(m, dir, r)
    {
      if r != p {
        NextStep(p, kv, r, q);
      }
    }
  }

  /** No index is reported twice. */
  ghost predicate IndexesOnce(es: seq<Event>)
  {
    forall i, j, n: nat :: IndexAt(es, i, n) && IndexAt(es, j, n) ==> i == j
  }

  /** The index events of some branches, each below a path. */
  ghost predicate IndexesBelow(dir: Directory, p: Identifier, es: seq<Event>)
  {
    forall i, n: nat :: IndexAt(es, i, n) ==> exists q :: q in dir && p <= q && dir[q] == n
  }

  lemma {:induction false} OnceConcat(dir: Directory, p: Identifier, kv: Pair, a: seq<Event>, b: seq<Event>)
    requires Injective(dir) && IndexesOnce(a) && IndexesOnce(b) && IndexesBelow(dir, p + [kv], a)
    requires forall i, n: nat :: IndexAt(b, i, n) ==> exists q :: q in dir && p < q && q[|p|] != kv && dir[q] == n
    ensures IndexesOnce(a + b)
  {
    forall i, j, n: nat
      ensures !(IndexAt(a, i, n) && IndexAt(b, j, n))
    {
      if IndexAt(a, i, n) {
        AllBelow(dir, p, kv, a, i, n);
      }
    }
    forall i, j, n: nat | IndexAt(a + b, i, n) && IndexAt(a + b, j, n)
      ensures i == j
    {
      EitherPart(a, b, i, n);
      EitherPart(a, b, j, n);
    }
  }

  lemma {:induction false} EitherPart(a: seq<Event>, b: seq<Event>, i: int, n: nat)
    requires IndexAt(a + b, i, n)
    ensures if i < |a| then IndexAt(a, i, n) else IndexAt(b, i - |a|, n)
  {
  }

  lemma {:induction false} AllBelow(dir: Directory, p: Identifier, kv: Pair, es: seq<Event>, i: int, n: nat)
    requires Injective(dir) && IndexesBelow(dir, p + [kv], es) && IndexAt(es, i, n)
    ensures forall r :: r in dir && dir[r] == n ==> p < r && r[|p|] == kv
  {
    var q :| q in dir && p + [kv] <= q && dir[q] == n;
    assert q[|p|] == (p + [kv])[|p|] && p < p + [kv];
  }

  /** The index events of later siblings are below them. */
  ghost predicate BelowOthers(m: Memory, dir: Directory, p: Identifier, subtrees: seq<nat>, es: seq<Event>)
    requires Valid(m, dir) && p in dir && Subtrees(m, dir, p, subtrees)
  {
    forall i, n: nat :: IndexAt(es, i, n) ==> exists c, q :: c in subtrees && q in dir && p + [m[c].kv] <= q && dir[q] == n
  }

  lemma {:induction false} VisitOnce(m: Memory, dir: Directory, p: Identifier, key: seq<Pair>, index: Option<nat>, entries: bool)
    requires Valid(m, dir) && p in dir && Visit(m, dir, p, key, index, entries).Some?
    ensures IndexesOnce(Visit(m, dir, p, key, index, entries).value) && IndexesBelow(dir, p, Visit(m, dir, p, key, index, entries).value)
    decreases |m| - dir[p], 1, 0
  {
    hide Ordered, Injective, VisitBelow, IndexesOnce, BelowOthers;
    var node := m[dir[p]];
    var key' := if Named(node.kv) then key + [node.kv] else key;
    var own := IndexVisited(dir[p], key');
    if Named(node.kv) && node.index {
      if entries {
        VisitBelowOnce(m, dir, p, [], Some(dir[p]), entries);
        OwnOnce(m, dir, p, own, VisitBelow(m, dir, p, [], Some(dir[p]), entries).value);
      } else {
        JustOwn(dir, p, own);
      }
    } else {
      VisitBelowOnce(m, dir, p, key', index, entries);
      OthersBelow(m, dir, p, VisitBelow(m, dir, p, key', index, entries).value);
    }
  }

  lemma {:induction false} JustOwn(dir: Directory, p: Identifier, own: Event)
    requires p in dir && own.IndexVisited? && own.node == dir[p]
    ensures IndexesOnce([own]) && IndexesBelow(dir, p, [own])
  {
  }

  lemma {:induction false} OthersBelow(m: Memory, dir: Directory, p: Identifier, es: seq<Event>)
    requires Valid(m, dir) && p in dir && Subtrees(m, dir, p, NewestFirst(m, m[dir[p]].nodes, true))
    requires BelowOthers(m, dir, p, NewestFirst(m, m[dir[p]].nodes, true), es)
    ensures IndexesBelow(dir, p, es)
  {
    hide Ordered, Injective, NewestFirst;
    forall i, n: nat | IndexAt(es, i, n)
      ensures exists q :: q in dir && p <= q && dir[q] == n
    {
      var c, q :| c in NewestFirst(m, m[dir[p]].nodes, true) && q in dir && p + [m[c].kv] <= q && dir[q] == n;
      assert p <= p + [m[c].kv] <= q;
    }
  }

  lemma {:induction false} OwnOnce(m: Memory, dir: Directory, p: Identifier, own: Event, es: seq<Event>)
    requires Valid(m, dir) && p in dir && Subtrees(m, dir, p, NewestFirst(m, m[dir[p]].nodes, true))
    requires BelowOthers(m, dir, p, NewestFirst(m, m[dir[p]].nodes, true), es) && IndexesOnce(es)
    requires own.IndexVisited? && own.node == dir[p]
    ensures IndexesOnce([own] + es) && IndexesBelow(dir, p, [own] + es)
  {
    hide Ordered, NewestFirst;
    var all := [own] + es;
    OthersBelow(m, dir, p, es);
    forall i, n: nat | IndexAt(all, i, n)
      ensures exists q :: q in dir && p <= q && dir[q] == n
    {
      if i > 0 {
        assert IndexAt(es, i - 1, n);
      }
    }
    NotItself(m, dir, p, es);
    forall i, j, n: nat | IndexAt(all, i, n) && IndexAt(all, j, n)
      ensures i == j
    {
      EitherPart([own], es, i, n);
      EitherPart([own], es, j, n);
    }
  }

  lemma {:induction false} NotItself(m: Memory, dir: Directory, p: Identifier, es: seq<Event>)
    requires Valid(m, dir) && p in dir && Subtrees(m, dir, p, NewestFirst(m, m[dir[p]].nodes, true))
    requires BelowOthers(m, dir, p, NewestFirst(m, m[dir[p]].nodes, true), es)
    ensures forall i :: !IndexAt(es, i, dir[p])
  {
    hide Ordered, NewestFirst;
    forall q, kv | q in dir && p + [kv] <= q
      ensures dir[q] != dir[p]
    {
      assert |q| > |p|;
    }
  }

  lemma {:induction false} VisitBelowOnce(m: Memory, dir: Directory, p: Identifier, key: seq<Pair>, index: Option<nat>, entries: bool)
    requires Valid(m, dir) && p in dir && VisitBelow(m, dir, p, key, index, entries).Some?
    ensures Subtrees(m, dir, p, NewestFirst(m, m[dir[p]].nodes, true))
    ensures IndexesOnce(VisitBelow(m, dir, p, key, index, entries).value)
    ensures BelowOthers(m, dir, p, NewestFirst(m, m[dir[p]].nodes, true), VisitBelow(m, dir, p, key, index, entries).value)
    decreases |m| - dir[p], 0, |m[dir[p]].nodes| + 1
  {
    hide Ordered, Injective, VisitTrees, NewestFirst, Unmixed, Apart;
    var leaves, subtrees := NewestFirst(m, m[dir[p]].nodes, false), NewestFirst(m, m[dir[p]].nodes, true);
    UnmixedAt(m, dir, p);
    SubtreesApart(m, m[dir[p]].nodes);
    VisitTreesOnce(m, dir, p, subtrees, key, index, entries);
    var trees := VisitTrees(m, dir, p, subtrees, key, index, entries).value;
    var first := if leaves == [] then [] else DatumEvents(m, leaves, key, index.value);
    forall i, n: nat | IndexAt(first + trees, i, n)
      ensures i >= |first| && IndexAt(trees, i - |first|, n)
    {
    }
  }

  lemma {:induction false} VisitTreesOnce(m: Memory, dir: Directory, p: Identifier, subtrees: seq<nat>, key: seq<Pair>, index: Option<nat>, entries: bool)
    requires Valid(m, dir) && p in dir && Subtrees(m, dir, p, subtrees) && Within(m, subtrees) && Apart(m, subtrees)
    requires VisitTrees(m, dir, p, subtrees, key, index, entries).Some?
    ensures IndexesOnce(VisitTrees(m, dir, p, subtrees, key, index, entries).value)
    ensures BelowOthers(m, dir, p, subtrees, VisitTrees(m, dir, p, subtrees, key, index, entries).value)
    decreases |m| - dir[p], 0, |subtrees|
  {
    hide Ordered, Injective, Visit, IndexesOnce;
    if subtrees == [] {
      NothingOnce();
    } else {
      FirstSubtree(m, dir, p, subtrees);
      var kv := m[subtrees[0]].kv;
      var q := p + [kv];
      VisitOnce(m, dir, q, key, index, entries);
      VisitTreesOnce(m, dir, p, subtrees[1..], key, index, entries);
      var es, more := Visit(m, dir, q, key, index, entries).value, VisitTrees(m, dir, p, subtrees[1..], key, index, entries).value;
      JoinOnce(m, dir, p, subtrees, es, more);
    }
  }

  lemma {:induction false} JoinOnce(m: Memory, dir: Directory, p: Identifier, subtrees: seq<nat>, es: seq<Event>, more: seq<Event>)
    requires Valid(m, dir) && p in dir && Subtrees(m, dir, p, subtrees) && Within(m, subtrees) && Apart(m, subtrees) && subtrees != []
    requires IndexesOnce(es) && IndexesOnce(more) && IndexesBelow(dir, p + [m[subtrees[0]].kv], es)
    requires Subtrees(m, dir, p, subtrees[1..]) && BelowOthers(m, dir, p, subtrees[1..], more)
    ensures IndexesOnce(es + more) && BelowOthers(m, dir, p, subtrees, es + more)
  {
    hide Ordered, Injective, IndexesOnce;
    var kv := m[subtrees[0]].kv;
    forall i, n: nat | IndexAt(more, i, n)
      ensures exists q :: q in dir && p < q && q[|p|] != kv && dir[q] == n
    {
      var c, q :| c in subtrees[1..] && q in dir && p + [m[c].kv] <= q && dir[q] == n;
      var x :| 0 <= x < |subtrees[1..]| && subtrees[1..][x] == c;
      assert subtrees[x + 1] == c && m[subtrees[0]].kv != m[subtrees[x + 1]].kv;
      assert q[|p|] == (p + [m[c].kv])[|p|] && p < p + [m[c].kv];
    }
    OnceConcat(dir, p, kv, es, more);
    forall i, n: nat | IndexAt(es + more, i, n)
      ensures exists c, q :: c in subtrees && q in dir && p + [m[c].kv] <= q && dir[q] == n
    {
      if i < |es| {
        assert IndexAt(es, i, n);
        var q :| q in dir && p + [kv] <= q && dir[q] == n;
        assert subtrees[0] in subtrees;
      } else {
        assert IndexAt(more, i - |es|, n);
        var c, q :| c in subtrees[1..] && q in dir && p + [m[c].kv] <= q && dir[q] == n;
        assert c in subtrees;
      }
    }
  }

  lemma {:induction false} NothingOnce()
    ensures IndexesOnce([])
  {
  }

  // ----- Over runs -----

  /** The sub-nodes of every branch are in the order of their addresses. */
  ghost predicate Ascending(m: Memory)
  {
    forall a: nat, i, j :: IsBranch(m, a) && 0 <= i < j < |m[a].nodes| ==> m[a].nodes[i] < m[a].nodes[j]
  }

  lemma {:induction false} GrowAscends(m: Memory, at: nat, kv: Pair)
    requires Closed(m) && IsBranch(m, at) && Ascending(m)
    ensures Ascending(Grow(m, at, kv))
  {
    var m' := Grow(m, at, kv);
    forall a: nat, i, j | IsBranch(m', a) && 0 <= i < j < |m'[a].nodes|
      ensures m'[a].nodes[i] < m'[a].nodes[j]
    {
      if a < |m| {
        assert IsBranch(m, a);
        if a != at {
          assert m'[a] == m[a];
        }
      }
    }
  }

  lemma {:induction false} ChainAscends(m: Memory, at: nat, id: Identifier)
    requires Closed(m) && IsBranch(m, at) && Ascending(m)
    ensures Ascending(Chain(m, at, id).0)
    decreases |id|
  {
    if id != [] {
      hide Ascending;
      GrowAscends(m, at, id[0]);
      ChainAscends(Grow(m, at, id[0]), |m|, id[1..]);
    }
  }

  lemma {:induction false} CreateAscends(m: Memory, at: nat, id: Identifier)
    requires Closed(m) && IsBranch(m, at) && Ascending(m) && Create(m, at, id).Some?
    ensures Ascending(Create(m, at, id).value.0)
  {
    hide Ascending, Chain;
    match Reach(m, at, id)
    case At(n) =>
    case Stops(n, rest) => ChainAscends(m, n, rest);
    case Blocked =>
  }

  lemma {:induction false} PushAscends(m: Memory, at: nat, c: nat)
    requires Closed(m) && IsBranch(m, at) && c < |m| && Ascending(m) && forall i :: 0 <= i < |m[at].nodes| ==> m[at].nodes[i] < c
    ensures Ascending(Push(m, at, c))
  {
    var m' := Push(m, at, c);
    forall a: nat, i, j | IsBranch(m', a) && 0 <= i < j < |m'[a].nodes|
      ensures m'[a].nodes[i] < m'[a].nodes[j]
    {
      assert IsBranch(m, a);
      if a != at {
        assert m'[a] == m[a];
      }
    }
  }

  lemma {:induction false} AllocateAscends(m: Memory, kv: Pair, data: string)
    requires Closed(m) && Ascending(m)
    ensures Ascending(Allocate(m, kv, data))
  {
    var m' := Allocate(m, kv, data);
    forall a: nat, i, j | IsBranch(m', a) && 0 <= i < j < |m'[a].nodes|
      ensures m'[a].nodes[i] < m'[a].nodes[j]
    {
      assert IsBranch(m, a) && m'[a] == m[a];
    }
  }

  lemma {:induction false} MarkAscends(m: Memory, at: nat)
    requires Closed(m) && IsBranch(m, at) && Ascending(m)
    ensures Ascending(Mark(m, at))
  {
    var m' := Mark(m, at);
    forall a: nat, i, j | IsBranch(m', a) && 0 <= i < j < |m'[a].nodes|
      ensures m'[a].nodes[i] < m'[a].nodes[j]
    {
      assert IsBranch(m, a) && m'[a].nodes == m[a].nodes;
    }
  }

  /** Inserting a data node that was allocated after the rest of the tree. */
  lemma {:induction false} InsertAscends(m: Memory, dir: Directory, p: Identifier, id: Identifier, d: nat)
    requires Valid(m, dir) && p in dir && id != [] && d < |m| && m[d].DataNode? && Ascending(m)
    requires forall a: nat, i :: IsBranch(m, a) && 0 <= i < |m[a].nodes| ==> m[a].nodes[i] < d
    ensures Ascending(Insert(m, dir[p], id, d).0)
  {
    hide Ordered, Injective, Ascending, Create, Closed;
    var init := id[..|id| - 1];
    if Create(m, dir[p], init).Some? {
      var (m1, end) := Create(m, dir[p], init).value;
      var dir1 := CreateKeeps(m, dir, p, init);
      CreateAscends(m, dir[p], init);
      if m1[d].kv == id[|id| - 1] && !HidesBranch(m1, m1[end].nodes, id[|id| - 1]) {
        if p + init in dir {
          assert m1 == m;
        } else {
          assert m1[end].nodes == [];
        }
        PushAscends(m1, end, d);
      }
    }
  }

  lemma {:induction false} FreshIsAbove(m: Memory, kv: Pair, data: string)
    requires Closed(m)
    ensures forall a: nat, i :: IsBranch(Allocate(m, kv, data), a) && 0 <= i < |Allocate(m, kv, data)[a].nodes| ==>
              Allocate(m, kv, data)[a].nodes[i] < |m|
  {
    var m' := Allocate(m, kv, data);
    forall a: nat, i | IsBranch(m', a) && 0 <= i < |m'[a].nodes|
      ensures m'[a].nodes[i] < |m|
    {
      assert m'[a] == m[a] && Within(m, m[a].nodes);
    }
  }

  lemma {:induction false} AddAscends(m: Memory, dir: Directory, stored: seq<Stored>, f: Field)
    requires Holds(m, dir, stored) && f.datum != [] && Closed(m) && IsBranch(m, 0) && Ascending(m)
    ensures Ascending(Add(m, f).0)
  {
    hide Stores, Insert, Create, Ascending, Closed, Valid;
    Basics(m, dir, stored);
    if Create(m, 0, f.index).Some? {
      var (m1, at) := Create(m, 0, f.index).value;
      var dir1 := CreateStores(m, dir, stored, f.index);
      CreateAscends(m, 0, f.index);
      Basics(m1, dir1, stored);
      var m2 := Allocate(m1, PMemRuns.LastPair(f), f.data);
      AlikeKeeps(m1, dir1, m2);
      AllocateAscends(m1, PMemRuns.LastPair(f), f.data);
      FreshIsAbove(m1, PMemRuns.LastPair(f), f.data);
      InsertAscends(m2, dir1, f.index, f.datum, |m1|);
      var r := Insert(m2, at, f.datum, |m1|);
      if r.1 {
        var dir2 := InsertKeeps(m2, dir1, f.index, f.datum, |m1|);
        ClosedBranch(r.0, dir2, f.index);
        MarkAscends(r.0, at);
      }
    }
  }

  lemma {:induction false} RunAscends(fields: seq<Field>)
    requires forall f :: f in fields ==> f.datum != []
    ensures Ascending(Run(fields).0)
  {
    if fields != [] {
      hide Holds, Add, Ascending;
      var init := fields[..|fields| - 1];
      RunAscends(init);
      var dir := RunHolds(init);
      AddAscends(Run(init).0, dir, Run(init).1, fields[|fields| - 1]);
    }
  }

  lemma {:induction false} SameBranch(f: Field, g: Field)
    requires f.datum != [] && g.datum != [] && Id(f) == Id(g)
    ensures Branch(f) == Branch(g)
  {
    WholeId(f);
    WholeId(g);
    assert Branch(f) == Id(f)[..|Id(f)| - 1] && Branch(g) == Id(g)[..|Id(g)| - 1];
  }

  /** Of two fields that were stored below one branch, in particular under one identifier, the
      one stored later is reported first. */
  lemma {:induction false} RunOrder(fields: seq<Field>, dir: Directory, i: nat, j: nat)
    requires AllComplete(fields) && Valid(Run(fields).0, dir) && dir[[]] == 0
    requires i < j < |Run(fields).1|
    ensures Run(fields).1[i].field.datum != [] && Run(fields).1[j].field.datum != []
    ensures Branch(Run(fields).1[i].field) == Branch(Run(fields).1[j].field) ==>
              && Visit(Run(fields).0, dir, [], [], None, true).Some?
              && Precedes(Visit(Run(fields).0, dir, [], [], None, true).value, Run(fields).1[j].node, Run(fields).1[i].node)
  {
    hide Run, Add, Ordered, Injective, Visit, Files, DataBelow, Marks, Indexes, Precedes, Ascending, HasDatum;
    var (m, stored) := Run(fields);
    RunVisits(fields, dir);
    var dir' := RunHolds(fields);
    SameBelow(m, dir, dir');
    assert stored[i] in stored && stored[j] in stored;
    var s, t := stored[i], stored[j];
    if Branch(s.field) == Branch(t.field) {
      var q := Branch(s.field);
      assert Has(stored, q, s.node) && Has(stored, q, t.node);
      RunAscends(fields);
      assert s.node < t.node;
      var a, b := PositionsOf(m, dir, q, s.node, t.node);
      VisitOrder(m, dir, [], [], None, q, a, b);
    }
  }

  lemma {:induction false} PositionsOf(m: Memory, dir: Directory, q: Identifier, n: nat, o: nat) returns (a: nat, b: nat)
    requires Valid(m, dir) && q in dir && HasDatum(m, dir[q], n) && HasDatum(m, dir[q], o) && n < o && Ascending(m)
    ensures a < b < |m[dir[q]].nodes| && m[dir[q]].nodes[a] == n && m[dir[q]].nodes[b] == o && Within(m, m[dir[q]].nodes)
    ensures m[n].DataNode? && m[o].DataNode?
  {
    var nodes := m[dir[q]].nodes;
    a :| 0 <= a < |nodes| && nodes[a] == n;
    b :| 0 <= b < |nodes| && nodes[b] == o;
  }

  lemma {:induction false} LatestIsAt(stored: seq<Stored>, id: Identifier) returns (j: nat)
    requires Latest(stored, id).Some?
    ensures j < |stored| && Id(stored[j].field) == id && stored[j].node == Latest(stored, id).value
    ensures forall i :: j < i < |stored| ==> Id(stored[i].field) != id
  {
    var last := stored[|stored| - 1];
    if Id(last.field) == id {
      j := |stored| - 1;
    } else {
      j := LatestIsAt(stored[..|stored| - 1], id);
    }
  }

  lemma {:induction false} CountAt(es: seq<Event>, k: int, n: nat)
    requires ReportsAt(es, k, n)
    ensures Reported(es)[n] >= 1
  {
    if k > 0 {
      assert ReportsAt(es[1..], k - 1, n);
      CountAt(es[1..], k - 1, n);
    }
  }

  lemma {:induction false} OneIsSame(es: seq<Event>, i: int, j: int, n: nat)
    requires ReportsAt(es, i, n) && ReportsAt(es, j, n) && Reported(es)[n] == 1
    ensures i == j
  {
    if i == 0 && j > 0 {
      assert ReportsAt(es[1..], j - 1, n);
      CountAt(es[1..], j - 1, n);
    } else if j == 0 && i > 0 {
      assert ReportsAt(es[1..], i - 1, n);
      CountAt(es[1..], i - 1, n);
    } else if i > 0 && j > 0 {
      assert ReportsAt(es[1..], i - 1, n) && ReportsAt(es[1..], j - 1, n);
      CountAt(es[1..], i - 1, n);
      OneIsSame(es[1..], i - 1, j - 1, n);
    }
  }

  /** The first datum that a visit reports under an identifier is the one that a lookup finds:
      whichever datum of the identifier is reported, that one has been reported by then. */
  lemma {:induction false} FirstIsLookup(fields: seq<Field>, dir: Directory, id: Identifier, k: nat, s: Stored) returns (i: nat)
    requires AllComplete(fields) && Valid(Run(fields).0, dir) && dir[[]] == 0
    requires Visit(Run(fields).0, dir, [], [], None, true).Some?
    requires s in Run(fields).1 && Id(s.field) == id && ReportsAt(Visit(Run(fields).0, dir, [], [], None, true).value, k, s.node)
    ensures Lookup(Run(fields).0, 0, id).Found?
    ensures i <= k && ReportsAt(Visit(Run(fields).0, dir, [], [], None, true).value, i, Lookup(Run(fields).0, 0, id).node)
  {
    hide Run, Add, Ordered, Injective, Visit, Lookup, Latest;
    var (m, stored) := Run(fields);
    var es := Visit(m, dir, [], [], None, true).value;
    LookupIsLatest(fields, id);
    var j := LatestIsAt(stored, id);
    var x :| 0 <= x < |stored| && stored[x] == s;
    if x == j {
      i := k;
    } else {
      RunOrder(fields, dir, x, j);
      SameBranch(s.field, stored[j].field);
      var a, b :| a < b && ReportsAt(es, a, stored[j].node) && ReportsAt(es, b, s.node);
      RunVisits(fields, dir);
      OneIsSame(es, b, k, s.node);
      i := a;
    }
  }

  /** After any run of named fields a visit reports the index of every stored field exactly
      once, before the data of it, and no other index. */
  lemma {:induction false} RunIndexes(fields: seq<Field>, dir: Directory)
    requires AllComplete(fields) && Valid(Run(fields).0, dir) && dir[[]] == 0
    ensures var (m, stored) := Run(fields);
            && Visit(m, dir, [], [], None, true).Some?
            && var es := Visit(m, dir, [], [], None, true).value;
               && IndexFirst(es, None) && IndexesOnce(es) && IndexesPlaced(m, dir, [], es)
               && (forall s :: s in stored ==> s.field.index in dir && exists i :: IndexAt(es, i, dir[s.field.index]))
               && (forall i, n: nat :: IndexAt(es, i, n) ==> exists s :: s in stored && s.field.index in dir && dir[s.field.index] == n)
  {
    hide Run, Add, Ordered, Injective, Visit, Files, DataBelow, Data, Marks, Indexes, IndexFirst, IndexesOnce, Complete, AllNamed, Marked, IndexAt;
    var (m, stored) := Run(fields);
    RunVisits(fields, dir);
    RunNamed(fields, dir);
    var dir' := RunHolds(fields);
    SameBelow(m, dir, dir');
    Basics(m, dir, stored);
    StoredAreFields(fields);
    VisitIndexFirst(m, dir, [], [], None, true);
    VisitOnce(m, dir, [], [], None, true);
    VisitIndexesPlaced(m, dir, [], [], None, [], true);
    var es := Visit(m, dir, [], [], None, true).value;
    forall s | s in stored
      ensures s.field.index in dir && exists i :: IndexAt(es, i, dir[s.field.index])
    {
      assert Complete(s.field);
      OwnIndex(s.field);
      MarkedIff(m, dir, stored, s.field.index);
      assert IndexOn(s.field, s.field.index);
      IndexIsVisited(m, dir, [], [], None, s.field.index);
    }
    forall i, n: nat | IndexAt(es, i, n)
      ensures exists s :: s in stored && s.field.index in dir && dir[s.field.index] == n
    {
      IndexOfStored(m, dir, stored, es, i, n);
    }
  }

  lemma {:induction false} IndexOfStored(m: Memory, dir: Directory, stored: seq<Stored>, es: seq<Event>, i: int, n: nat)
    requires Holds(m, dir, stored) && IndexesPlaced(m, dir, [], es) && IndexAt(es, i, n)
    ensures exists s :: s in stored && s.field.index in dir && dir[s.field.index] == n
  {
    hide Ordered, Injective, Files, DataBelow, Data, Marks, Indexes, Marked;
    assert es[i] in es;
    var q :| IndexPlaced(m, dir, [], q, es[i]);
    Basics(m, dir, stored);
    MarkedIff(m, dir, stored, q);
  }
}
