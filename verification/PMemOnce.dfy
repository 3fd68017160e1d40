/** What each operation adds below the branches of the tree: an insertion that returns adds
    its data node once, and nothing else adds any. */
module PMemOnce {
  import opened Wrappers
  import opened Keys
  import opened PMemTree
  import opened PMemVisit

  // ----- The sub-nodes of a kind after a push -----

  lemma {:induction false} NewestFirstFrame(m: Memory, m': Memory, nodes: seq<nat>, branches: bool)
    requires Within(m, nodes) && Within(m', nodes) && Extends(m, m')
    ensures NewestFirst(m', nodes, branches) == NewestFirst(m, nodes, branches)
    decreases |nodes|
  {
    if nodes != [] {
      NewestFirstFrame(m, m', nodes[..|nodes| - 1], branches);
    }
  }

  lemma {:induction false} NewestFirstPush(m: Memory, m': Memory, nodes: seq<nat>, c: nat, branches: bool)
    requires Within(m, nodes) && Within(m', nodes + [c]) && c < |m'| && Extends(m, m')
    ensures NewestFirst(m', nodes + [c], branches) ==
            (if m'[c].Branching? == branches then [c] else []) + NewestFirst(m, nodes, branches)
  {
    assert (nodes + [c])[..|nodes|] == nodes && (nodes + [c])[|nodes|] == c;
    Still(m', nodes, c);
    NewestFirstFrame(m, m', nodes, branches);
  }

  lemma {:induction false} Still(m: Memory, nodes: seq<nat>, c: nat)
    requires Within(m, nodes + [c])
    ensures Within(m, nodes)
  {
    forall i | 0 <= i < |nodes|
      ensures nodes[i] < |m|
    {
      assert (nodes + [c])[i] == nodes[i];
    }
  }

  predicate Apart(m: Memory, nodes: seq<nat>)
    requires Within(m, nodes)
  {
    forall i, j :: 0 <= i < j < |nodes| ==> m[nodes[i]].kv != m[nodes[j]].kv
  }

  lemma {:induction false} SubtreesApart(m: Memory, nodes: seq<nat>)
    requires Within(m, nodes) && Unmixed(m, nodes)
    ensures Apart(m, NewestFirst(m, nodes, true))
    decreases |nodes|
  {
    if nodes != [] {
      var init, c := nodes[..|nodes| - 1], nodes[|nodes| - 1];
      assert Unmixed(m, init);
      SubtreesApart(m, init);
      var rest := NewestFirst(m, init, true);
      forall j | 0 <= j < |rest| && m[c].Branching?
        ensures m[c].kv != m[rest[j]].kv
      {
        assert rest[j] in rest;
        var k :| 0 <= k < |init| && init[k] == rest[j];
        assert nodes[k] == rest[j];
      }
    }
  }

  // ----- What each operation adds below a path -----

  /** Some of the nodes bears this key and value. */
  predicate Bears(m: Memory, nodes: seq<nat>, kv: Pair)
    requires Within(m, nodes)
  {
    exists i :: 0 <= i < |nodes| && m[nodes[i]].kv == kv
  }

  lemma {:induction false} BearsStep(m: Memory, nodes: seq<nat>, kv: Pair)
    requires Within(m, nodes) && nodes != []
    ensures Within(m, nodes[1..])
    ensures Bears(m, nodes, kv) <==> m[nodes[0]].kv == kv || Bears(m, nodes[1..], kv)
    ensures Apart(m, nodes) ==> Apart(m, nodes[1..]) && !Bears(m, nodes[1..], m[nodes[0]].kv)
  {
    if Bears(m, nodes, kv) {
      var i :| 0 <= i < |nodes| && m[nodes[i]].kv == kv;
      assert i > 0 ==> nodes[1..][i - 1] == nodes[i];
    }
    if Bears(m, nodes[1..], kv) {
      var i :| 0 <= i < |nodes[1..]| && m[nodes[1..][i]].kv == kv;
      assert nodes[i + 1] == nodes[1..][i];
    }
  }

  lemma {:induction false} PrefixStep(r: Identifier, kv: Pair, p: Identifier)
    ensures r + [kv] <= p <==> r < p && p[|r|] == kv
  {
    if r < p && p[|r|] == kv {
      assert p[..|r| + 1] == r + [kv];
    }
    if r + [kv] <= p {
      assert p[|r|] == (r + [kv])[|r|];
      assert p[..|r|] == (r + [kv])[..|r|] == r;
    }
  }

  /** A sub-branch leads from a proper prefix of a path to the path. */
  lemma {:induction false} OnTheWay(m: Memory, dir: Directory, p: Identifier, r: Identifier)
    requires Valid(m, dir) && p in dir && r in dir && r < p
    ensures Bears(m, NewestFirst(m, m[dir[r]].nodes, true), p[|r|])
  {
    hide Injective, Lists, Unmixed;
    PrefixStep(r, p[|r|], p);
    var q := r + [p[|r|]];
    assert q[..|q| - 1] == r;
    Prefixes(m, dir, q, p);
    assert Hangs(m, dir, q);
    var subtrees := NewestFirst(m, m[dir[r]].nodes, true);
    assert dir[q] in subtrees;
    var i :| 0 <= i < |subtrees| && subtrees[i] == dir[q];
  }

  lemma {:induction false} PushNodes(m: Memory, dir: Directory, p: Identifier, d: nat, r: Identifier)
    requires Valid(m, dir) && p in dir && r in dir && d < |m| && m[d].DataNode? && Valid(Push(m, dir[p], d), dir)
    ensures var m' := Push(m, dir[p], d);
            && NewestFirst(m', m'[dir[r]].nodes, true) == NewestFirst(m, m[dir[r]].nodes, true)
            && NewestFirst(m', m'[dir[r]].nodes, false) == (if r == p then [d] else []) + NewestFirst(m, m[dir[r]].nodes, false)
  {
    hide Ordered, Injective;
    var m', nodes := Push(m, dir[p], d), m[dir[r]].nodes;
    assert Extends(m, m');
    SamePath(dir, r, p);
    if r == p {
      NewestFirstPush(m, m', nodes, d, true);
      NewestFirstPush(m, m', nodes, d, false);
    } else {
      NewestFirstFrame(m, m', nodes, true);
      NewestFirstFrame(m, m', nodes, false);
    }
  }

  /** Pushing a data node adds it below the prefixes of its branch's path, and nowhere else. */
  lemma {:induction false} PushBelow(m: Memory, dir: Directory, p: Identifier, d: nat, r: Identifier)
    requires Valid(m, dir) && p in dir && r in dir && d < |m| && m[d].DataNode? && Valid(Push(m, dir[p], d), dir)
    ensures DataBelow(Push(m, dir[p], d), dir, r) == DataBelow(m, dir, r) + if r <= p then multiset{d} else multiset{}
    decreases |m| - dir[r], |m[dir[r]].nodes| + 1
  {
    hide Ordered, Injective, DataInTrees, Unmixed, NewestFirst, Apart, Bears;
    PushNodes(m, dir, p, d, r);
    UnmixedAt(m, dir, r);
    SubtreesApart(m, m[dir[r]].nodes);
    var leaves := NewestFirst(m, m[dir[r]].nodes, false);
    assert multiset([d] + leaves) == multiset{d} + multiset(leaves) && [] + leaves == leaves;
    if r < p {
      OnTheWay(m, dir, p, r);
    }
    PushInTrees(m, dir, p, d, r, NewestFirst(m, m[dir[r]].nodes, true));
  }

  lemma {:induction false} UnmixedAt(m: Memory, dir: Directory, r: Identifier)
    requires Valid(m, dir) && r in dir
    ensures Unmixed(m, m[dir[r]].nodes)
  {
  }

  lemma {:induction false} PushInTrees(m: Memory, dir: Directory, p: Identifier, d: nat, r: Identifier, subtrees: seq<nat>)
    requires Valid(m, dir) && p in dir && r in dir && d < |m| && m[d].DataNode? && Valid(Push(m, dir[p], d), dir)
    requires Subtrees(m, dir, r, subtrees) && Within(m, subtrees) && Apart(m, subtrees)
    ensures Subtrees(Push(m, dir[p], d), dir, r, subtrees)
    ensures DataInTrees(Push(m, dir[p], d), dir, r, subtrees) == DataInTrees(m, dir, r, subtrees)
         + if r < p && Bears(m, subtrees, p[|r|]) then multiset{d} else multiset{}
    decreases |m| - dir[r], |subtrees|
  {
    hide Ordered, Injective, DataBelow, Apart, Bears;
    var m' := Push(m, dir[p], d);
    PushSubtrees(m, dir, p, d, r, subtrees);
    if subtrees != [] {
      FirstSubtree(m, dir, r, subtrees);
      var q := r + [m[subtrees[0]].kv];
      PushBelow(m, dir, p, d, q);
      if r < p {
        BearsStep(m, subtrees, p[|r|]);
      } else {
        BearsStep(m, subtrees, ("", ""));
      }
      PrefixStep(r, m[subtrees[0]].kv, p);
      PushInTrees(m, dir, p, d, r, subtrees[1..]);
    } else {
      NoneBears(m);
    }
  }

  lemma {:induction false} NoneBears(m: Memory)
    ensures forall kv :: !Bears(m, [], kv)
  {
  }

  lemma {:induction false} PushSubtrees(m: Memory, dir: Directory, p: Identifier, d: nat, r: Identifier, subtrees: seq<nat>)
    requires Valid(m, dir) && p in dir && r in dir && d < |m| && m[d].DataNode? && Valid(Push(m, dir[p], d), dir)
    requires Subtrees(m, dir, r, subtrees)
    ensures Subtrees(Push(m, dir[p], d), dir, r, subtrees)
  {
    hide Ordered, Injective;
  }

  lemma {:induction false} AlikeBelow(m: Memory, dir: Directory, m': Memory, r: Identifier)
    requires Valid(m, dir) && r in dir && Valid(m', dir) && Alike(m, m')
    ensures DataBelow(m', dir, r) == DataBelow(m, dir, r)
    decreases |m| - dir[r], |m[dir[r]].nodes| + 1
  {
    hide Ordered, Injective, DataInTrees, NewestFirst;
    var nodes := m[dir[r]].nodes;
    assert Extends(m, m');
    NewestFirstFrame(m, m', nodes, true);
    NewestFirstFrame(m, m', nodes, false);
    AlikeInTrees(m, dir, m', r, NewestFirst(m, nodes, true));
  }

  lemma {:induction false} AlikeInTrees(m: Memory, dir: Directory, m': Memory, r: Identifier, subtrees: seq<nat>)
    requires Valid(m, dir) && r in dir && Valid(m', dir) && Alike(m, m') && Subtrees(m, dir, r, subtrees)
    ensures Subtrees(m', dir, r, subtrees)
    ensures DataInTrees(m', dir, r, subtrees) == DataInTrees(m, dir, r, subtrees)
    decreases |m| - dir[r], |subtrees|
  {
    hide Ordered, Injective, DataBelow;
    if subtrees != [] {
      FirstSubtree(m, dir, r, subtrees);
      AlikeBelow(m, dir, m', r + [m[subtrees[0]].kv]);
      AlikeInTrees(m, dir, m', r, subtrees[1..]);
    }
  }

  lemma {:induction false} GrowNodes(m: Memory, dir: Directory, p: Identifier, kv: Pair, r: Identifier)
    requires Valid(m, dir) && p in dir && r in dir && p + [kv] !in dir && Valid(Grow(m, dir[p], kv), dir[p + [kv] := |m|])
    ensures var m' := Grow(m, dir[p], kv);
            && NewestFirst(m', m'[dir[r]].nodes, true) == (if r == p then [|m|] else []) + NewestFirst(m, m[dir[r]].nodes, true)
            && NewestFirst(m', m'[dir[r]].nodes, false) == NewestFirst(m, m[dir[r]].nodes, false)
  {
    hide Ordered, Injective;
    var m', nodes := Grow(m, dir[p], kv), m[dir[r]].nodes;
    assert Extends(m, m');
    SamePath(dir, r, p);
    if r == p {
      NewestFirstPush(m, m', nodes, |m|, true);
      NewestFirstPush(m, m', nodes, |m|, false);
    } else {
      NewestFirstFrame(m, m', nodes, true);
      NewestFirstFrame(m, m', nodes, false);
    }
  }

  /** A new branch adds no data. */
  lemma {:induction false} GrowBelow(m: Memory, dir: Directory, p: Identifier, kv: Pair, r: Identifier)
    requires Valid(m, dir) && p in dir && r in dir && p + [kv] !in dir && Valid(Grow(m, dir[p], kv), dir[p + [kv] := |m|])
    ensures DataBelow(Grow(m, dir[p], kv), dir[p + [kv] := |m|], r) == DataBelow(m, dir, r)
    decreases |m| - dir[r], |m[dir[r]].nodes| + 1
  {
    hide Ordered, Injective, NewestFirst, DataInTrees;
    var m', dir' := Grow(m, dir[p], kv), dir[p + [kv] := |m|];
    var subtrees := NewestFirst(m, m[dir[r]].nodes, true);
    GrowNodes(m, dir, p, kv, r);
    GrowInTrees(m, dir, p, kv, r, subtrees);
    assert [] + subtrees == subtrees;
    if r == p {
      NewTree(m, dir, p, kv, subtrees);
    }
  }

  /** The new branch is a first subtree without data. */
  lemma {:induction false} NewTree(m: Memory, dir: Directory, p: Identifier, kv: Pair, subtrees: seq<nat>)
    requires Valid(m, dir) && p in dir && p + [kv] !in dir && Valid(Grow(m, dir[p], kv), dir[p + [kv] := |m|])
    requires Subtrees(Grow(m, dir[p], kv), dir[p + [kv] := |m|], p, subtrees)
    ensures var m', dir' := Grow(m, dir[p], kv), dir[p + [kv] := |m|];
            && Subtrees(m', dir', p, [|m|] + subtrees)
            && DataInTrees(m', dir', p, [|m|] + subtrees) == DataInTrees(m', dir', p, subtrees)
  {
    hide Ordered, Injective, DataBelow, DataInTrees, Subtrees;
    var m', dir' := Grow(m, dir[p], kv), dir[p + [kv] := |m|];
    NewIsBranch(m, dir, p, kv);
    NoNodes(m', dir', p + [kv]);
    FirstEmpty(m', dir', p, |m|, subtrees);
  }

  lemma {:induction false} NewIsBranch(m: Memory, dir: Directory, p: Identifier, kv: Pair)
    requires Valid(m, dir) && p in dir && p + [kv] !in dir
    ensures var m' := Grow(m, dir[p], kv); |m| in m'[dir[p]].nodes && |m| < |m'| && m'[|m|] == Branching(kv, [], false)
  {
  }

  lemma {:induction false} FirstEmpty(m: Memory, dir: Directory, p: Identifier, c: nat, subtrees: seq<nat>)
    requires Valid(m, dir) && p in dir && Subtrees(m, dir, p, subtrees)
    requires c < |m| && c in m[dir[p]].nodes && m[c].Branching?
    requires p + [m[c].kv] in dir && DataBelow(m, dir, p + [m[c].kv]) == multiset{}
    ensures Subtrees(m, dir, p, [c] + subtrees)
    ensures DataInTrees(m, dir, p, [c] + subtrees) == DataInTrees(m, dir, p, subtrees)
  {
    hide Valid, DataBelow;
    var all := [c] + subtrees;
    assert all[0] == c && all[1..] == subtrees;
    FirstSubtree(m, dir, p, all);
  }

  lemma {:induction false} NoNodes(m: Memory, dir: Directory, p: Identifier)
    requires Valid(m, dir) && p in dir && m[dir[p]].nodes == []
    ensures DataBelow(m, dir, p) == multiset{}
  {
    hide Ordered, Injective;
  }

  lemma {:induction false} GrowInTrees(m: Memory, dir: Directory, p: Identifier, kv: Pair, r: Identifier, subtrees: seq<nat>)
    requires Valid(m, dir) && p in dir && r in dir && p + [kv] !in dir && Valid(Grow(m, dir[p], kv), dir[p + [kv] := |m|])
    requires Subtrees(m, dir, r, subtrees)
    ensures Subtrees(Grow(m, dir[p], kv), dir[p + [kv] := |m|], r, subtrees)
    ensures DataInTrees(Grow(m, dir[p], kv), dir[p + [kv] := |m|], r, subtrees) == DataInTrees(m, dir, r, subtrees)
    decreases |m| - dir[r], |subtrees|
  {
    hide Ordered, Injective, DataBelow;
    if subtrees != [] {
      FirstSubtree(m, dir, r, subtrees);
      GrowBelow(m, dir, p, kv, r + [m[subtrees[0]].kv]);
      GrowInTrees(m, dir, p, kv, r, subtrees[1..]);
    }
  }

  // ----- Whole operations -----

  /** A tree has one directory. */
  lemma {:induction false} OneDirectory(m: Memory, dir: Directory, dir': Directory, p: Identifier)
    requires Valid(m, dir) && Valid(m, dir') && dir[[]] == dir'[[]] && p in dir
    ensures p in dir' && dir'[p] == dir[p]
    decreases |p|
  {
    if p != [] {
      var init, kv := p[..|p| - 1], p[|p| - 1];
      assert Hangs(m, dir, p);
      OneDirectory(m, dir, dir', init);
      assert p == init + [kv];
      assert Lists(m, dir', init);
    }
  }

  lemma {:induction false} ChainBelow(m: Memory, dir: Directory, p: Identifier, id: Identifier) returns (dir': Directory)
    requires Valid(m, dir) && p in dir && (id != [] ==> Newest(m, m[dir[p]].nodes, id[0]).None?)
    ensures var (m', end) := Chain(m, dir[p], id);
            && Valid(m', dir') && Keeps(dir, dir') && p + id in dir' && dir'[p + id] == end
            && DataBelow(m', dir', []) == DataBelow(m, dir, [])
    decreases |id|
  {
    hide Ordered, Injective, Closed, DataBelow;
    if id == [] {
      dir' := dir;
      assert p + id == p;
    } else {
      GrowKeeps(m, dir, p, id[0]);
      GrowBelow(m, dir, p, id[0], []);
      var q := p + [id[0]];
      assert p + id == q + id[1..];
      dir' := ChainBelow(Grow(m, dir[p], id[0]), dir[q := |m|], q, id[1..]);
    }
  }

  /** Creating branches adds no data. */
  lemma {:induction false} CreateBelow(m: Memory, dir: Directory, p: Identifier, id: Identifier, dir': Directory)
    requires Valid(m, dir) && p in dir && Create(m, dir[p], id).Some?
    requires Valid(Create(m, dir[p], id).value.0, dir') && dir'[[]] == dir[[]]
    ensures DataBelow(Create(m, dir[p], id).value.0, dir', []) == DataBelow(m, dir, [])
  {
    hide Ordered, Injective, DataBelow, Closed, Chain;
    ReachIsDirectory(m, dir, p, id);
    match Reach(m, dir[p], id)
    case At(n) =>
      SameBelow(m, dir, dir');
    case Stops(n, rest) =>
      var dir2 := ChainBelow(m, dir, p + id[..|id| - |rest|], rest);
      SameBelow(Chain(m, n, rest).0, dir2, dir');
    case Blocked =>
  }

  /** An insertion that returns adds the data node once; one that throws adds none. */
  lemma {:induction false} InsertBelow(m: Memory, dir: Directory, p: Identifier, id: Identifier, d: nat, dir': Directory)
    requires Valid(m, dir) && p in dir && id != [] && d < |m| && m[d].DataNode?
    requires Valid(Insert(m, dir[p], id, d).0, dir') && dir'[[]] == dir[[]]
    ensures var r := Insert(m, dir[p], id, d);
            DataBelow(r.0, dir', []) == DataBelow(m, dir, []) + if r.1 then multiset{d} else multiset{}
  {
    hide Ordered, Injective, DataBelow, Closed, Create;
    var init := id[..|id| - 1];
    if Create(m, dir[p], init).Some? {
      var (m1, end) := Create(m, dir[p], init).value;
      var dir1 := CreateKeeps(m, dir, p, init);
      CreateBelow(m, dir, p, init, dir1);
      PushedBelow(m1, dir1, p + init, id, d);
      SameBelow(Insert(m, dir[p], id, d).0, dir1, dir');
    } else {
      SameBelow(m, dir, dir');
    }
  }

  lemma {:induction false} PushedBelow(m: Memory, dir: Directory, p: Identifier, id: Identifier, d: nat)
    requires Valid(m, dir) && p in dir && id != [] && d < |m| && m[d].DataNode?
    ensures m[d].kv == id[|id| - 1] && !HidesBranch(m, m[dir[p]].nodes, id[|id| - 1]) ==>
              && Valid(Push(m, dir[p], d), dir)
              && DataBelow(Push(m, dir[p], d), dir, []) == DataBelow(m, dir, []) + multiset{d}
  {
    hide Ordered, Injective, DataBelow;
    if m[d].kv == id[|id| - 1] && !HidesBranch(m, m[dir[p]].nodes, id[|id| - 1]) {
      PushKeeps(m, dir, p, d);
      PushBelow(m, dir, p, d, []);
    }
  }

  lemma {:induction false} SameBelow(m: Memory, dir: Directory, dir': Directory)
    requires Valid(m, dir) && Valid(m, dir') && dir[[]] == dir'[[]]
    ensures dir == dir' && DataBelow(m, dir, []) == DataBelow(m, dir', [])
  {
    hide Ordered, Injective;
    forall p | p in dir
      ensures p in dir' && dir'[p] == dir[p]
    {
      OneDirectory(m, dir, dir', p);
    }
    forall p | p in dir'
      ensures p in dir
    {
      OneDirectory(m, dir', dir, p);
    }
    assert dir == dir';
  }
}
