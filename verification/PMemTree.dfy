/** The tree in persistent memory: branching nodes hold pointers to their sub-nodes, which
    are only ever appended and are searched backwards, so that a newer data node masks an
    older one without overwriting it. */
module PMemTree {
  import opened Wrappers
  import opened Keys

  /** A pointer is an index of the memory. */
  datatype Node =
    | Branching(kv: Pair, nodes: seq<nat>, index: bool)
    | DataNode(kv: Pair, data: string)

  type Memory = seq<Node>
  type Identifier = seq<Pair>

  predicate Closed(m: Memory)
  {
    forall i :: 0 <= i < |m| && m[i].Branching? ==> Within(m, m[i].nodes)
  }

  predicate Within(m: Memory, nodes: seq<nat>)
  {
    forall i :: 0 <= i < |nodes| ==> nodes[i] < |m|
  }

  predicate IsBranch(m: Memory, at: nat)
  {
    at < |m| && m[at].Branching?
  }

  // ----- Searching -----

  /** The last of some sub-nodes that matches. */
  function Newest(m: Memory, nodes: seq<nat>, kv: Pair): (r: Option<nat>)
    requires Within(m, nodes)
    ensures r.Some? ==> r.value in nodes && m[r.value].kv == kv
    ensures r.None? ==> forall c :: c in nodes ==> m[c].kv != kv
  {
    if nodes == [] then None
    else
      var c := nodes[|nodes| - 1];
      if m[c].kv == kv then Some(c) else Newest(m, nodes[..|nodes| - 1], kv)
  }

  /** A data node, none, or a node of the other kind in the way, where the source throws. */
  datatype Outcome = Found(node: nat) | Missing | Clash

  /** `getDataNode`. */
  function Lookup(m: Memory, at: nat, id: Identifier): (r: Outcome)
    requires Closed(m) && IsBranch(m, at)
    ensures r.Found? ==> r.node < |m| && m[r.node].DataNode?
    decreases |id|
  {
    if id == [] then Missing
    else match Newest(m, m[at].nodes, id[0])
      case None => Missing
      case Some(c) =>
        if |id| == 1 then (if m[c].DataNode? then Found(c) else Clash)
        else if m[c].Branching? then Lookup(m, c, id[1..])
        else Clash
  }

  /** A branching node; where the path stops, with what is left of it; or a data node in the way. */
  datatype Reached = At(node: nat) | Stops(node: nat, rest: Identifier) | Blocked

  function Reach(m: Memory, at: nat, id: Identifier): (r: Reached)
    requires Closed(m) && IsBranch(m, at)
    ensures r.At? || r.Stops? ==> IsBranch(m, r.node)
    ensures r.Stops? ==> r.rest != [] && Newest(m, m[r.node].nodes, r.rest[0]).None?
    decreases |id|
  {
    if id == [] then At(at)
    else match Newest(m, m[at].nodes, id[0])
      case None => Stops(at, id)
      case Some(c) => if m[c].Branching? then Reach(m, c, id[1..]) else Blocked
  }

  // ----- Growing -----

  /** Nodes keep all but their sub-nodes, and the new ones are branches that are no index. */
  predicate Kept(m: Memory, m': Memory)
  {
    && |m| <= |m'|
    && (forall i :: 0 <= i < |m| && m[i].DataNode? ==> m'[i] == m[i])
    && (forall i :: 0 <= i < |m| && m[i].Branching? ==>
          m'[i].Branching? && m'[i].kv == m[i].kv && m'[i].index == m[i].index)
    && forall i :: |m| <= i < |m'| ==> m'[i].Branching? && !m'[i].index
  }

  function Push(m: Memory, at: nat, c: nat): (m': Memory)
    requires Closed(m) && IsBranch(m, at) && c < |m|
    ensures Closed(m') && |m'| == |m| && m'[at] == m[at].(nodes := m[at].nodes + [c])
    ensures forall i :: 0 <= i < |m| && i != at ==> m'[i] == m[i]
  {
    m[at := m[at].(nodes := m[at].nodes + [c])]
  }

  /** A new branching node below another. */
  function Grow(m: Memory, at: nat, kv: Pair): (m': Memory)
    requires Closed(m) && IsBranch(m, at)
    ensures Closed(m') && |m'| == |m| + 1 && m'[|m|] == Branching(kv, [], false)
    ensures m'[at] == m[at].(nodes := m[at].nodes + [|m|])
    ensures forall i :: 0 <= i < |m| && i != at ==> m'[i] == m[i]
  {
    Push(m + [Branching(kv, [], false)], at, |m|)
  }

  /** A chain of new branching nodes, and its end. */
  function Chain(m: Memory, at: nat, id: Identifier): (r: (Memory, nat))
    requires Closed(m) && IsBranch(m, at)
    ensures Closed(r.0) && IsBranch(r.0, r.1)
    ensures Kept(m, r.0)
    decreases |id|
  {
    if id == [] then (m, at) else Chain(Grow(m, at, id[0]), |m|, id[1..])
  }

  /** `getCreateBranchingNode`: nothing where the source throws. */
  function Create(m: Memory, at: nat, id: Identifier): (r: Option<(Memory, nat)>)
    requires Closed(m) && IsBranch(m, at)
    ensures r.Some? ==> Closed(r.value.0) && IsBranch(r.value.0, r.value.1)
    ensures r.Some? ==> Kept(m, r.value.0)
  {
    match Reach(m, at, id)
    case At(n) => Some((m, n))
    case Stops(n, rest) => Some(Chain(m, n, rest))
    case Blocked => None
  }

  /** Whether a sub-node of the other kind matches. */
  predicate HidesBranch(m: Memory, nodes: seq<nat>, kv: Pair)
    requires Within(m, nodes)
  {
    exists c :: c in nodes && m[c].kv == kv && m[c].Branching?
  }

  /** A new data node, not yet part of the tree. */
  function Allocate(m: Memory, kv: Pair, data: string): (m': Memory)
    requires Closed(m)
    ensures Closed(m')
  {
    m + [DataNode(kv, data)]
  }

  /** A branch whose axes are allocated is an index. */
  function Mark(m: Memory, at: nat): (m': Memory)
    requires Closed(m) && IsBranch(m, at)
    ensures Closed(m') && |m'| == |m| && m'[at] == m[at].(index := true)
  {
    m[at := m[at].(index := true)]
  }

  /** `insertDataNode`: the memory afterwards, and whether it returned.  The branches have
      been created even where a later check throws. */
  function Insert(m: Memory, at: nat, id: Identifier, d: nat): (r: (Memory, bool))
    requires Closed(m) && IsBranch(m, at) && id != [] && d < |m| && m[d].DataNode?
    ensures Closed(r.0)
    ensures Kept(m, r.0)
  {
    var last := |id| - 1;
    match Create(m, at, id[..last])
    case None => (m, false)
    case Some(created) =>
      var m' := created.0;
      if m'[d].kv != id[last] || HidesBranch(m', m'[created.1].nodes, id[last]) then (m', false)
      else (Push(m', created.1, d), true)
  }

  // ----- The directory: the branching nodes by their paths -----

  type Directory = map<Identifier, nat>

  /** Where a branching sub-node is, no other sub-node has its key and value. */
  predicate Unmixed(m: Memory, nodes: seq<nat>)
    requires Within(m, nodes)
  {
    forall i, j :: 0 <= i < |nodes| && 0 <= j < |nodes| && i != j && m[nodes[i]].Branching? ==>
      m[nodes[i]].kv != m[nodes[j]].kv
  }

  /** The branch at a path hangs below the branch at the path's parent. */
  predicate Hangs(m: Memory, dir: Directory, p: Identifier)
    requires p in dir
  {
    p != [] ==>
      && p[..|p| - 1] in dir && IsBranch(m, dir[p[..|p| - 1]]) && IsBranch(m, dir[p])
      && dir[p] in m[dir[p[..|p| - 1]]].nodes && m[dir[p]].kv == p[|p| - 1]
  }

  /** The sub-branches of the branch at a path are in the directory, at later addresses. */
  predicate Lists(m: Memory, dir: Directory, p: Identifier)
    requires p in dir && Closed(m) && IsBranch(m, dir[p])
  {
    forall c :: c in m[dir[p]].nodes && m[c].Branching? ==>
      c > dir[p] && p + [m[c].kv] in dir && dir[p + [m[c].kv]] == c
  }

  predicate Rooted(m: Memory, dir: Directory)
  {
    Closed(m) && [] in dir && forall p :: p in dir ==> IsBranch(m, dir[p])
  }

  predicate Ordered(m: Memory, dir: Directory)
    requires Rooted(m, dir)
  {
    forall p :: p in dir ==> Hangs(m, dir, p) && Lists(m, dir, p) && Unmixed(m, m[dir[p]].nodes)
  }

  predicate Injective(dir: Directory)
  {
    forall p, q :: p in dir && q in dir && dir[p] == dir[q] ==> p == q
  }

  predicate Valid(m: Memory, dir: Directory)
  {
    Rooted(m, dir) && Ordered(m, dir) && Injective(dir)
  }

  /** The data node that a lookup of an identifier finds. */
  function FileAt(m: Memory, root: nat, id: Identifier): Option<nat>
    requires Closed(m) && IsBranch(m, root)
  {
    match Lookup(m, root, id)
    case Found(n) => Some(n)
    case _ => None
  }

  /** Looking up an identifier is looking its last pair up in the branch of the others. */
  function Local(m: Memory, dir: Directory, id: Identifier): Option<nat>
    requires Valid(m, dir)
  {
    if id == [] || id[..|id| - 1] !in dir then None
    else
      var at := dir[id[..|id| - 1]];
      match Newest(m, m[at].nodes, id[|id| - 1])
      case Some(c) => if m[c].DataNode? then Some(c) else None
      case None => None
  }

  lemma {:induction false} NewestOfUnmixed(m: Memory, nodes: seq<nat>, c: nat)
    requires Within(m, nodes) && Unmixed(m, nodes) && c in nodes && m[c].Branching?
    ensures Newest(m, nodes, m[c].kv) == Some(c)
  {
    var i :| 0 <= i < |nodes| && nodes[i] == c;
    var n := Newest(m, nodes, m[c].kv).value;
    var j :| 0 <= j < |nodes| && nodes[j] == n;
  }

  /** A sub-branch is what a search for its key and value finds, and is in the directory. */
  lemma {:induction false} SubBranch(m: Memory, dir: Directory, p: Identifier, kv: Pair)
    requires Valid(m, dir) && p in dir
    ensures var found := Newest(m, m[dir[p]].nodes, kv);
            if p + [kv] in dir then found == Some(dir[p + [kv]]) && dir[p + [kv]] > dir[p]
            else found.Some? ==> m[found.value].DataNode?
  {
    var q := p + [kv];
    assert q[..|q| - 1] == p;
    if q in dir {
      assert Hangs(m, dir, q);
      NewestOfUnmixed(m, m[dir[p]].nodes, dir[q]);
    }
    assert Lists(m, dir, p);
  }

  lemma {:induction false} LookupIsLocal(m: Memory, dir: Directory, p: Identifier, id: Identifier)
    requires Valid(m, dir) && p in dir && id != []
    ensures FileAt(m, dir[p], id) == Local(m, dir, p + id)
    decreases |id|
  {
    hide Ordered, Injective, Closed;
    var whole := p + id;
    var init := whole[..|whole| - 1];
    if |id| == 1 {
      assert init == p;
    } else {
      var q := p + [id[0]];
      assert whole == q + id[1..] && q <= init;
      SubBranch(m, dir, p, id[0]);
      if q in dir {
        LookupIsLocal(m, dir, q, id[1..]);
      } else if init in dir {
        Prefixes(m, dir, q, init);
      }
    }
  }

  /** The directory holds the prefixes of its paths. */
  lemma {:induction false} Prefixes(m: Memory, dir: Directory, q: Identifier, p: Identifier)
    requires Valid(m, dir) && p in dir && q <= p
    ensures q in dir
    decreases |p|
  {
    if |q| < |p| {
      assert Hangs(m, dir, p);
      Prefixes(m, dir, q, p[..|p| - 1]);
    } else {
      assert q == p;
    }
  }

  /** `Reach` follows the directory. */
  lemma {:induction false} ReachIsDirectory(m: Memory, dir: Directory, p: Identifier, id: Identifier)
    requires Valid(m, dir) && p in dir
    ensures match Reach(m, dir[p], id)
            case At(n) => p + id in dir && dir[p + id] == n
            case Stops(n, rest) =>
              && |rest| <= |id| && p + id !in dir
              && var q := p + id[..|id| - |rest|]; q in dir && dir[q] == n && q + rest == p + id
            case Blocked => p + id !in dir
    decreases |id|
  {
    hide Ordered, Injective, Closed;
    if id == [] {
      assert p + id == p;
    } else {
      var q := p + [id[0]];
      SubBranch(m, dir, p, id[0]);
      assert p + id == q + id[1..];
      if q in dir {
        ReachIsDirectory(m, dir, q, id[1..]);
        var r := Reach(m, dir[q], id[1..]);
        if r.Stops? {
          assert id[..|id| - |r.rest|] == [id[0]] + id[1..][..|id[1..]| - |r.rest|];
          assert p + id[..|id| - |r.rest|] == q + id[1..][..|id[1..]| - |r.rest|];
        }
      } else {
        if p + id in dir {
          Prefixes(m, dir, q, p + id);
        }
        assert p + id[..0] == p;
      }
    }
  }

  // ----- What growing keeps -----

  /** A search sees only the keys and values of the nodes that it searches. */
  lemma {:induction false} NewestFrame(m: Memory, m': Memory, nodes: seq<nat>, kv: Pair)
    requires Within(m, nodes) && Within(m', nodes)
    requires forall i :: 0 <= i < |nodes| ==> m'[nodes[i]].kv == m[nodes[i]].kv
    ensures Newest(m', nodes, kv) == Newest(m, nodes, kv)
    decreases |nodes|
  {
    if nodes != [] {
      NewestFrame(m, m', nodes[..|nodes| - 1], kv);
    }
  }

  /** After a push, a search finds the pushed node where it matches. */
  lemma {:induction false} NewestOfPush(m: Memory, m': Memory, nodes: seq<nat>, c: nat, kv: Pair)
    requires Within(m, nodes) && Within(m', nodes) && c < |m'|
    requires forall i :: 0 <= i < |nodes| ==> m'[nodes[i]].kv == m[nodes[i]].kv
    ensures Newest(m', nodes + [c], kv) == if m'[c].kv == kv then Some(c) else Newest(m, nodes, kv)
  {
    assert (nodes + [c])[..|nodes|] == nodes && (nodes + [c])[|nodes|] == c;
    NewestFrame(m, m', nodes, kv);
  }

  /** The same nodes up to the sub-nodes of one, perhaps with more nodes behind them. */
  predicate Extends(m: Memory, m': Memory)
  {
    |m| <= |m'| && forall i :: 0 <= i < |m| ==> m'[i].kv == m[i].kv && (m'[i].Branching? <==> m[i].Branching?)
  }

  lemma {:induction false} UnmixedFrame(m: Memory, m': Memory, nodes: seq<nat>)
    requires Within(m, nodes) && Within(m', nodes) && Extends(m, m') && Unmixed(m, nodes)
    ensures Unmixed(m', nodes)
  {
    forall i, j | 0 <= i < |nodes| && 0 <= j < |nodes| && i != j && m'[nodes[i]].Branching?
      ensures m'[nodes[i]].kv != m'[nodes[j]].kv
    {
      assert m[nodes[i]].kv != m[nodes[j]].kv;
    }
  }

  /** Adding a sub-node that clashes with none keeps the sub-nodes unmixed. */
  lemma {:induction false} UnmixedPush(m: Memory, m': Memory, nodes: seq<nat>, c: nat)
    requires Within(m, nodes) && Within(m', nodes) && c < |m'| && Extends(m, m') && Unmixed(m, nodes)
    requires forall x :: x in nodes && (m[x].Branching? || m'[c].Branching?) ==> m[x].kv != m'[c].kv
    ensures Unmixed(m', nodes + [c])
  {
    var all := nodes + [c];
    forall i, j | 0 <= i < |all| && 0 <= j < |all| && i != j && m'[all[i]].Branching?
      ensures m'[all[i]].kv != m'[all[j]].kv
    {
      if i < |nodes| { assert all[i] == nodes[i] && nodes[i] in nodes; }
      if j < |nodes| { assert all[j] == nodes[j] && nodes[j] in nodes; }
    }
  }

  /** A new branch below a path joins the directory. */
  lemma {:induction false} GrowKeeps(m: Memory, dir: Directory, p: Identifier, kv: Pair)
    requires Valid(m, dir) && p in dir && Newest(m, m[dir[p]].nodes, kv).None?
    ensures p + [kv] !in dir
    ensures Valid(Grow(m, dir[p], kv), dir[p + [kv] := |m|])
  {
    hide Ordered, Injective, Rooted;
    SubBranch(m, dir, p, kv);
    GrowRooted(m, dir, p, kv);
    GrowOrdered(m, dir, p, kv);
  }

  lemma {:induction false} GrowOrdered(m: Memory, dir: Directory, p: Identifier, kv: Pair)
    requires Valid(m, dir) && p in dir && p + [kv] !in dir && Newest(m, m[dir[p]].nodes, kv).None?
    requires Rooted(Grow(m, dir[p], kv), dir[p + [kv] := |m|])
    ensures Ordered(Grow(m, dir[p], kv), dir[p + [kv] := |m|])
  {
    hide Injective, Hangs, Lists, Unmixed;
    var m', q := Grow(m, dir[p], kv), p + [kv];
    var dir' := dir[q := |m|];
    forall r | r in dir'
      ensures Hangs(m', dir', r) && Lists(m', dir', r) && Unmixed(m', m'[dir'[r]].nodes)
    {
      if r == q {
        NewBranch(m, dir, p, kv);
      } else {
        GrowUnmixed(m, dir, p, kv, r);
        GrowLists(m, dir, p, kv, r);
        GrowHangs(m, dir, p, kv, r);
      }
    }
  }

  lemma {:induction false} NewBranch(m: Memory, dir: Directory, p: Identifier, kv: Pair)
    requires Valid(m, dir) && p in dir && p + [kv] !in dir
    ensures var m', dir', q := Grow(m, dir[p], kv), dir[p + [kv] := |m|], p + [kv];
            Hangs(m', dir', q) && Lists(m', dir', q) && Unmixed(m', m'[dir'[q]].nodes)
  {
    hide Ordered, Injective, Closed;
    var q := p + [kv];
    assert q[..|q| - 1] == p && q[|q| - 1] == kv;
    assert IsBranch(m, dir[p]);
  }

  lemma {:induction false} GrowRooted(m: Memory, dir: Directory, p: Identifier, kv: Pair)
    requires Valid(m, dir) && p in dir
    ensures Rooted(Grow(m, dir[p], kv), dir[p + [kv] := |m|]) && Injective(dir[p + [kv] := |m|])
  {
    hide Ordered;
    var m', dir' := Grow(m, dir[p], kv), dir[p + [kv] := |m|];
    forall r | r in dir'
      ensures IsBranch(m', dir'[r])
    {
      if r != p + [kv] {
        assert IsBranch(m, dir[r]);
      }
    }
  }

  lemma {:induction false} GrowUnmixed(m: Memory, dir: Directory, p: Identifier, kv: Pair, r: Identifier)
    requires Valid(m, dir) && p in dir && Newest(m, m[dir[p]].nodes, kv).None? && r in dir
    ensures var m' := Grow(m, dir[p], kv); Within(m', m'[dir[r]].nodes) && Unmixed(m', m'[dir[r]].nodes)
  {
    var at, m' := dir[p], Grow(m, dir[p], kv);
    assert Extends(m, m');
    assert Unmixed(m, m[dir[r]].nodes);
    hide Ordered, Unmixed;
    SamePath(dir, r, p);
    if r == p {
      UnmixedPush(m, m', m[at].nodes, |m|);
    } else {
      UnmixedFrame(m, m', m[dir[r]].nodes);
    }
  }

  lemma {:induction false} GrowLists(m: Memory, dir: Directory, p: Identifier, kv: Pair, r: Identifier)
    requires Valid(m, dir) && p in dir && p + [kv] !in dir && r in dir
    ensures Lists(Grow(m, dir[p], kv), dir[p + [kv] := |m|], r)
  {
    hide Ordered, Injective;
    var m', dir' := Grow(m, dir[p], kv), dir[p + [kv] := |m|];
    ListsAt(m, dir, r);
    SamePath(dir, r, p);
    forall c | c in m'[dir'[r]].nodes && m'[c].Branching?
      ensures c > dir'[r] && r + [m'[c].kv] in dir' && dir'[r + [m'[c].kv]] == c
    {
      if r == p && c == |m| {
      } else {
        assert c in m[dir[r]].nodes;
      }
    }
  }

  lemma {:induction false} ListsAt(m: Memory, dir: Directory, r: Identifier)
    requires Valid(m, dir) && r in dir
    ensures Lists(m, dir, r) && Within(m, m[dir[r]].nodes)
  {
  }

  lemma {:induction false} GrowHangs(m: Memory, dir: Directory, p: Identifier, kv: Pair, r: Identifier)
    requires Valid(m, dir) && p in dir && p + [kv] !in dir && r in dir
    ensures Hangs(Grow(m, dir[p], kv), dir[p + [kv] := |m|], r)
  {
    hide Ordered, Injective;
    HangsAt(m, dir, r);
    var m', dir' := Grow(m, dir[p], kv), dir[p + [kv] := |m|];
    if r != [] {
      var parent := r[..|r| - 1];
      assert dir'[parent] == dir[parent] && dir'[r] == dir[r];
      assert m'[dir[r]].kv == m[dir[r]].kv;
      assert dir[r] in m'[dir[parent]].nodes;
    }
  }

  lemma {:induction false} HangsAt(m: Memory, dir: Directory, r: Identifier)
    requires Valid(m, dir) && r in dir
    ensures Hangs(m, dir, r)
  {
  }

  lemma {:induction false} GrowLocal(m: Memory, dir: Directory, p: Identifier, kv: Pair, id: Identifier)
    requires Valid(m, dir) && p in dir && p + [kv] !in dir && Newest(m, m[dir[p]].nodes, kv).None?
    requires Valid(Grow(m, dir[p], kv), dir[p + [kv] := |m|])
    ensures Local(Grow(m, dir[p], kv), dir[p + [kv] := |m|], id) == Local(m, dir, id)
  {
    hide Ordered, Injective;
    var m', dir' := Grow(m, dir[p], kv), dir[p + [kv] := |m|];
    if id != [] {
      var init, last := id[..|id| - 1], id[|id| - 1];
      if init == p {
        NewestOfPush(m, m', m[dir[p]].nodes, |m|, last);
      } else if init in dir {
        SamePath(dir, init, p);
        NewestFrame(m, m', m[dir[init]].nodes, last);
      } else if init == p + [kv] {
        assert Newest(m', [], last).None?;
      }
    }
  }

  lemma {:induction false} SamePath(dir: Directory, p: Identifier, q: Identifier)
    requires Injective(dir) && p in dir && q in dir
    ensures dir[p] == dir[q] <==> p == q
  {
  }

  /** Pushing a data node where no branch matches makes it the file of its path, and
      changes no other. */
  lemma {:induction false} PushKeeps(m: Memory, dir: Directory, p: Identifier, d: nat)
    requires Valid(m, dir) && p in dir && d < |m| && m[d].DataNode? && !HidesBranch(m, m[dir[p]].nodes, m[d].kv)
    ensures Valid(Push(m, dir[p], d), dir)
  {
    var m' := Push(m, dir[p], d);
    assert Rooted(m', dir);
    forall r | r in dir
      ensures Hangs(m', dir, r) && Lists(m', dir, r) && Unmixed(m', m'[dir[r]].nodes)
    {
      hide *;
      PushAt(m, dir, p, d, r);
    }
  }

  lemma {:induction false} PushAt(m: Memory, dir: Directory, p: Identifier, d: nat, r: Identifier)
    requires Valid(m, dir) && p in dir && d < |m| && m[d].DataNode? && !HidesBranch(m, m[dir[p]].nodes, m[d].kv) && r in dir
    requires Rooted(Push(m, dir[p], d), dir)
    ensures var m' := Push(m, dir[p], d); Hangs(m', dir, r) && Lists(m', dir, r) && Unmixed(m', m'[dir[r]].nodes)
  {
    hide Ordered, Unmixed;
    var m' := Push(m, dir[p], d);
    assert Extends(m, m');
    AtPath(m, dir, r);
    if r == p {
      UnmixedPush(m, m', m[dir[p]].nodes, d);
    } else {
      SamePath(dir, r, p);
      UnmixedFrame(m, m', m[dir[r]].nodes);
    }
    assert forall c :: c in m'[dir[r]].nodes && m'[c].Branching? ==> c in m[dir[r]].nodes && m[c].Branching?;
  }

  lemma {:induction false} PushLocal(m: Memory, dir: Directory, p: Identifier, d: nat, id: Identifier)
    requires Valid(m, dir) && p in dir && d < |m| && m[d].DataNode? && Valid(Push(m, dir[p], d), dir)
    ensures Local(Push(m, dir[p], d), dir, id) == if id == p + [m[d].kv] then Some(d) else Local(m, dir, id)
  {
    hide Ordered, Injective;
    var m' := Push(m, dir[p], d);
    if id != [] {
      var init, last := id[..|id| - 1], id[|id| - 1];
      assert id == init + [last];
      if init == p {
        NewestOfPush(m, m', m[dir[p]].nodes, d, last);
      } else if init in dir {
        SamePath(dir, init, p);
        NewestFrame(m, m', m[dir[init]].nodes, last);
      }
    }
  }

  // ----- The operations -----

  ghost predicate SameFiles(m: Memory, dir: Directory, m': Memory, dir': Directory)
    requires Valid(m, dir) && Valid(m', dir')
  {
    forall id :: Local(m', dir', id) == Local(m, dir, id)
  }

  predicate Keeps(dir: Directory, dir': Directory)
  {
    forall p :: p in dir ==> p in dir' && dir'[p] == dir[p]
  }

  lemma {:induction false} GrowFiles(m: Memory, dir: Directory, p: Identifier, kv: Pair)
    requires Valid(m, dir) && p in dir && p + [kv] !in dir && Newest(m, m[dir[p]].nodes, kv).None?
    requires Valid(Grow(m, dir[p], kv), dir[p + [kv] := |m|])
    ensures SameFiles(m, dir, Grow(m, dir[p], kv), dir[p + [kv] := |m|])
  {
    hide Ordered, Injective, Closed, Newest, Local, Grow;
    forall i: Identifier
      ensures Local(Grow(m, dir[p], kv), dir[p + [kv] := |m|], i) == Local(m, dir, i)
    {
      GrowLocal(m, dir, p, kv, i);
    }
  }

  lemma {:induction false} ChainKeeps(m: Memory, dir: Directory, p: Identifier, id: Identifier) returns (dir': Directory)
    requires Valid(m, dir) && p in dir && (id != [] ==> Newest(m, m[dir[p]].nodes, id[0]).None?)
    ensures var (m', end) := Chain(m, dir[p], id);
            && Valid(m', dir') && Keeps(dir, dir') && p + id in dir' && dir'[p + id] == end
            && SameFiles(m, dir, m', dir') && (id != [] ==> m'[end].nodes == [])
    ensures forall q :: q in dir' ==> q in dir || (p < q <= p + id && dir'[q] >= |m|)
    decreases |id|
  {
    hide Ordered, Injective, Closed, Local;
    if id == [] {
      dir' := dir;
      assert p + id == p;
    } else {
      GrowKeeps(m, dir, p, id[0]);
      var m1, dir1, q := Grow(m, dir[p], id[0]), dir[p + [id[0]] := |m|], p + [id[0]];
      GrowFiles(m, dir, p, id[0]);
      assert p + id == q + id[1..];
      dir' := ChainKeeps(m1, dir1, q, id[1..]);
    }
  }

  /** `getCreateBranchingNode` leads to the branch of the identifier and changes no file;
      a branch that is there already is found without any change. */
  lemma {:induction false} CreateKeeps(m: Memory, dir: Directory, p: Identifier, id: Identifier) returns (dir': Directory)
    requires Valid(m, dir) && p in dir && Create(m, dir[p], id).Some?
    ensures var (m', end) := Create(m, dir[p], id).value;
            && Valid(m', dir') && Keeps(dir, dir') && p + id in dir' && dir'[p + id] == end
            && SameFiles(m, dir, m', dir')
            && (if p + id in dir then m' == m && dir' == dir else m'[end].nodes == [])
    ensures forall q :: q in dir' ==> q in dir || (q <= p + id && dir'[q] >= |m|)
  {
    hide Ordered, Injective, Closed, Local, Chain;
    ReachIsDirectory(m, dir, p, id);
    match Reach(m, dir[p], id)
    case At(n) =>
      dir' := dir;
    case Stops(n, rest) =>
      dir' := ChainKeeps(m, dir, p + id[..|id| - |rest|], rest);
    case Blocked =>
      assert false;
  }

  /** Asking for the same branch again gives it again, and changes nothing. */
  lemma {:induction false} CreateAgain(m: Memory, dir: Directory, p: Identifier, id: Identifier)
    requires Valid(m, dir) && p in dir && Create(m, dir[p], id).Some?
    ensures var (m', end) := Create(m, dir[p], id).value;
            IsBranch(m', dir[p]) && Create(m', dir[p], id) == Some((m', end))
  {
    var (m', end) := Create(m, dir[p], id).value;
    var dir' := CreateKeeps(m, dir, p, id);
    assert p in dir' && dir'[p] == dir[p];
    ReachIsDirectory(m', dir', p, id);
  }

  lemma {:induction false} StepOff(p: Identifier, id: Identifier)
    requires id != []
    ensures forall k :: 0 <= k < |id| ==> p + id[..k + 1] == p + [id[0]] + id[1..][..k]
  {
  }

  /** A path is blocked exactly where a file lies on it. */
  lemma {:induction false} BlockedByFile(m: Memory, dir: Directory, p: Identifier, id: Identifier)
    requires Valid(m, dir) && p in dir
    ensures Reach(m, dir[p], id) == Blocked <==> exists k :: 0 < k <= |id| && Local(m, dir, p + id[..k]).Some?
    decreases |id|
  {
    hide Ordered, Injective, Closed;
    if id != [] {
      var q, rest := p + [id[0]], id[1..];
      SubBranch(m, dir, p, id[0]);
      assert id[..1] == [id[0]];
      assert q[..|q| - 1] == p && q[|q| - 1] == id[0];
      if q in dir {
        BlockedByFile(m, dir, q, rest);
        assert Local(m, dir, q).None? && p + id[..1] == q;
        StepOff(p, id);
        hide Local, Reach;
        if exists k :: 0 < k <= |id| && Local(m, dir, p + id[..k]).Some? {
          var k :| 0 < k <= |id| && Local(m, dir, p + id[..k]).Some?;
          assert k > 1;
          var before := k - 1;
          assert q + rest[..before] == p + id[..k];
          assert Local(m, dir, q + rest[..before]).Some?;
        }
        if exists k :: 0 < k <= |rest| && Local(m, dir, q + rest[..k]).Some? {
          var k :| 0 < k <= |rest| && Local(m, dir, q + rest[..k]).Some?;
          assert p + id[..k + 1] == q + rest[..k];
        }
      } else if Reach(m, dir[p], id) == Blocked {
        assert Local(m, dir, p + id[..1]).Some?;
      } else {
        forall k | 0 < k <= |id|
          ensures Local(m, dir, p + id[..k]).None?
        {
          OffDirectory(m, dir, p, id, k);
        }
      }
    }
  }

  lemma {:induction false} OffDirectory(m: Memory, dir: Directory, p: Identifier, id: Identifier, k: nat)
    requires Valid(m, dir) && p in dir && 0 < k <= |id| && p + [id[0]] !in dir && Newest(m, m[dir[p]].nodes, id[0]).None?
    ensures Local(m, dir, p + id[..k]).None?
  {
    hide Ordered, Injective, Closed;
    var path := p + id[..k];
    var init := path[..|path| - 1];
    if k == 1 {
      assert init == p;
    } else if init in dir {
      assert p + [id[0]] <= init;
      Prefixes(m, dir, p + [id[0]], init);
    }
  }

  /** `insertDataNode` returns exactly when no file lies on the way, the node has the last
      key and value, and no branch bears the identifier; then it is the file of that
      identifier.  No other file changes, whether it returns or throws. */
  lemma {:induction false} InsertKeeps(m: Memory, dir: Directory, p: Identifier, id: Identifier, d: nat) returns (dir': Directory)
    requires Valid(m, dir) && p in dir && id != [] && d < |m| && m[d].DataNode?
    ensures var init := id[..|id| - 1];
            var (m', ok) := Insert(m, dir[p], id, d);
            && (ok <==> Reach(m, dir[p], init) != Blocked && m[d].kv == id[|id| - 1] && p + id !in dir)
            && Valid(m', dir') && Keeps(dir, dir')
            && (forall i :: Local(m', dir', i) == if ok && i == p + id then Some(d) else Local(m, dir, i))
            && (ok ==> p + init in dir' && Create(m, dir[p], init).Some? && dir'[p + init] == Create(m, dir[p], init).value.1)
    ensures forall q :: q in dir' ==> q in dir || (q <= p + id[..|id| - 1] && dir'[q] >= |m|)
  {
    hide Ordered, Injective, Local, Reach;
    var init, kv := id[..|id| - 1], id[|id| - 1];
    if Create(m, dir[p], init).None? {
      dir' := dir;
    } else {
      var (m1, end) := Create(m, dir[p], init).value;
      dir' := CreateKeeps(m, dir, p, init);
      assert p + id == (p + init) + [kv];
      SubBranch(m1, dir', p + init, kv);
      HidesIffBranch(m1, dir', p + init, kv);
      if p + init !in dir && p + id in dir {
        Prefixes(m, dir, p + init, p + id);
      }
      if m1[d].kv == kv && !HidesBranch(m1, m1[end].nodes, kv) {
        PushKeeps(m1, dir', p + init, d);
        forall i: Identifier
          ensures Local(Push(m1, end, d), dir', i) == if i == p + id then Some(d) else Local(m1, dir', i)
        {
          PushLocal(m1, dir', p + init, d, i);
        }
      }
    }
  }

  lemma {:induction false} HidesIffBranch(m: Memory, dir: Directory, p: Identifier, kv: Pair)
    requires Valid(m, dir) && p in dir
    ensures HidesBranch(m, m[dir[p]].nodes, kv) <==> p + [kv] in dir
  {
    var q := p + [kv];
    assert q[..|q| - 1] == p;
    if q in dir {
      assert Hangs(m, dir, q);
    }
    assert Lists(m, dir, p);
  }

  // ----- Where data hangs -----

  predicate HasDatum(m: Memory, at: nat, c: nat)
  {
    IsBranch(m, at) && c in m[at].nodes && c < |m| && m[c].DataNode?
  }

  lemma {:induction false} ChainData(m: Memory, at: nat, id: Identifier)
    requires Closed(m) && IsBranch(m, at)
    ensures forall a: nat, c: nat :: HasDatum(Chain(m, at, id).0, a, c) <==> HasDatum(m, a, c)
    decreases |id|
  {
    if id != [] {
      var m' := Grow(m, at, id[0]);
      forall a: nat, c: nat
        ensures HasDatum(m', a, c) <==> HasDatum(m, a, c)
      {
        if a < |m| {
          assert a != at ==> m'[a] == m[a];
        }
      }
      ChainData(m', |m|, id[1..]);
    }
  }

  lemma {:induction false} CreateData(m: Memory, at: nat, id: Identifier, a: nat, c: nat)
    requires Closed(m) && IsBranch(m, at) && Create(m, at, id).Some?
    ensures HasDatum(Create(m, at, id).value.0, a, c) <==> HasDatum(m, a, c)
  {
    hide Chain, Closed, HasDatum;
    match Reach(m, at, id)
    case At(n) =>
    case Stops(n, rest) => ChainData(m, n, rest);
    case Blocked =>
  }

  /** An insertion adds one datum to one branch, where it returns. */
  lemma {:induction false} InsertData(m: Memory, at: nat, id: Identifier, d: nat, a: nat, c: nat)
    requires Closed(m) && IsBranch(m, at) && id != [] && d < |m| && m[d].DataNode?
    ensures var r := Insert(m, at, id, d);
            var end := Create(m, at, id[..|id| - 1]);
            && (r.1 ==> end.Some?)
            && (HasDatum(r.0, a, c) <==> HasDatum(m, a, c) || (r.1 && a == end.value.1 && c == d))
  {
    hide Create, Closed;
    if Create(m, at, id[..|id| - 1]).Some? {
      CreateData(m, at, id[..|id| - 1], a, c);
    }
  }

  // ----- What neither grows nor prunes the tree -----

  /** The same tree, perhaps with data nodes behind it that are no part of it, or with
      other branches marked as an index. */
  predicate Alike(m: Memory, m': Memory)
  {
    && |m| <= |m'|
    && (forall i :: 0 <= i < |m| && m[i].DataNode? ==> m'[i] == m[i])
    && forall i :: 0 <= i < |m| && m[i].Branching? ==> m'[i].Branching? && m'[i].kv == m[i].kv && m'[i].nodes == m[i].nodes
  }

  lemma {:induction false} AlikeKeeps(m: Memory, dir: Directory, m': Memory)
    requires Valid(m, dir) && Alike(m, m') && Closed(m')
    ensures Valid(m', dir)
  {
    hide Hangs, Lists, Unmixed;
    forall p | p in dir
      ensures IsBranch(m', dir[p]) && Hangs(m', dir, p) && Lists(m', dir, p) && Unmixed(m', m'[dir[p]].nodes)
    {
      AlikeAt(m, dir, m', p);
    }
  }

  lemma {:induction false} AlikeAt(m: Memory, dir: Directory, m': Memory, p: Identifier)
    requires Valid(m, dir) && Alike(m, m') && Closed(m') && p in dir
    ensures IsBranch(m', dir[p]) && Hangs(m', dir, p) && Lists(m', dir, p) && Unmixed(m', m'[dir[p]].nodes)
  {
    hide Ordered, Injective, Unmixed;
    AtPath(m, dir, p);
    assert Extends(m, m');
    UnmixedFrame(m, m', m[dir[p]].nodes);
  }

  lemma {:induction false} AtPath(m: Memory, dir: Directory, p: Identifier)
    requires Valid(m, dir) && p in dir
    ensures IsBranch(m, dir[p]) && Hangs(m, dir, p) && Lists(m, dir, p) && Unmixed(m, m[dir[p]].nodes)
  {
    hide Hangs, Lists, Unmixed;
  }

  lemma {:induction false} AlikeLocal(m: Memory, dir: Directory, m': Memory, id: Identifier)
    requires Valid(m, dir) && Valid(m', dir) && Alike(m, m')
    ensures Local(m', dir, id) == Local(m, dir, id)
  {
    hide Ordered, Injective;
    if id != [] && id[..|id| - 1] in dir {
      NewestFrame(m, m', m[dir[id[..|id| - 1]]].nodes, id[|id| - 1]);
    }
  }
}
