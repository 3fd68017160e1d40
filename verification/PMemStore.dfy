/** The operations of the tree in place, as loops that move a current node and append to
    its sub-nodes, and the visit with its stack of keys. */
module PMemStore {
  import opened Wrappers
  import opened Keys
  import opened PMemTree
  import opened PMemVisit

  class PMemPool {
    var memory: Memory

    constructor (m: Memory)
      ensures memory == m
    {
      memory := m;
    }

    /** The backward search through the sub-nodes: a negative result where none matches. */
    method Search(at: nat, kv: Pair) returns (i: int)
      requires Closed(memory) && IsBranch(memory, at)
      ensures i < |memory[at].nodes| && (i >= 0 ==> memory[at].nodes[i] < |memory|)
      ensures Newest(memory, memory[at].nodes, kv) == if i < 0 then None else Some(memory[at].nodes[i])
    {
      var nodes := memory[at].nodes;
      i := |nodes| - 1;
      assert nodes[..i + 1] == nodes;
      while i >= 0
        invariant -1 <= i < |nodes|
        invariant Newest(memory, nodes, kv) == Newest(memory, nodes[..i + 1], kv)
      {
        if memory[nodes[i]].kv == kv {
          return;
        }
        assert nodes[..i + 1][..i] == nodes[..i];
        i := i - 1;
      }
    }

    method GetCreateBranchingNode(at: nat, id: Identifier) returns (ok: bool, node: nat)
      requires Closed(memory) && IsBranch(memory, at)
      modifies this
      ensures Create(old(memory), at, id) == if ok then Some((memory, node)) else None
      ensures !ok ==> memory == old(memory)
    {
      hide Newest, Closed;
      node := at;
      var it := 0;
      assert id[0..] == id;
      while it < |id|
        invariant 0 <= it <= |id| && memory == old(memory) && IsBranch(memory, node)
        invariant Reach(old(memory), at, id) == Reach(memory, node, id[it..])
      {
        assert id[it..][0] == id[it] && id[it..][1..] == id[it + 1..];
        var i := Search(node, id[it]);
        if i >= 0 {
          var subnode := memory[node].nodes[i];
          if memory[subnode].DataNode? {
            return false, node;
          }
          node := subnode;
          it := it + 1;
        } else {
          node := CreateChain(node, id[it..]);
          return true, node;
        }
      }
      ok := true;
    }

    /** The inner loop: a new branching node for every pair that is left. */
    method CreateChain(at: nat, id: Identifier) returns (node: nat)
      requires Closed(memory) && IsBranch(memory, at)
      modifies this
      ensures Chain(old(memory), at, id) == (memory, node)
    {
      hide Newest, Closed;
      node := at;
      var it := 0;
      assert id[0..] == id;
      while it < |id|
        invariant 0 <= it <= |id| && Closed(memory) && IsBranch(memory, node)
        invariant Chain(old(memory), at, id) == Chain(memory, node, id[it..])
      {
        assert id[it..][0] == id[it] && id[it..][1..] == id[it + 1..];
        var newNode := |memory|;
        memory := Grow(memory, node, id[it]);
        node := newNode;
        it := it + 1;
      }
    }

    method GetDataNode(at: nat, id: Identifier) returns (ok: bool, ret: Option<nat>)
      requires Closed(memory) && IsBranch(memory, at)
      ensures match Lookup(memory, at, id)
              case Found(n) => ok && ret == Some(n)
              case Missing => ok && ret == None
              case Clash => !ok
    {
      hide Newest, Closed;
      ret := None;
      var current, it := at, 0;
      assert id[0..] == id;
      while it < |id|
        invariant 0 <= it <= |id| && ret == None && IsBranch(memory, current)
        invariant Lookup(memory, at, id) == Lookup(memory, current, id[it..])
      {
        assert id[it..][0] == id[it] && id[it..][1..] == id[it + 1..];
        var i := Search(current, id[it]);
        if i < 0 {
          return true, None;
        }
        var subnode := memory[current].nodes[i];
        if it + 1 == |id| {
          if memory[subnode].Branching? {
            return false, None;
          }
          return true, Some(subnode);
        }
        if memory[subnode].DataNode? {
          return false, None;
        }
        current := subnode;
        it := it + 1;
      }
      ok := true;
    }

    /** For the empty key the source returns its null pointer, not this node. */
    method GetBranchingNode(at: nat, id: Identifier) returns (ok: bool, ret: Option<nat>)
      requires Closed(memory) && IsBranch(memory, at)
      ensures match Reach(memory, at, id)
              case At(n) => ok && ret == if id == [] then None else Some(n)
              case Stops(_, _) => ok && ret == None
              case Blocked => !ok
    {
      hide Newest, Closed;
      ret := None;
      var current, it := at, 0;
      assert id[0..] == id;
      while it < |id|
        invariant 0 <= it <= |id| && IsBranch(memory, current)
        invariant ret == if it == 0 then None else Some(current)
        invariant Reach(memory, at, id) == Reach(memory, current, id[it..])
      {
        assert id[it..][0] == id[it] && id[it..][1..] == id[it + 1..];
        var i := Search(current, id[it]);
        if i < 0 {
          return true, None;
        }
        var subnode := memory[current].nodes[i];
        if memory[subnode].DataNode? {
          return false, None;
        }
        ret := Some(subnode);
        current := subnode;
        it := it + 1;
      }
      ok := true;
    }

    method InsertDataNode(at: nat, id: Identifier, d: nat) returns (ok: bool)
      requires Closed(memory) && IsBranch(memory, at) && id != [] && d < |memory| && memory[d].DataNode?
      modifies this
      ensures (memory, ok) == Insert(old(memory), at, id, d)
    {
      hide Create;
      var last := |id| - 1;
      var parent: nat;
      ok, parent := GetCreateBranchingNode(at, id[..last]);
      if !ok {
        return;
      }
      if memory[d].kv != id[last] {
        return false;
      }
      var i, nodes := 0, memory[parent].nodes;
      while i < |nodes|
        invariant 0 <= i <= |nodes|
        invariant forall j :: 0 <= j < i && memory[nodes[j]].kv == id[last] ==> memory[nodes[j]].DataNode?
      {
        if memory[nodes[i]].kv == id[last] && memory[nodes[i]].Branching? {
          assert HidesBranch(memory, nodes, id[last]);
          return false;
        }
        i := i + 1;
      }
      memory := Push(memory, parent, d);
    }
  }

  lemma {:induction false} Regroup<T>(a: seq<T>, b: seq<T>, c: seq<T>)
    ensures (a + b) + c == a + (b + c)
  {
  }

  /** The rest of a visit, with what was reported before. */
  function After(done: seq<Event>, rest: Option<seq<Event>>): Option<seq<Event>>
  {
    match rest
    case None => None
    case Some(es) => Some(done + es)
  }

  lemma {:induction false} AfterAfter(a: seq<Event>, b: seq<Event>, rest: Option<seq<Event>>)
    ensures After(a, After(b, rest)) == After(a + b, rest)
  {
    if rest.Some? {
      Regroup(a, b, rest.value);
    }
  }

  lemma {:induction false} AfterNothing(rest: Option<seq<Event>>)
    ensures After([], rest) == rest
  {
    if rest.Some? {
      assert [] + rest.value == rest.value;
    }
  }

  /** The state of a visit: the stack of keys, and what has been reported. */
  class EntryVisitor {
    const entries: bool
    var keys: seq<seq<Pair>>
    var events: seq<Event>

    constructor (entries: bool)
      ensures this.entries == entries && keys == [[]] && events == []
    {
      this.entries := entries;
      keys, events := [[]], [];
    }

    /** `keys.back().push`. */
    method PushPair(kv: Pair)
      requires keys != []
      modifies this`keys
      ensures |keys| == |old(keys)| && keys[..|keys| - 1] == old(keys)[..|keys| - 1]
      ensures keys[|keys| - 1] == old(keys)[|keys| - 1] + [kv]
    {
      keys := keys[..|keys| - 1] + [keys[|keys| - 1] + [kv]];
    }

    /** `keys.back().pop`, which asserts that the keyword is the last one. */
    method PopPair(keyword: string)
      requires keys != [] && var back := keys[|keys| - 1]; back != [] && back[|back| - 1].0 == keyword
      modifies this`keys
      ensures |keys| == |old(keys)| && keys[..|keys| - 1] == old(keys)[..|keys| - 1]
      ensures var back := old(keys)[|keys| - 1]; keys[|keys| - 1] == back[..|back| - 1]
    {
      var back := keys[|keys| - 1];
      keys := keys[..|keys| - 1] + [back[..|back| - 1]];
    }

    method VisitLeaves(m: Memory, at: nat, index: Option<nat>, ghost dir: Directory, ghost p: Identifier) returns (ok: bool)
      requires Valid(m, dir) && p in dir && dir[p] == at && keys != []
      modifies this
      ensures match Visit(m, dir, p, old(keys)[|old(keys)| - 1], index, entries)
              case None => !ok
              case Some(es) => ok && keys == old(keys) && events == old(events) + es
      decreases |m| - at, 1, 0
    {
      hide Ordered, Injective, VisitBelow;
      ghost var before := keys;
      var kv, index' := m[at].kv, index;
      if Named(kv) {
        PushPair(kv);
        if m[at].index {
          index' := Some(at);
          events := events + [IndexVisited(at, keys[|keys| - 1])];
          if !entries {
            PopPair(kv.0);
            assert keys == before by { Restored(before, keys, kv); }
            return true;
          }
          keys := keys + [[]];
        }
      }
      label Below:
      ok := VisitSubnodes(m, at, index', dir, p);
      if !ok {
        return;
      }
      if Named(kv) {
        if m[at].index {
          keys := keys[..|keys| - 1];
        }
        PopPair(kv.0);
        assert keys == before by { Restored(before, keys, kv); }
      }
    }

    /** The leaves and then the subtrees of a node, from lists that were made first. */
    method VisitSubnodes(m: Memory, at: nat, index: Option<nat>, ghost dir: Directory, ghost p: Identifier) returns (ok: bool)
      requires Valid(m, dir) && p in dir && dir[p] == at && keys != []
      modifies this
      ensures match VisitBelow(m, dir, p, old(keys)[|old(keys)| - 1], index, entries)
              case None => !ok
              case Some(es) => ok && keys == old(keys) && events == old(events) + es
      decreases |m| - at, 0, |m[at].nodes| + 1
    {
      hide Ordered, Injective, VisitTrees, DatumEvents, NewestFirst, Visit;
      ghost var key := keys[|keys| - 1];
      var leaves, subtrees := Collect(m, m[at].nodes);
      ghost var first: seq<Event> := [];
      if leaves != [] {
        if index.None? {
          return false;
        }
        VisitData(m, leaves, index.value);
        first := DatumEvents(m, leaves, key, index.value);
      }
      assert events == old(events) + first;
      ok := VisitEach(m, at, subtrees, index, dir, p);
      if ok {
        ghost var more := VisitTrees(m, dir, p, subtrees, key, index, entries).value;
        assert VisitBelow(m, dir, p, key, index, entries) == Some(first + more);
        Regroup(old(events), first, more);
      }
    }

    method VisitData(m: Memory, leaves: seq<nat>, index: nat)
      requires Within(m, leaves) && keys != []
      modifies this
      ensures keys == old(keys) && events == old(events) + DatumEvents(m, leaves, keys[|keys| - 1], index)
    {
      var i := 0;
      while i < |leaves|
        invariant 0 <= i <= |leaves| && keys == old(keys)
        invariant events == old(events) + DatumEvents(m, leaves, keys[|keys| - 1], index)[..i]
      {
        var kv := m[leaves[i]].kv;
        PushPair(kv);
        events := events + [DatumVisited(index, keys[|keys| - 1], leaves[i])];
        PopPair(kv.0);
        assert keys == old(keys) by { Restored(old(keys), keys, kv); }
        i := i + 1;
      }
    }

    method VisitEach(m: Memory, at: nat, subtrees: seq<nat>, index: Option<nat>, ghost dir: Directory, ghost p: Identifier) returns (ok: bool)
      requires Valid(m, dir) && p in dir && dir[p] == at && keys != [] && Subtrees(m, dir, p, subtrees)
      modifies this
      ensures match VisitTrees(m, dir, p, subtrees, old(keys)[|old(keys)| - 1], index, entries)
              case None => !ok
              case Some(es) => ok && keys == old(keys) && events == old(events) + es
      decreases |m| - at, 0, |subtrees|
    {
      hide Ordered, Injective, Visit;
      ok := true;
      ghost var done: seq<Event> := [];
      ghost var key := keys[|keys| - 1];
      var i := 0;
      assert subtrees[0..] == subtrees;
      AfterNothing(VisitTrees(m, dir, p, subtrees, key, index, entries));
      while i < |subtrees|
        invariant 0 <= i <= |subtrees| && keys == old(keys) && events == old(events) + done
        invariant Subtrees(m, dir, p, subtrees[i..])
        invariant VisitTrees(m, dir, p, subtrees, key, index, entries) ==
                  After(done, VisitTrees(m, dir, p, subtrees[i..], key, index, entries))
      {
        assert subtrees[i..][0] == subtrees[i] && subtrees[i..][1..] == subtrees[i + 1..];
        FirstSubtree(m, dir, p, subtrees[i..]);
        ghost var q := p + [m[subtrees[i]].kv];
        ok := VisitLeaves(m, subtrees[i], index, dir, q);
        if !ok {
          return;
        }
        ghost var more := Visit(m, dir, q, key, index, entries).value;
        AfterAfter(done, more, VisitTrees(m, dir, p, subtrees[i + 1..], key, index, entries));
        Regroup(old(events), done, more);
        done := done + more;
        i := i + 1;
      }
      assert done + [] == done;
    }

    /** The two lists of sub-nodes, collected from the back. */
    method Collect(m: Memory, nodes: seq<nat>) returns (leaves: seq<nat>, subtrees: seq<nat>)
      requires Within(m, nodes)
      ensures leaves == NewestFirst(m, nodes, false) && subtrees == NewestFirst(m, nodes, true)
    {
      hide Collected;
      leaves, subtrees := [], [];
      CollectBegins(m, nodes);
      var n := |nodes|;
      while n > 0
        invariant 0 <= n <= |nodes| && Collected(m, nodes, n, leaves, subtrees)
      {
        CollectStep(m, nodes, n, leaves, subtrees);
        n := n - 1;
        if m[nodes[n]].DataNode? {
          leaves := leaves + [nodes[n]];
        } else {
          subtrees := subtrees + [nodes[n]];
        }
      }
      CollectEnds(m, nodes, leaves, subtrees);
    }

    predicate Collected(m: Memory, nodes: seq<nat>, n: nat, leaves: seq<nat>, subtrees: seq<nat>)
      requires Within(m, nodes) && n <= |nodes|
    {
      && NewestFirst(m, nodes, false) == leaves + NewestFirst(m, nodes[..n], false)
      && NewestFirst(m, nodes, true) == subtrees + NewestFirst(m, nodes[..n], true)
    }

    lemma {:induction false} CollectBegins(m: Memory, nodes: seq<nat>)
      requires Within(m, nodes)
      ensures Collected(m, nodes, |nodes|, [], [])
    {
      assert nodes[..|nodes|] == nodes;
      assert [] + NewestFirst(m, nodes, false) == NewestFirst(m, nodes, false);
      assert [] + NewestFirst(m, nodes, true) == NewestFirst(m, nodes, true);
    }

    lemma {:induction false} CollectStep(m: Memory, nodes: seq<nat>, n: nat, leaves: seq<nat>, subtrees: seq<nat>)
      requires Within(m, nodes) && 0 < n <= |nodes| && Collected(m, nodes, n, leaves, subtrees)
      ensures if m[nodes[n - 1]].DataNode? then Collected(m, nodes, n - 1, leaves + [nodes[n - 1]], subtrees)
              else Collected(m, nodes, n - 1, leaves, subtrees + [nodes[n - 1]])
    {
      hide NewestFirst;
      CollectOne(m, nodes[..n]);
      assert nodes[..n][..n - 1] == nodes[..n - 1];
      Regroup(leaves, [nodes[n - 1]], NewestFirst(m, nodes[..n - 1], false));
      Regroup(subtrees, [nodes[n - 1]], NewestFirst(m, nodes[..n - 1], true));
    }

    lemma {:induction false} CollectEnds(m: Memory, nodes: seq<nat>, leaves: seq<nat>, subtrees: seq<nat>)
      requires Within(m, nodes) && Collected(m, nodes, 0, leaves, subtrees)
      ensures leaves == NewestFirst(m, nodes, false) && subtrees == NewestFirst(m, nodes, true)
    {
      assert nodes[..0] == [];
      assert leaves + [] == leaves && subtrees + [] == subtrees;
    }

    lemma {:induction false} CollectOne(m: Memory, nodes: seq<nat>)
      requires Within(m, nodes) && nodes != []
      ensures var c, init := nodes[|nodes| - 1], nodes[..|nodes| - 1];
              && NewestFirst(m, nodes, false) == (if m[c].DataNode? then [c] + NewestFirst(m, init, false) else NewestFirst(m, init, false))
              && NewestFirst(m, nodes, true) == (if m[c].DataNode? then NewestFirst(m, init, true) else [c] + NewestFirst(m, init, true))
    {
      var init := nodes[..|nodes| - 1];
      assert [] + NewestFirst(m, init, false) == NewestFirst(m, init, false);
      assert [] + NewestFirst(m, init, true) == NewestFirst(m, init, true);
    }

    lemma {:induction false} Restored(before: seq<seq<Pair>>, after: seq<seq<Pair>>, kv: Pair)
      requires before != [] && |after| == |before| && after[..|before| - 1] == before[..|before| - 1]
      requires after[|before| - 1] == (before[|before| - 1] + [kv])[..|before[|before| - 1]|]
      ensures after == before
    {
      assert before == before[..|before| - 1] + [before[|before| - 1]];
      assert after == after[..|before| - 1] + [after[|before| - 1]];
    }
  }
}
