/** Whole runs of archiving into the tree: a lookup finds the field that was stored last
    under an identifier, and a visit reports every stored field once, under its name. */
module PMemRuns {
  import opened Wrappers
  import opened Keys
  import opened PMemTree
  import opened PMemVisit
  import opened PMemOnce

  /** An archived field: the key of its index, its key below the index, and its data. */
  datatype Field = Field(index: Identifier, datum: Identifier, data: string)

  function Id(f: Field): Identifier
  {
    f.index + f.datum
  }

  /** The path of the branch that the field hangs below. */
  function Branch(f: Field): Identifier
    requires f.datum != []
  {
    f.index + f.datum[..|f.datum| - 1]
  }

  function LastPair(f: Field): Pair
    requires f.datum != []
  {
    f.datum[|f.datum| - 1]
  }

  const EMPTY_TREE: Memory := [Branching(("", ""), [], false)]

  /** One archived field: its index is selected, its data node is allocated and inserted
      below the index, and the axes, which have a new value the first time, are written.
      The result has the data node, or none where an operation throws. */
  function Add(m: Memory, f: Field): (r: (Memory, Option<nat>))
    requires Closed(m) && IsBranch(m, 0) && f.datum != []
    ensures Closed(r.0) && IsBranch(r.0, 0)
  {
    match Create(m, 0, f.index)
    case None => (m, None)
    case Some(selected) =>
      var d := |selected.0|;
      var r := Insert(Allocate(selected.0, LastPair(f), f.data), selected.1, f.datum, d);
      if r.1 then (Mark(r.0, selected.1), Some(d)) else (r.0, None)
  }

  datatype Stored = Stored(node: nat, field: Field)

  /** The tree after some fields, each of which was stored or threw, and the stored ones. */
  function Run(fields: seq<Field>): (r: (Memory, seq<Stored>))
    requires forall f :: f in fields ==> f.datum != []
    ensures Closed(r.0) && IsBranch(r.0, 0)
  {
    if fields == [] then (EMPTY_TREE, [])
    else
      var before, f := Run(fields[..|fields| - 1]), fields[|fields| - 1];
      var (m, added) := Add(before.0, f);
      (m, if added.Some? then before.1 + [Stored(added.value, f)] else before.1)
  }

  /** The data node of the last field stored with an identifier. */
  function Latest(stored: seq<Stored>, id: Identifier): (r: Option<nat>)
    ensures r.Some? ==> exists s :: s in stored && Id(s.field) == id && s.node == r.value
    ensures r.None? ==> forall s :: s in stored ==> Id(s.field) != id
  {
    if stored == [] then None
    else
      var last := stored[|stored| - 1];
      if Id(last.field) == id then Some(last.node) else Latest(stored[..|stored| - 1], id)
  }

  // ----- The state of the tree -----

  ghost predicate Files(m: Memory, dir: Directory, stored: seq<Stored>)
    requires Valid(m, dir)
  {
    forall id :: Local(m, dir, id) == Latest(stored, id)
  }

  /** The nodes of the stored fields, in the order of their addresses. */
  ghost predicate Contents(m: Memory, stored: seq<Stored>)
  {
    && (forall s :: s in stored ==>
          s.node < |m| && s.field.datum != [] && m[s.node] == DataNode(LastPair(s.field), s.field.data))
    && forall i, j :: 0 <= i < j < |stored| ==> stored[i].node < stored[j].node
  }

  /** Data hang below the branches of the stored fields, and nowhere else. */
  ghost predicate Data(m: Memory, dir: Directory, stored: seq<Stored>)
    requires forall s :: s in stored ==> s.field.datum != []
    requires Valid(m, dir)
  {
    && (forall s :: s in stored ==> s.field.index in dir && Branch(s.field) in dir)
    && forall p, c: nat :: p in dir ==> (HasDatum(m, dir[p], c) <==> Has(stored, p, c))
  }

  ghost predicate Has(stored: seq<Stored>, p: Identifier, c: nat)
    requires forall s :: s in stored ==> s.field.datum != []
  {
    exists s :: s in stored && s.node == c && Branch(s.field) == p
  }

  function Nodes(stored: seq<Stored>): multiset<nat>
  {
    if stored == [] then multiset{} else Nodes(stored[..|stored| - 1]) + multiset{stored[|stored| - 1].node}
  }

  ghost predicate Stores(m: Memory, dir: Directory, stored: seq<Stored>)
  {
    && Valid(m, dir) && dir[[]] == 0 && m[0].kv == ("", "")
    && Contents(m, stored) && Files(m, dir, stored) && Data(m, dir, stored)
    && DataBelow(m, dir, []) == Nodes(stored)
  }

  function Marks(m: Memory): set<nat>
  {
    set i: nat | i < |m| && m[i].Branching? && m[i].index
  }

  function Indexes(dir: Directory, stored: seq<Stored>): set<nat>
    requires forall s :: s in stored ==> s.field.index in dir
  {
    set s | s in stored :: dir[s.field.index]
  }

  ghost predicate Holds(m: Memory, dir: Directory, stored: seq<Stored>)
  {
    Stores(m, dir, stored) && Marks(m) == Indexes(dir, stored)
  }

  // ----- What each operation keeps -----

  lemma {:induction false} DataFrame(m: Memory, dir: Directory, m': Memory, dir': Directory, stored: seq<Stored>)
    requires Valid(m, dir) && Valid(m', dir') && Contents(m, stored) && Data(m, dir, stored) && Keeps(dir, dir')
    requires forall q :: q in dir' ==> q in dir || dir'[q] >= |m|
    requires forall a: nat, c: nat :: HasDatum(m', a, c) <==> HasDatum(m, a, c)
    ensures Data(m', dir', stored)
  {
    hide Ordered, Injective, Closed;
    forall p, c: nat | p in dir'
      ensures HasDatum(m', dir'[p], c) <==> Has(stored, p, c)
    {
      if p !in dir {
        assert !HasDatum(m, dir'[p], c);
      }
    }
  }

  lemma {:induction false} ContentsFrame(m: Memory, m': Memory, stored: seq<Stored>)
    requires Contents(m, stored) && |m| <= |m'| && forall i :: 0 <= i < |m| && m[i].DataNode? ==> m'[i] == m[i]
    ensures Contents(m', stored)
  {
  }

  lemma {:induction false} CreateStores(m: Memory, dir: Directory, stored: seq<Stored>, id: Identifier) returns (dir': Directory)
    requires Stores(m, dir, stored) && Create(m, 0, id).Some?
    ensures var (m', at) := Create(m, 0, id).value;
            && Stores(m', dir', stored) && Marks(m') == Marks(m)
            && Keeps(dir, dir') && id in dir' && dir'[id] == at
    ensures forall q :: q in dir' ==> q in dir || (q <= id && dir'[q] >= |m|)
  {
    hide Ordered, Injective, Closed, Local, DataBelow, Create, Contents, Data, HasDatum;
    var m' := Create(m, 0, id).value.0;
    dir' := CreateKeeps(m, dir, [], id);
    assert [] + id == id;
    assert [] in dir by { RootIn(m, dir); }
    CreateBelow(m, dir, [], id, dir');
    forall a: nat, c: nat
      ensures HasDatum(m', a, c) <==> HasDatum(m, a, c)
    {
      CreateData(m, 0, id, a, c);
    }
    DataFrame(m, dir, m', dir', stored);
    ContentsFrame(m, m', stored);
  }

  lemma {:induction false} RootIn(m: Memory, dir: Directory)
    requires Valid(m, dir)
    ensures [] in dir && IsBranch(m, dir[[]])
  {
  }

  lemma {:induction false} AlikeStores(m: Memory, dir: Directory, stored: seq<Stored>, m': Memory)
    requires Stores(m, dir, stored) && Alike(m, m') && Closed(m')
    requires forall i :: |m| <= i < |m'| ==> m'[i].DataNode?
    ensures Stores(m', dir, stored)
  {
    hide Ordered, Injective, Closed, Local, DataBelow, Contents, Data;
    RootIn(m, dir);
    AlikeKeeps(m, dir, m');
    forall id: Identifier
      ensures Local(m', dir, id) == Local(m, dir, id)
    {
      AlikeLocal(m, dir, m', id);
    }
    AlikeBelow(m, dir, m', []);
    AlikeData(m, m');
    DataFrame(m, dir, m', dir, stored);
    ContentsFrame(m, m', stored);
  }

  lemma {:induction false} AlikeData(m: Memory, m': Memory)
    requires Closed(m) && Alike(m, m') && forall i :: |m| <= i < |m'| ==> m'[i].DataNode?
    ensures forall a: nat, c: nat :: HasDatum(m', a, c) <==> HasDatum(m, a, c)
  {
  }

  /** The state after the insertion of the data node of a field. */
  lemma {:induction false} InsertStores(m: Memory, dir: Directory, stored: seq<Stored>, f: Field, d: nat) returns (dir': Directory)
    requires Stores(m, dir, stored) && f.datum != [] && f.index in dir && IsBranch(m, dir[f.index])
    requires d < |m| && m[d] == DataNode(LastPair(f), f.data) && forall s :: s in stored ==> s.node < d
    ensures var r := Insert(m, dir[f.index], f.datum, d);
            && Stores(r.0, dir', if r.1 then stored + [Stored(d, f)] else stored) && Marks(r.0) == Marks(m)
            && Keeps(dir, dir')
            && (r.1 <==> Reach(m, dir[f.index], f.datum[..|f.datum| - 1]) != Blocked && Id(f) !in dir)
    ensures forall q :: q in dir' ==> q in dir || q <= Branch(f)
  {
    hide Ordered, Injective, Closed, Local, DataBelow, Insert, Create, Contents, Data, Reach, HasDatum, Kept, Files;
    var r := Insert(m, dir[f.index], f.datum, d);
    dir' := InsertKeeps(m, dir, f.index, f.datum, d);
    assert m[0] == m[dir[[]]] && r.0[0].kv == m[0].kv by { RootIn(m, dir); InsertRoot(m, dir[f.index], f.datum, d); }
    InsertBelow(m, dir, f.index, f.datum, d, dir');
    InsertFiles(m, dir, stored, f, r, d, dir');
    InsertContents(m, stored, f, dir[f.index], d);
    InsertDatum(m, dir, stored, f, d, dir');
    InsertMarks(m, dir[f.index], f.datum, d);
    LatestOfOne(stored, Stored(d, f));
  }

  lemma {:induction false} InsertRoot(m: Memory, at: nat, id: Identifier, d: nat)
    requires Closed(m) && IsBranch(m, at) && id != [] && d < |m| && m[d].DataNode? && IsBranch(m, 0)
    ensures var r := Insert(m, at, id, d).0; IsBranch(r, 0) && r[0].kv == m[0].kv
  {
    hide Insert;
  }

  lemma {:induction false} InsertMarks(m: Memory, at: nat, id: Identifier, d: nat)
    requires Closed(m) && IsBranch(m, at) && id != [] && d < |m| && m[d].DataNode?
    ensures Marks(Insert(m, at, id, d).0) == Marks(m)
  {
    hide Insert, Closed;
  }

  lemma {:induction false} InsertFiles(m: Memory, dir: Directory, stored: seq<Stored>, f: Field, r: (Memory, bool), d: nat, dir': Directory)
    requires Valid(m, dir) && Valid(r.0, dir') && Files(m, dir, stored)
    requires forall i :: Local(r.0, dir', i) == if r.1 && i == Id(f) then Some(d) else Local(m, dir, i)
    ensures Files(r.0, dir', if r.1 then stored + [Stored(d, f)] else stored)
  {
    hide Valid, Local;
    LatestOfOne(stored, Stored(d, f));
  }

  lemma {:induction false} InsertContents(m: Memory, stored: seq<Stored>, f: Field, at: nat, d: nat)
    requires Closed(m) && IsBranch(m, at) && f.datum != [] && d < |m| && m[d] == DataNode(LastPair(f), f.data)
    requires Contents(m, stored) && forall s :: s in stored ==> s.node < d
    ensures var r := Insert(m, at, f.datum, d); Contents(r.0, if r.1 then stored + [Stored(d, f)] else stored)
  {
    hide Insert, Closed;
    var r := Insert(m, at, f.datum, d);
    ContentsFrame(m, r.0, stored);
    ContentsOfOne(r.0, stored, Stored(d, f));
  }

  lemma {:induction false} InsertDatum(m: Memory, dir: Directory, stored: seq<Stored>, f: Field, d: nat, dir': Directory)
    requires Valid(m, dir) && Contents(m, stored) && Data(m, dir, stored)
    requires f.datum != [] && f.index in dir && d < |m| && m[d].DataNode? && IsBranch(m, dir[f.index])
    requires var r := Insert(m, dir[f.index], f.datum, d);
             Valid(r.0, dir') && (r.1 ==> Branch(f) in dir' && Create(m, dir[f.index], f.datum[..|f.datum| - 1]).Some? && dir'[Branch(f)] == Create(m, dir[f.index], f.datum[..|f.datum| - 1]).value.1)
    requires Keeps(dir, dir') && forall q :: q in dir' ==> q in dir || dir'[q] >= |m|
    ensures var r := Insert(m, dir[f.index], f.datum, d);
            var after := if r.1 then stored + [Stored(d, f)] else stored;
            (forall s :: s in after ==> s.field.datum != []) && Data(r.0, dir', after)
  {
    hide Ordered, Injective, Closed, Insert, Create, Contents, Data, HasDatum;
    var r := Insert(m, dir[f.index], f.datum, d);
    assert forall s :: s in stored ==> s.field.datum != [] by { StoredData(m, stored); }
    forall a: nat, c: nat
      ensures HasDatum(r.0, a, c) <==> HasDatum(m, a, c) || (r.1 && a == dir'[Branch(f)] && c == d)
    {
      InsertData(m, dir[f.index], f.datum, d, a, c);
    }
    if r.1 {
      DataOfOne(m, dir, r.0, dir', stored, f, d);
    } else {
      DataFrame(m, dir, r.0, dir', stored);
    }
  }

  lemma {:induction false} StoredData(m: Memory, stored: seq<Stored>)
    requires Contents(m, stored)
    ensures forall s :: s in stored ==> s.field.datum != [] && s.node < |m|
  {
  }

  lemma {:induction false} LatestOfOne(stored: seq<Stored>, s: Stored)
    ensures forall id :: Latest(stored + [s], id) == if id == Id(s.field) then Some(s.node) else Latest(stored, id)
    ensures Nodes(stored + [s]) == Nodes(stored) + multiset{s.node}
  {
    assert (stored + [s])[..|stored|] == stored;
  }

  lemma {:induction false} ContentsOfOne(m: Memory, stored: seq<Stored>, s: Stored)
    requires Contents(m, stored) && (forall t :: t in stored ==> t.node < s.node) && s.node < |m|
    requires s.field.datum != [] && m[s.node] == DataNode(LastPair(s.field), s.field.data)
    ensures Contents(m, stored + [s])
  {
  }

  lemma {:induction false} DataOfOne(m: Memory, dir: Directory, m': Memory, dir': Directory, stored: seq<Stored>, f: Field, d: nat)
    requires Valid(m, dir) && Valid(m', dir') && Contents(m, stored) && Data(m, dir, stored) && Keeps(dir, dir')
    requires f.datum != [] && f.index in dir && Branch(f) in dir'
    requires forall q :: q in dir' ==> q in dir || dir'[q] >= |m|
    requires forall a: nat, c: nat :: HasDatum(m', a, c) <==> HasDatum(m, a, c) || (a == dir'[Branch(f)] && c == d)
    ensures (forall s :: s in stored + [Stored(d, f)] ==> s.field.datum != []) && Data(m', dir', stored + [Stored(d, f)])
  {
    hide Ordered, Injective, Closed;
    var all := stored + [Stored(d, f)];
    forall p, c: nat | p in dir'
      ensures HasDatum(m', dir'[p], c) <==> Has(all, p, c)
    {
      if p !in dir {
        assert !HasDatum(m, dir'[p], c);
      }
      SamePath(dir', p, Branch(f));
      HasOfOne(stored, Stored(d, f), p, c);
    }
  }

  lemma {:induction false} HasOfOne(stored: seq<Stored>, s: Stored, p: Identifier, c: nat)
    requires s.field.datum != [] && forall t :: t in stored ==> t.field.datum != []
    ensures Has(stored + [s], p, c) <==> Has(stored, p, c) || (Branch(s.field) == p && s.node == c)
  {
    if Has(stored, p, c) {
      var t :| t in stored && t.node == c && Branch(t.field) == p;
      assert t in stored + [s];
    }
    assert s in stored + [s];
  }

  // ----- One archived field -----

  /** A path is blocked exactly where a stored field's identifier lies on it. */
  lemma {:induction false} BlockedByStored(m: Memory, dir: Directory, stored: seq<Stored>, p: Identifier, id: Identifier)
    requires Valid(m, dir) && Files(m, dir, stored) && p in dir
    ensures Reach(m, dir[p], id) == Blocked <==> exists s :: s in stored && p < Id(s.field) <= p + id
  {
    hide Ordered, Injective, Closed, Local, Reach;
    BlockedByFile(m, dir, p, id);
    if exists k :: 0 < k <= |id| && Local(m, dir, p + id[..k]).Some? {
      var k :| 0 < k <= |id| && Local(m, dir, p + id[..k]).Some?;
      assert Latest(stored, p + id[..k]).Some?;
    }
    if exists s :: s in stored && p < Id(s.field) <= p + id {
      var s :| s in stored && p < Id(s.field) <= p + id;
      var k := |Id(s.field)| - |p|;
      assert p + id[..k] == Id(s.field);
      assert Latest(stored, p + id[..k]).Some?;
    }
  }

  /** A field is stored exactly when the identifier of no stored field is a proper prefix of
      its own, and no branch bears its own; no operation changes what else is stored. */
  lemma {:induction false} AddHolds(m: Memory, dir: Directory, stored: seq<Stored>, f: Field) returns (dir': Directory)
    requires Holds(m, dir, stored) && f.datum != []
    ensures var r := Add(m, f);
            && Holds(r.0, dir', if r.1.Some? then stored + [Stored(r.1.value, f)] else stored) && Keeps(dir, dir')
            && (r.1.Some? <==> Id(f) !in dir && forall s :: s in stored ==> !(Id(s.field) < Id(f)))
    ensures forall q :: q in dir' ==> q in dir || q < Id(f)
  {
    hide Stores, Reach, Insert, Create;
    Basics(m, dir, stored);
    ClosedBranch(m, dir, []);
    var r := Add(m, f);
    BlockedByStored(m, dir, stored, [], f.index);
    CreateReturns(m, f.index);
    OnTheBranch(stored, f);
    if Create(m, 0, f.index).None? {
      dir' := dir;
    } else {
      var (m1, at) := Create(m, 0, f.index).value;
      var dir1 := CreateStores(m, dir, stored, f.index);
      dir' := AddBelow(m1, dir1, stored, f);
    }
  }

  lemma {:induction false} Basics(m: Memory, dir: Directory, stored: seq<Stored>)
    requires Stores(m, dir, stored)
    ensures Valid(m, dir) && Files(m, dir, stored) && IsBranch(m, 0) && [] in dir && dir[[]] == 0
    ensures forall s :: s in stored ==> s.field.datum != [] && s.node < |m| && s.field.index in dir
  {
  }

  lemma {:induction false} CreateReturns(m: Memory, id: Identifier)
    requires Closed(m) && IsBranch(m, 0)
    ensures Create(m, 0, id).Some? <==> Reach(m, 0, id) != Blocked
  {
    hide Reach, Chain;
  }

  lemma {:induction false} OnTheBranch(stored: seq<Stored>, f: Field)
    requires f.datum != [] && forall s :: s in stored ==> s.field.datum != []
    ensures forall s :: s in stored ==>
              (Id(s.field) < Id(f) <==> [] < Id(s.field) <= [] + f.index || f.index < Id(s.field) <= Branch(f))
  {
    forall s | s in stored
      ensures Id(s.field) < Id(f) <==> [] < Id(s.field) <= [] + f.index || f.index < Id(s.field) <= Branch(f)
    {
      var id := Id(s.field);
      assert Id(f)[..|Branch(f)|] == Branch(f) && Id(f)[..|f.index|] == f.index == [] + f.index;
      assert Branch(f)[..|f.index|] == f.index;
      if id < Id(f) {
        assert id <= Branch(f);
        assert |id| <= |f.index| ==> id <= f.index;
      }
    }
  }

  /** The rest of an addition, below the branch of its index. */
  lemma {:induction false} AddBelow(m: Memory, dir: Directory, stored: seq<Stored>, f: Field) returns (dir': Directory)
    requires Stores(m, dir, stored) && Marks(m) == Indexes(dir, stored)
    requires f.datum != [] && f.index in dir
    ensures Closed(m) && IsBranch(m, dir[f.index])
    ensures var d, m1 := |m|, Allocate(m, LastPair(f), f.data);
            var r := Insert(m1, dir[f.index], f.datum, d);
            var after := if r.1 then stored + [Stored(d, f)] else stored;
            && IsBranch(r.0, dir[f.index])
            && Holds(if r.1 then Mark(r.0, dir[f.index]) else r.0, dir', after) && Keeps(dir, dir')
            && (r.1 <==> Id(f) !in dir && !exists s :: s in stored && f.index < Id(s.field) <= Branch(f))
    ensures forall q :: q in dir' ==> q in dir || q < Id(f)
  {
    hide Stores, Reach, Insert, Ordered, Injective, Closed, Marks, Indexes, Keeps;
    Basics(m, dir, stored);
    ClosedBranch(m, dir, f.index);
    var at, d, m1 := dir[f.index], |m|, Allocate(m, LastPair(f), f.data);
    AlikeStores(m, dir, stored, m1);
    Basics(m1, dir, stored);
    BlockedByStored(m1, dir, stored, f.index, f.datum[..|f.datum| - 1]);
    dir' := InsertStores(m1, dir, stored, f, d);
    assert Branch(f) < Id(f);
    MarksAllocate(m, LastPair(f), f.data);
    var r := Insert(m1, at, f.datum, d);
    var after := if r.1 then stored + [Stored(d, f)] else stored;
    Basics(r.0, dir', after);
    assert at == dir'[f.index] && f.index in dir' by { KeptPath(dir, dir', f.index); }
    ClosedBranch(r.0, dir', f.index);
    IndexesKept(dir, dir', stored);
    if r.1 {
      AlikeStores(r.0, dir', after, Mark(r.0, at));
      IndexesOfOne(dir', stored, Stored(d, f));
      MarksMark(r.0, at);
    }
  }

  lemma {:induction false} KeptPath(dir: Directory, dir': Directory, p: Identifier)
    requires Keeps(dir, dir') && p in dir
    ensures p in dir' && dir'[p] == dir[p]
  {
  }

  lemma {:induction false} ClosedBranch(m: Memory, dir: Directory, p: Identifier)
    requires Valid(m, dir) && p in dir
    ensures Closed(m) && IsBranch(m, dir[p])
  {
  }

  lemma {:induction false} MarksAllocate(m: Memory, kv: Pair, data: string)
    requires Closed(m)
    ensures Marks(Allocate(m, kv, data)) == Marks(m)
  {
  }

  lemma {:induction false} MarksMark(m: Memory, at: nat)
    requires Closed(m) && IsBranch(m, at)
    ensures Marks(Mark(m, at)) == Marks(m) + {at}
  {
  }

  lemma {:induction false} IndexesKept(dir: Directory, dir': Directory, stored: seq<Stored>)
    requires Keeps(dir, dir') && forall s :: s in stored ==> s.field.index in dir
    ensures Indexes(dir', stored) == Indexes(dir, stored)
  {
    assert forall s :: s in stored ==> dir'[s.field.index] == dir[s.field.index];
  }

  lemma {:induction false} IndexesOfOne(dir: Directory, stored: seq<Stored>, s: Stored)
    requires s.field.index in dir && forall t :: t in stored ==> t.field.index in dir
    ensures Indexes(dir, stored + [s]) == Indexes(dir, stored) + {dir[s.field.index]}
  {
    assert forall t :: t in stored + [s] <==> t in stored || t == s;
  }

  // ----- Whole runs -----

  lemma {:induction false} RunHolds(fields: seq<Field>) returns (dir: Directory)
    requires forall f :: f in fields ==> f.datum != []
    ensures Holds(Run(fields).0, dir, Run(fields).1)
    ensures forall p :: p in dir && p != [] ==> exists f :: f in fields && p < Id(f)
  {
    if fields == [] {
      dir := map[[] := 0];
      EmptyHolds();
    } else {
      hide Holds, Add;
      var init, f := fields[..|fields| - 1], fields[|fields| - 1];
      var dir0 := RunHolds(init);
      dir := AddHolds(Run(init).0, dir0, Run(init).1, f);
      forall p | p in dir && p != []
        ensures exists g :: g in fields && p < Id(g)
      {
        if p in dir0 {
          var g :| g in init && p < Id(g);
          assert g in fields;
        } else {
          assert f in fields;
        }
      }
    }
  }

  lemma {:induction false} EmptyHolds()
    ensures Holds(EMPTY_TREE, map[[] := 0], [])
  {
    var dir: Directory := map[[] := 0];
    assert Valid(EMPTY_TREE, dir);
    assert DataBelow(EMPTY_TREE, dir, []) == multiset{};
    assert Files(EMPTY_TREE, dir, []);
    assert Data(EMPTY_TREE, dir, []);
    assert Marks(EMPTY_TREE) == {};
  }

  lemma {:induction false} StoredAreFields(fields: seq<Field>)
    requires forall f :: f in fields ==> f.datum != []
    ensures forall s :: s in Run(fields).1 ==> s.field in fields
  {
    if fields != [] {
      hide Add;
      StoredAreFields(fields[..|fields| - 1]);
    }
  }

  /** A schema gives no field an identifier that goes on where another's ends. */
  predicate Consistent(fields: seq<Field>)
  {
    && (forall f :: f in fields ==> f.datum != [])
    && forall f, g :: f in fields && g in fields ==> !(Id(f) < Id(g))
  }

  /** Of consistent fields, every one is stored, in order and whatever the repetitions. */
  lemma {:induction false} ConsistentAreStored(fields: seq<Field>)
    requires Consistent(fields)
    ensures var stored := Run(fields).1; |stored| == |fields| && forall i :: 0 <= i < |fields| ==> stored[i].field == fields[i]
  {
    if fields != [] {
      hide Add;
      var init, f := fields[..|fields| - 1], fields[|fields| - 1];
      ConsistentInit(fields);
      ConsistentAreStored(init);
      ConsistentAdds(init, f);
    }
  }

  lemma {:induction false} ConsistentInit(fields: seq<Field>)
    requires Consistent(fields) && fields != []
    ensures Consistent(fields[..|fields| - 1]) && fields == fields[..|fields| - 1] + [fields[|fields| - 1]]
  {
  }

  lemma {:induction false} ConsistentAdds(init: seq<Field>, f: Field)
    requires Consistent(init) && Consistent(init + [f])
    ensures f in init + [f] && Add(Run(init).0, f).1.Some?
  {
    hide Holds, Add, Run, Closed;
    StoredAreFields(init);
    var dir := RunHolds(init);
    assert f in init + [f];
    forall g | g in init
      ensures !(Id(f) < Id(g)) && !(Id(g) < Id(f))
    {
      assert g in init + [f];
    }
    var dir' := AddHolds(Run(init).0, dir, Run(init).1, f);
  }

  /** After any run, whatever threw, `getDataNode` returns the data node that was stored
      last under exactly that identifier, or nothing. */
  lemma {:induction false} LookupIsLatest(fields: seq<Field>, id: Identifier)
    requires forall f :: f in fields ==> f.datum != []
    ensures var (m, stored) := Run(fields);
            match Lookup(m, 0, id)
            case Found(n) => Latest(stored, id) == Some(n) && exists s :: s in stored && Id(s.field) == id && m[n].data == s.field.data
            case _ => Latest(stored, id).None?
  {
    hide Ordered, Injective, Latest, Run, Add, Local, Lookup;
    var dir := RunHolds(fields);
    var (m, stored) := Run(fields);
    if id == [] {
      EmptyLookup(m, dir);
    } else {
      assert [] + id == id;
      LookupIsLocal(m, dir, [], id);
    }
  }

  lemma {:induction false} EmptyLookup(m: Memory, dir: Directory)
    requires Valid(m, dir) && IsBranch(m, 0)
    ensures Local(m, dir, []).None? && Lookup(m, 0, []) == Missing
  {
  }

  // ----- Visits -----

  /** A field's key is the index above a path: an index with an empty key is the root, which
      a visit never takes as one. */
  predicate IndexOn(f: Field, p: Identifier)
  {
    f.index != [] && Named(f.index[|f.index| - 1]) && f.index <= p
  }

  lemma {:induction false} MarkedIff(m: Memory, dir: Directory, marked: seq<Stored>, p: Identifier)
    requires Valid(m, dir) && dir[[]] == 0 && m[0].kv == ("", "") && p in dir
    requires (forall s :: s in marked ==> s.field.index in dir) && Marks(m) == Indexes(dir, marked)
    ensures Marked(m, dir, p) <==> exists t :: t in marked && t.field.index == p && IndexOn(t.field, p)
  {
    hide Ordered, Injective, Closed;
    ClosedBranch(m, dir, p);
    if p != [] {
      PairAt(m, dir, p);
    }
    assert dir[p] in Marks(m) <==> m[dir[p]].index;
    if dir[p] in Indexes(dir, marked) {
      var t :| t in marked && dir[t.field.index] == dir[p];
      SamePath(dir, t.field.index, p);
    }
  }

  lemma {:induction false} PairAt(m: Memory, dir: Directory, p: Identifier)
    requires Valid(m, dir) && p in dir && p != []
    ensures m[dir[p]].kv == p[|p| - 1]
  {
    HangsAt(m, dir, p);
  }

  lemma {:induction false} BareIsStored(m: Memory, dir: Directory, stored: seq<Stored>, marked: seq<Stored>) returns (s: Stored)
    requires Stores(m, dir, stored) && BareData(m, dir, [])
    requires (forall s :: s in marked ==> s.field.index in dir) && Marks(m) == Indexes(dir, marked)
    ensures s in stored && s.field.datum != [] && forall t :: t in marked ==> !IndexOn(t.field, Branch(s.field))
  {
    hide Ordered, Injective, Closed, Marks, Indexes, HasDatum, Files, Marked, DataBelow, IndexOn;
    var q :| Bare(m, dir, [], q);
    var c: nat :| HasDatum(m, dir[q], c);
    assert Has(stored, q, c);
    s :| s in stored && s.node == c && Branch(s.field) == q;
    forall t | t in marked
      ensures !IndexOn(t.field, q)
    {
      MarkedIff(m, dir, marked, t.field.index);
      IndexOnItself(t.field, q);
    }
  }

  lemma {:induction false} IndexOnItself(f: Field, p: Identifier)
    ensures IndexOn(f, p) ==> IndexOn(f, f.index) && f.index <= p
  {
  }

  lemma {:induction false} StoredIsBare(m: Memory, dir: Directory, stored: seq<Stored>, marked: seq<Stored>, s: Stored)
    requires Stores(m, dir, stored) && s in stored
    requires (forall s :: s in marked ==> s.field.index in dir) && Marks(m) == Indexes(dir, marked)
    requires s.field.datum != [] && forall t :: t in marked ==> !IndexOn(t.field, Branch(s.field))
    ensures BareData(m, dir, [])
  {
    hide Ordered, Injective, Closed, Marks, Indexes, HasDatum, Files, Marked, DataBelow, IndexOn;
    assert Has(stored, Branch(s.field), s.node);
    forall r | r in dir && r <= Branch(s.field)
      ensures !Marked(m, dir, r)
    {
      MarkedIff(m, dir, marked, r);
      forall t | t in marked && t.field.index == r
        ensures !IndexOn(t.field, r)
      {
        IndexOnLonger(t.field, r, Branch(s.field));
      }
    }
    assert Bare(m, dir, [], Branch(s.field));
  }

  lemma {:induction false} IndexOnLonger(f: Field, p: Identifier, q: Identifier)
    requires p <= q
    ensures IndexOn(f, p) ==> IndexOn(f, q)
  {
  }

  /** A visit fails exactly where some stored field has no written index at or above its
      branch that the visit takes as one. */
  lemma {:induction false} ThrowsIff(m: Memory, dir: Directory, stored: seq<Stored>, marked: seq<Stored>, entries: bool)
    requires Stores(m, dir, stored)
    requires (forall s :: s in marked ==> s.field.index in dir) && Marks(m) == Indexes(dir, marked)
    ensures forall s :: s in stored ==> s.field.datum != []
    ensures Visit(m, dir, [], [], None, entries).None? <==>
            exists s :: s in stored && forall t :: t in marked ==> !IndexOn(t.field, Branch(s.field))
  {
    hide Ordered, Injective, Closed, Visit, Marks, Indexes, BareData, Stores, IndexOn;
    Basics(m, dir, stored);
    VisitThrows(m, dir, [], [], None, entries);
    if BareData(m, dir, []) {
      var s := BareIsStored(m, dir, stored, marked);
    }
    if exists s :: s in stored && forall t :: t in marked ==> !IndexOn(t.field, Branch(s.field)) {
      var s :| s in stored && forall t :: t in marked ==> !IndexOn(t.field, Branch(s.field));
      StoredIsBare(m, dir, stored, marked, s);
    }
  }

  /** The identifiers of a field have a name for every branch on the way. */
  predicate Complete(f: Field)
  {
    f.index != [] && f.datum != [] && forall kv :: kv in Branch(f) ==> Named(kv)
  }

  predicate AllComplete(fields: seq<Field>)
  {
    (forall f :: f in fields ==> f.datum != []) && forall f :: f in fields ==> Complete(f)
  }

  /** A visit while the last field has been inserted but the axes are not written yet fails
      exactly where that field is the first of its index, at or above which is no other. */
  lemma {:induction false} BetweenThrows(m: Memory, dir: Directory, stored: seq<Stored>, f: Field, dir': Directory, entries: bool)
    requires Holds(m, dir, stored) && Complete(f) && (forall s :: s in stored ==> Complete(s.field))
    requires Create(m, 0, f.index).Some? && Add(m, f).1.Some?
    requires var (m1, at) := Create(m, 0, f.index).value;
             Valid(Insert(Allocate(m1, LastPair(f), f.data), at, f.datum, |m1|).0, dir')
    requires dir'[[]] == 0
    ensures var (m1, at) := Create(m, 0, f.index).value;
            var between := Insert(Allocate(m1, LastPair(f), f.data), at, f.datum, |m1|).0;
            Visit(between, dir', [], [], None, entries).None? <==> forall t :: t in stored ==> !IndexOn(t.field, Branch(f))
  {
    hide Stores, Insert, Ordered, Injective, Closed, Marks, Indexes, Keeps, Visit, Create;
    Basics(m, dir, stored);
    ClosedBranch(m, dir, []);
    var (m1, at) := Create(m, 0, f.index).value;
    var dir1 := CreateStores(m, dir, stored, f.index);
    Basics(m1, dir1, stored);
    var m2 := Allocate(m1, LastPair(f), f.data);
    AlikeStores(m1, dir1, stored, m2);
    var dir2 := InsertStores(m2, dir1, stored, f, |m1|);
    var between := Insert(m2, at, f.datum, |m1|).0;
    var after := stored + [Stored(|m1|, f)];
    Basics(between, dir2, after);
    SameBelow(between, dir2, dir');
    MarksAllocate(m1, LastPair(f), f.data);
    IndexesKept(dir, dir1, stored);
    IndexesKept(dir1, dir2, stored);
    ThrowsIff(between, dir2, after, stored, entries);
    forall s | s in stored
      ensures IndexOn(s.field, Branch(s.field))
    {
      OwnIndex(s.field);
    }
    assert Stored(|m1|, f) in after;
  }

  lemma {:induction false} OwnIndex(f: Field)
    requires Complete(f)
    ensures IndexOn(f, Branch(f))
  {
    assert Branch(f)[..|f.index|] == f.index;
    assert Branch(f)[|f.index| - 1] == f.index[|f.index| - 1];
  }

  /** A whole visit from the root fails exactly where some stored field has no index at or
      above its branch that the visit takes as one. */
  lemma {:induction false} RunThrows(fields: seq<Field>, dir: Directory, entries: bool)
    requires forall f :: f in fields ==> f.datum != []
    requires Valid(Run(fields).0, dir) && dir[[]] == 0
    ensures var (m, stored) := Run(fields);
            && (forall s :: s in stored ==> s.field.datum != [])
            && (Visit(m, dir, [], [], None, entries).None? <==>
                exists s :: s in stored && forall t :: t in stored ==> !IndexOn(t.field, Branch(s.field)))
  {
    hide Stores, Run, Add, Ordered, Injective, Visit;
    var (m, stored) := Run(fields);
    var dir' := RunHolds(fields);
    Basics(m, dir', stored);
    SameBelow(m, dir, dir');
    ThrowsIff(m, dir', stored, stored, entries);
  }

  /** Only the root of such a tree has no name. */
  lemma {:induction false} RunNamed(fields: seq<Field>, dir: Directory)
    requires AllComplete(fields)
    requires Valid(Run(fields).0, dir) && dir[[]] == 0
    ensures AllNamed(Run(fields).0, dir)
  {
    hide Run, Add, Ordered, Injective, Named;
    var (m, stored) := Run(fields);
    var dir' := RunHolds(fields);
    SameBelow(m, dir, dir');
    forall p | p in dir
      ensures Named(m[dir[p]].kv) <==> p != []
    {
      if p != [] {
        var f :| f in fields && p < Id(f);
        PairAt(m, dir, p);
        assert p[|p| - 1] == Branch(f)[|p| - 1];
      } else {
        RootUnnamed(m, dir', stored);
      }
    }
  }

  lemma {:induction false} RootUnnamed(m: Memory, dir: Directory, stored: seq<Stored>)
    requires Holds(m, dir, stored)
    ensures [] in dir && IsBranch(m, dir[[]]) && !Named(m[dir[[]]].kv)
  {
  }

  /** No index of another field lies below the index of a field on the way to its branch. */
  predicate OwnIndexIsLast(stored: seq<Stored>, f: Field)
    requires f.datum != []
  {
    forall t :: t in stored ==> !(f.index < t.field.index <= Branch(f))
  }

  /** The event of a stored field: the path of its index and its key are the identifier. */
  predicate Tells(dir: Directory, stored: seq<Stored>, f: Field, e: Event, ip: Identifier)
    requires e.DatumVisited? && f.datum != []
  {
    && ip in dir && dir[ip] == e.index && ip + e.key == Id(f)
    && (ip == f.index && e.key == f.datum <==> OwnIndexIsLast(stored, f))
  }

  /** After any run, whatever threw, a visit from the root reports the data node of every
      stored field exactly once, and no other node. */
  lemma {:induction false} RunVisits(fields: seq<Field>, dir: Directory)
    requires AllComplete(fields)
    requires Valid(Run(fields).0, dir) && dir[[]] == 0
    ensures var (m, stored) := Run(fields);
            && Visit(m, dir, [], [], None, true).Some?
            && forall n: nat :: Reported(Visit(m, dir, [], [], None, true).value)[n] ==
                                if exists s :: s in stored && s.node == n then 1 else 0
  {
    hide Run, Visit, Valid, DataBelow, Reported, Complete;
    RunIsVisited(fields, dir);
    VisitReports(Run(fields).0, dir, [], [], None);
    RunNodes(fields, dir);
  }

  lemma {:induction false} RunIsVisited(fields: seq<Field>, dir: Directory)
    requires AllComplete(fields)
    requires Valid(Run(fields).0, dir) && dir[[]] == 0
    ensures [] in dir && Visit(Run(fields).0, dir, [], [], None, true).Some?
  {
    hide Run, Add, Ordered, Injective, Visit, Complete;
    var (m, stored) := Run(fields);
    RunThrows(fields, dir, true);
    StoredAreFields(fields);
    forall s | s in stored
      ensures IndexOn(s.field, Branch(s.field))
    {
      assert Complete(s.field);
      OwnIndex(s.field);
    }
  }

  lemma {:induction false} RunNodes(fields: seq<Field>, dir: Directory)
    requires AllComplete(fields)
    requires Valid(Run(fields).0, dir) && dir[[]] == 0
    ensures [] in dir
    ensures forall n: nat :: DataBelow(Run(fields).0, dir, [])[n] == if exists s :: s in Run(fields).1 && s.node == n then 1 else 0
  {
    hide Run, Add, Ordered, Injective, DataBelow, Files, Data, Complete, Contents;
    var (m, stored) := Run(fields);
    var dir' := RunHolds(fields);
    SameBelow(m, dir, dir');
    forall n: nat
      ensures Nodes(stored)[n] == if exists s :: s in stored && s.node == n then 1 else 0
    {
      NodesOnce(m, stored, n);
    }
  }

  lemma {:induction false} NodesOnce(m: Memory, stored: seq<Stored>, n: nat)
    requires Contents(m, stored)
    ensures Nodes(stored)[n] == if exists s :: s in stored && s.node == n then 1 else 0
  {
    if stored != [] {
      var init, last := stored[..|stored| - 1], stored[|stored| - 1];
      assert stored == init + [last];
      NodesOnce(m, init, n);
      assert forall s :: s in init ==> s.node < last.node;
      if exists s :: s in init && s.node == n {
        var s :| s in init && s.node == n;
        assert s in stored;
      }
    }
  }

  /** Every datum that such a visit reports is a stored field, and its event names it. */
  lemma {:induction false} RunNames(fields: seq<Field>, dir: Directory, e: Event) returns (s: Stored, ip: Identifier)
    requires AllComplete(fields)
    requires Valid(Run(fields).0, dir) && dir[[]] == 0
    requires Visit(Run(fields).0, dir, [], [], None, true).Some?
    requires e in Visit(Run(fields).0, dir, [], [], None, true).value && e.DatumVisited?
    ensures s in Run(fields).1 && s.node == e.data && s.field.datum != []
    ensures e.data < |Run(fields).0| && Run(fields).0[e.data] == DataNode(LastPair(s.field), s.field.data)
    ensures Tells(dir, Run(fields).1, s.field, e, ip)
  {
    hide Run, Add, Ordered, Injective, Visit, Files, DataBelow, Marked, Complete, HasDatum, Tells, Marks, Indexes;
    var (m, stored) := Run(fields);
    var dir' := RunHolds(fields);
    SameBelow(m, dir, dir');
    RunNamed(fields, dir);
    var q: Identifier;
    q, ip := VisitNames(m, dir, true, e);
    assert Has(stored, q, e.data);
    s :| s in stored && s.node == e.data && Branch(s.field) == q;
    StoredAreFields(fields);
    assert forall t :: t in stored ==> Complete(t.field);
    WholeId(s.field);
    NearestIs(m, dir, stored, s.field, ip);
    hide *;
    TellsOf(dir, stored, s.field, e, ip, m);
  }

  lemma {:induction false} WholeId(f: Field)
    requires f.datum != []
    ensures Branch(f) + [LastPair(f)] == Id(f)
  {
  }

  /** The last index on the way to a stored field is its own unless another lies below. */
  lemma {:induction false} NearestIs(m: Memory, dir: Directory, stored: seq<Stored>, f: Field, ip: Identifier)
    requires Holds(m, dir, stored) && Complete(f) && (exists s :: s in stored && s.field == f)
    requires Nearest(m, dir, ip, Branch(f))
    requires forall s :: s in stored ==> Complete(s.field)
    ensures ip == f.index <==> OwnIndexIsLast(stored, f)
  {
    hide Ordered, Injective, Files, Data, Contents, DataBelow, Marked, Marks, Indexes;
    Basics(m, dir, stored);
    OwnIndex(f);
    MarkedIff(m, dir, stored, ip);
    MarkedIff(m, dir, stored, f.index);
    assert IndexOn(f, f.index);
    assert f.index <= ip by { Comparable(f.index, ip, Branch(f)); }
    if !OwnIndexIsLast(stored, f) {
      var t :| t in stored && f.index < t.field.index <= Branch(f);
      MarkedIff(m, dir, stored, t.field.index);
      OwnIndex(t.field);
      assert IndexOn(t.field, t.field.index);
    }
  }

  lemma {:induction false} Comparable(a: Identifier, b: Identifier, c: Identifier)
    requires a <= c && b <= c
    ensures a <= b || b < a
  {
  }

  lemma {:induction false} TellsOf(dir: Directory, stored: seq<Stored>, f: Field, e: Event, ip: Identifier, m: Memory)
    requires e.DatumVisited? && f.datum != [] && ip in dir && dir[ip] == e.index && ip + e.key == Id(f)
    requires ip == f.index <==> OwnIndexIsLast(stored, f)
    ensures Tells(dir, stored, f, e, ip)
  {
    if ip == f.index {
      assert e.key == Id(f)[|ip|..] == f.datum;
    }
  }
}
