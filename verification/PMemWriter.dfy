/** The writer of the tree: the indexes that it has selected are kept, and a datum goes
    below the current one. */
module PMemWriter {
  import opened Wrappers
  import opened Keys
  import opened PMemTree
  import opened PMemRuns
  import opened PMemStore

  class PMemDBWriter {
    const pool: PMemPool
    var indexes: map<Identifier, nat>
    var current: Option<nat>
    ghost var dir: Directory

    ghost predicate Opened()
      reads this, pool
    {
      && Valid(pool.memory, dir) && dir[[]] == 0
      && (forall key :: key in indexes ==> key in dir && dir[key] == indexes[key])
      && (current.Some? ==> exists key :: key in dir && dir[key] == current.value)
    }

    /** A writer of a tree, whose directory is named for the proofs. */
    constructor (pool: PMemPool, ghost dir: Directory)
      requires Valid(pool.memory, dir) && dir[[]] == 0
      ensures Opened() && this.pool == pool && indexes == map[] && current.None?
    {
      this.pool, this.dir := pool, dir;
      indexes, current := map[], None;
    }

    /** An index that is kept is the one that creating its branch again would give. */
    method SelectIndex(key: Identifier) returns (ok: bool)
      requires Opened()
      modifies this, pool
      ensures Opened() && Closed(old(pool.memory)) && IsBranch(old(pool.memory), 0)
      ensures match Create(old(pool.memory), 0, key)
              case None => !ok && pool.memory == old(pool.memory) && current == old(current)
              case Some(selected) => ok && pool.memory == selected.0 && current == Some(selected.1)
    {
      hide Ordered, Injective, Closed, Local, Create;
      ClosedBranch(pool.memory, dir, []);
      assert [] + key == key;
      if key !in indexes {
        ghost var before := pool.memory;
        var node: nat;
        ok, node := pool.GetCreateBranchingNode(0, key);
        if !ok {
          return;
        }
        ghost var dir' := CreateKeeps(before, dir, [], key);
        dir := dir';
        indexes := indexes[key := node];
      } else {
        AlreadyThere(pool.memory, dir, key);
      }
      current := Some(indexes[key]);
      ok := true;
    }

    /** Below the current index: nothing is inserted where the insertion throws. */
    method Archive(datum: Identifier, data: string) returns (ok: bool)
      requires Opened() && current.Some? && datum != []
      modifies this`dir, pool
      ensures Opened() && Closed(old(pool.memory)) && IsBranch(old(pool.memory), old(current.value))
      ensures var (m, at, kv) := (old(pool.memory), old(current.value), datum[|datum| - 1]);
              var r := Insert(Allocate(m, kv, data), at, datum, |m|);
              ok == r.1 && IsBranch(r.0, at) && pool.memory == if ok then Mark(r.0, at) else r.0
    {
      hide Valid, Insert, Allocate, Mark, IsBranch, Closed;
      ghost var key :| key in dir && dir[key] == current.value;
      ghost var dir' := BelowKeeps(pool.memory, dir, key, datum, data);
      var at, d := current.value, |pool.memory|;
      pool.memory := Allocate(pool.memory, datum[|datum| - 1], data);
      ok := pool.InsertDataNode(at, datum, d);
      if ok {
        pool.memory := Mark(pool.memory, at);
      }
      dir := dir';
    }

    /** A field, archived with its index selected first, is one addition to the tree. */
    method Put(f: Field) returns (ok: bool, ghost node: nat)
      requires Opened() && f.datum != []
      modifies this, pool
      ensures Opened() && Closed(old(pool.memory)) && IsBranch(old(pool.memory), 0)
      ensures Add(old(pool.memory), f) == (pool.memory, if ok then Some(node) else None)
    {
      hide Ordered, Injective, Closed, Insert, Create, Valid;
      ok := SelectIndex(f.index);
      node := |pool.memory|;
      if ok {
        ok := Archive(f.datum, f.data);
      }
    }
  }

  lemma {:induction false} AlreadyThere(m: Memory, dir: Directory, key: Identifier)
    requires Valid(m, dir) && key in dir && dir[[]] == 0
    ensures Create(m, 0, key) == Some((m, dir[key]))
  {
    hide Ordered, Injective, Closed;
    assert [] + key == key;
    ReachIsDirectory(m, dir, [], key);
  }

  lemma {:induction false} BelowKeeps(m: Memory, dir: Directory, key: Identifier, datum: Identifier, data: string) returns (dir': Directory)
    requires Valid(m, dir) && key in dir && datum != []
    ensures Closed(m) && IsBranch(m, dir[key])
    ensures var m1 := Allocate(m, datum[|datum| - 1], data);
            && |m| < |m1| && m1[|m|].DataNode? && IsBranch(m1, dir[key])
            && var r := Insert(m1, dir[key], datum, |m|);
               && IsBranch(r.0, dir[key])
               && Valid(if r.1 then Mark(r.0, dir[key]) else r.0, dir') && Keeps(dir, dir') && dir'[[]] == dir[[]]
  {
    hide Ordered, Injective, Closed, Local, Insert;
    ClosedBranch(m, dir, key);
    var m1 := Allocate(m, datum[|datum| - 1], data);
    AlikeKeeps(m, dir, m1);
    ClosedBranch(m1, dir, key);
    dir' := InsertKeeps(m1, dir, key, datum, |m|);
    assert [] in dir by { RootIn(m, dir); }
    var r := Insert(m1, dir[key], datum, |m|);
    ClosedBranch(r.0, dir', key);
    if r.1 {
      AlikeKeeps(r.0, dir', Mark(r.0, dir[key]));
    }
  }
}