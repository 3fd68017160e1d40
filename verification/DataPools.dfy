/** The pools of persistent data: managers in several processes share an append-only list
    of pools, of which only the last can still be written. */
module DataPools {
  import opened Wrappers
  import opened Keys

  /** What an empty pool can hold. */
  const CAPACITY: nat := 1073741824

  datatype Pool = Pool(uuid: nat, finalised: bool, used: nat)

  /** `DataPoolManager`: the opened pools by identifier, and the pool being written. */
  datatype Manager = Manager(table: map<nat, nat>, current: Option<nat>)

  /** The list of identifiers in the shared root, the pools by index, and the managers. */
  datatype State = State(ids: seq<nat>, pools: seq<Pool>, managers: seq<Manager>)

  // ----- The operations -----

  /** `currentWritePool` of one manager, when no pool is current: the last pool if it is
      not finalised, otherwise a new one.  The lock of the root makes it one step. */
  function Choose(ids: seq<nat>, pools: seq<Pool>, m: Manager, uuid: nat): (seq<nat>, seq<Pool>, Manager)
    requires |ids| == |pools|
  {
    var n := |ids|;
    if n > 0 && ids[n - 1] in m.table && m.table[ids[n - 1]] < n && !pools[m.table[ids[n - 1]]].finalised then
      (ids, pools, m.(current := Some(m.table[ids[n - 1]])))
    else if n > 0 && ids[n - 1] !in m.table && !pools[n - 1].finalised then
      (ids, pools, Manager(m.table[pools[n - 1].uuid := n - 1], Some(n - 1)))
    else
      var table := if n > 0 && ids[n - 1] !in m.table then m.table[pools[n - 1].uuid := n - 1] else m.table;
      (ids + [uuid], pools + [Pool(uuid, false, 0)], Manager(table[uuid := n], Some(n)))
  }

  /** The identifier of a new pool is new. */
  predicate Fresh(ids: seq<nat>, m: Manager, uuid: nat)
  {
    uuid !in ids && uuid !in m.table
  }

  /** `PersistentPtr::allocate_ctr`: whether there is room. */
  predicate HasRoom(pool: Pool, size: nat)
  {
    pool.used + size <= CAPACITY
  }

  /** Where an identifier stands in the list; nothing where the source throws. */
  function IndexOf(ids: seq<nat>, uuid: nat): (r: Option<nat>)
    ensures r.Some? ==> r.value < |ids| && ids[r.value] == uuid
    ensures r.None? ==> uuid !in ids
  {
    if ids == [] then None
    else if ids[|ids| - 1] == uuid then Some(|ids| - 1)
    else IndexOf(ids[..|ids| - 1], uuid)
  }

  datatype Step =
    | Chooses(k: nat, uuid: nat)          // currentWritePool
    | Allocates(k: nat, size: nat)        // in the current pool, if there is room
    | Invalidates(k: nat, pool: nat)      // invalidateCurrentPool after a failure in `pool`
    | Loads(k: nat, uuid: nat)            // ensurePoolLoaded

  function Do(s: State, step: Step): (r: Option<State>)
    requires |s.ids| == |s.pools|
    ensures r.Some? ==> |r.value.ids| == |r.value.pools|
  {
    if step.k >= |s.managers| then None
    else
      var k, m := step.k, s.managers[step.k];
      match step
      case Chooses(_, uuid) =>
        if m.current.Some? then Some(s)
        else if !Fresh(s.ids, m, uuid) then None
        else var r := Choose(s.ids, s.pools, m, uuid); Some(State(r.0, r.1, s.managers[k := r.2]))
      case Allocates(_, size) =>
        if m.current.Some? && m.current.value < |s.pools| && HasRoom(s.pools[m.current.value], size) then
          var i := m.current.value;
          Some(s.(pools := s.pools[i := s.pools[i].(used := s.pools[i].used + size)]))
        else None
      case Invalidates(_, pool) =>
        if m.current == Some(pool) && pool < |s.pools| then
          Some(s.(pools := s.pools[pool := s.pools[pool].(finalised := true)], managers := s.managers[k := m.(current := None)]))
        else Some(s)
      case Loads(_, uuid) =>
        if uuid in m.table then Some(s)
        else match IndexOf(s.ids, uuid)
          case None => None
          case Some(i) => Some(s.(managers := s.managers[k := m.(table := m.table[uuid := i])]))
  }

  // ----- The invariant -----

  /** The list names the pools in order, and all but the last are finalised. */
  predicate Listed(ids: seq<nat>, pools: seq<Pool>)
  {
    && |ids| == |pools|
    && (forall i :: 0 <= i < |ids| ==> ids[i] == pools[i].uuid && pools[i].used <= CAPACITY)
    && (forall i, j :: 0 <= i < j < |ids| ==> ids[i] != ids[j])
    && (forall i :: 0 <= i < |pools| - 1 ==> pools[i].finalised)
  }

  /** A manager's table maps an identifier to the pool that bears it. */
  predicate Opened(ids: seq<nat>, m: Manager)
  {
    && (forall u :: u in m.table ==> m.table[u] < |ids| && ids[m.table[u]] == u)
    && (m.current.Some? ==> m.current.value < |ids| && ids[m.current.value] in m.table)
  }

  predicate Inv(s: State)
  {
    Listed(s.ids, s.pools) && forall k :: 0 <= k < |s.managers| ==> Opened(s.ids, s.managers[k])
  }

  /** The list only grows, and a finalised pool stays finalised. */
  predicate Grows(s: State, s': State)
  {
    && s.ids <= s'.ids && |s.pools| <= |s'.pools|
    && forall i :: 0 <= i < |s.pools| ==> s'.pools[i].uuid == s.pools[i].uuid && (s.pools[i].finalised ==> s'.pools[i].finalised)
  }

  lemma {:induction false} OpenedGrows(ids: seq<nat>, more: seq<nat>, m: Manager)
    requires Opened(ids, m)
    ensures Opened(ids + more, m)
  {
    forall u | u in m.table
      ensures (ids + more)[m.table[u]] == u
    {
    }
  }

  /** Choosing makes the last pool current, which is not finalised; it is a new, empty one
      where the last pool before was finalised or there was none. */
  lemma {:induction false} ChooseKeeps(ids: seq<nat>, pools: seq<Pool>, m: Manager, uuid: nat)
    requires Listed(ids, pools) && Opened(ids, m) && Fresh(ids, m, uuid)
    ensures var (ids', pools', m') := Choose(ids, pools, m, uuid);
            && Listed(ids', pools') && Opened(ids', m') && m'.current == Some(|ids'| - 1)
            && !pools'[|ids'| - 1].finalised
            && (if ids != [] && !pools[|ids| - 1].finalised then ids' == ids && pools' == pools
                else ids' == ids + [uuid] && pools' == pools + [Pool(uuid, false, 0)])
  {
    var n := |ids|;
    if n > 0 && ids[n - 1] in m.table {
      assert m.table[ids[n - 1]] == n - 1;
    }
    if n == 0 || pools[n - 1].finalised {
      OpenedGrows(ids, [uuid], m);
      assert forall i :: 0 <= i < n ==> (ids + [uuid])[i] == ids[i];
      assert forall i :: 0 <= i < n ==> ids[i] != uuid;
    }
  }

  lemma {:induction false} OpenedFresh(ids: seq<nat>, m: Manager, uuid: nat)
    requires Opened(ids, m) && uuid !in ids
    ensures Fresh(ids, m, uuid)
  {
  }

  lemma {:induction false} SameLength(ids: seq<nat>, pools: seq<Pool>)
    requires Listed(ids, pools)
    ensures |ids| == |pools|
  {
  }

  lemma {:induction false} LastPool(ids: seq<nat>, pools: seq<Pool>, m: Manager)
    requires Listed(ids, pools) && Opened(ids, m)
    ensures |ids| == |pools|
    ensures ids != [] ==> pools[|ids| - 1].uuid == ids[|ids| - 1]
    ensures ids != [] && ids[|ids| - 1] in m.table ==> m.table[ids[|ids| - 1]] == |ids| - 1
  {
  }

  lemma {:induction false} UseKeeps(ids: seq<nat>, pools: seq<Pool>, i: nat, size: nat)
    requires Listed(ids, pools) && i < |pools| && HasRoom(pools[i], size)
    ensures Listed(ids, pools[i := pools[i].(used := pools[i].used + size)])
  {
  }

  lemma {:induction false} ChoosesKeeps(s: State, step: Step)
    requires Inv(s) && Do(s, step).Some? && step.Chooses? && s.managers[step.k].current.None?
    ensures Inv(Do(s, step).value) && Grows(s, Do(s, step).value)
  {
    hide Choose, Listed, Opened;
    SameLength(s.ids, s.pools);
    var s', k := Do(s, step).value, step.k;
    ChooseKeeps(s.ids, s.pools, s.managers[k], step.uuid);
    forall j | 0 <= j < |s.managers| && j != k
      ensures Opened(s'.ids, s.managers[j])
    {
      OpenedGrows(s.ids, s'.ids[|s.ids|..], s.managers[j]);
      assert s'.ids == s.ids + s'.ids[|s.ids|..];
    }
  }

  lemma {:induction false} DoKeeps(s: State, step: Step)
    requires Inv(s) && Do(s, step).Some?
    ensures Inv(Do(s, step).value) && Grows(s, Do(s, step).value)
  {
    if step.Chooses? && s.managers[step.k].current.None? {
      hide Choose, Inv, Grows;
      ChoosesKeeps(s, step);
    } else {
      hide Choose;
    }
  }

  function Run(managers: nat, steps: seq<Step>): (r: Option<State>)
    ensures r.Some? ==> |r.value.ids| == |r.value.pools|
  {
    if steps == [] then Some(State([], [], seq(managers, _ => Manager(map[], None))))
    else
      match Run(managers, steps[..|steps| - 1])
      case None => None
      case Some(s) => Do(s, steps[|steps| - 1])
  }

  /** In every interleaving of the managers: all pools but the last are finalised, every
      table maps identifiers to the pools that bear them, and nothing is over-full. */
  lemma {:induction false} RunKeeps(managers: nat, steps: seq<Step>)
    requires Run(managers, steps).Some?
    ensures Inv(Run(managers, steps).value)
    ensures steps != [] ==> Run(managers, steps[..|steps| - 1]).Some? &&
                            Grows(Run(managers, steps[..|steps| - 1]).value, Run(managers, steps).value)
  {
    if steps != [] {
      hide Do, Inv, Grows;
      RunKeeps(managers, steps[..|steps| - 1]);
      DoKeeps(Run(managers, steps[..|steps| - 1]).value, steps[|steps| - 1]);
    }
  }

  predicate WritesTo(s: State, k: nat, i: nat)
  {
    k < |s.managers| && s.managers[k].current == Some(i)
  }

  /** The sizes of the objects that a run allocated while pool `i` was the current one of
      the manager at work. */
  function Placed(managers: nat, steps: seq<Step>, i: nat): nat
  {
    if steps == [] then 0
    else
      var before, last := steps[..|steps| - 1], steps[|steps| - 1];
      Placed(managers, before, i)
      + if last.Allocates? && Run(managers, before).Some? && WritesTo(Run(managers, before).value, last.k, i) then last.size else 0
  }

  /** Some manager that wrote to pool `i` has let it go in a run. */
  predicate LetGo(managers: nat, steps: seq<Step>, i: nat)
  {
    steps != [] &&
      var before, last := steps[..|steps| - 1], steps[|steps| - 1];
      LetGo(managers, before, i)
      || (last.Invalidates? && last.pool == i && Run(managers, before).Some? && WritesTo(Run(managers, before).value, last.k, i))
  }

  /** Pools lose nothing: each is used by exactly what was allocated in it, and is finalised
      exactly when a manager that wrote to it has let it go. */
  lemma {:induction false} PoolsHoldAll(managers: nat, steps: seq<Step>, i: nat)
    requires Run(managers, steps).Some?
    ensures var pools := Run(managers, steps).value.pools;
            if i < |pools| then pools[i].used == Placed(managers, steps, i) <= CAPACITY && (pools[i].finalised <==> LetGo(managers, steps, i))
            else Placed(managers, steps, i) == 0 && !LetGo(managers, steps, i)
  {
    RunKeeps(managers, steps);
    if steps != [] {
      hide Do, Grows, Opened;
      PoolsHoldAll(managers, steps[..|steps| - 1], i);
      StepPlaces(Run(managers, steps[..|steps| - 1]).value, steps[|steps| - 1], i);
    }
  }

  lemma {:induction false} StepPlaces(s: State, step: Step, i: nat)
    requires |s.ids| == |s.pools| && Do(s, step).Some?
    ensures var was, pools := s.pools, Do(s, step).value.pools;
            && |was| <= |pools|
            && (i >= |was| ==> !(step.Allocates? && WritesTo(s, step.k, i)) && !(step.Invalidates? && step.pool == i && WritesTo(s, step.k, i)
                               && i < |pools|))
            && (|was| <= i < |pools| ==> pools[i].used == 0 && !pools[i].finalised)
            && (i < |was| ==>
                  && pools[i].used == was[i].used + (if step.Allocates? && WritesTo(s, step.k, i) then step.size else 0)
                  && (pools[i].finalised <==> was[i].finalised || (step.Invalidates? && step.pool == i && WritesTo(s, step.k, i))))
  {
  }

  // ----- One turn of the allocation loop -----

  /** Without other processes the current pool is the last one. */
  predicate Alone(ids: seq<nat>, m: Manager)
  {
    m.current.Some? ==> m.current == Some(|ids| - 1)
  }

  /** Whether the next object goes into the last pool that there is. */
  predicate Writable(pools: seq<Pool>, m: Manager)
  {
    pools != [] && (m.current.Some? || !pools[|pools| - 1].finalised)
  }

  datatype Turn = Turn(ids: seq<nat>, pools: seq<Pool>, m: Manager, done: bool)

  function TurnOf(ids: seq<nat>, pools: seq<Pool>, m: Manager, size: nat, uuid: nat): Turn
    requires Listed(ids, pools) && Opened(ids, m) && Fresh(ids, m, uuid)
  {
    if m.current.Some? then Use(ids, pools, m, size)
    else
      ChooseKeeps(ids, pools, m, uuid);
      var (ids', pools', m') := Choose(ids, pools, m, uuid);
      Use(ids', pools', m', size)
  }

  /** Allocation in the current pool; without room the pool is finalised and let go. */
  function Use(ids: seq<nat>, pools: seq<Pool>, m: Manager, size: nat): Turn
    requires m.current.Some? && m.current.value < |pools|
  {
    var i := m.current.value;
    if HasRoom(pools[i], size) then Turn(ids, pools[i := pools[i].(used := pools[i].used + size)], m, true)
    else Turn(ids, pools[i := pools[i].(finalised := true)], m.(current := None), false)
  }

  lemma {:induction false} UsesLast(ids: seq<nat>, pools: seq<Pool>, m: Manager, size: nat)
    requires Listed(ids, pools) && Opened(ids, m) && m.current == Some(|ids| - 1)
    ensures |ids| == |pools| > 0
    ensures var t := Use(ids, pools, m, size);
            && Listed(t.ids, t.pools) && Opened(t.ids, t.m) && Alone(t.ids, t.m) && t.ids == ids && |t.pools| == |pools|
            && (t.done <==> pools[|pools| - 1].used + size <= CAPACITY)
            && (t.done ==> t.m.current.Some? && t.pools[|t.pools| - 1].used >= size)
            && (!t.done ==> !Writable(t.pools, t.m))
  {
    SameLength(ids, pools);
    CurrentListed(ids, m);
    hide Listed, Opened;
    FinaliseKeeps(ids, pools, m, |ids| - 1);
    if HasRoom(pools[|ids| - 1], size) {
      UseKeeps(ids, pools, |ids| - 1, size);
    }
  }

  /** A turn allocates exactly when the pool it writes to has room: the last one, or a new
      one where the last is finalised.  A turn that fails leaves no pool to write to. */
  lemma {:induction false} TurnKeeps(ids: seq<nat>, pools: seq<Pool>, m: Manager, size: nat, uuid: nat)
    requires Listed(ids, pools) && Opened(ids, m) && Fresh(ids, m, uuid) && Alone(ids, m)
    ensures var t, reuse := TurnOf(ids, pools, m, size, uuid), Writable(pools, m);
            && Listed(t.ids, t.pools) && Opened(t.ids, t.m) && Alone(t.ids, t.m)
            && t.ids == (if reuse then ids else ids + [uuid])
            && (t.done <==> (if reuse then pools[|pools| - 1].used else 0) + size <= CAPACITY)
            && (t.done ==> t.m.current.Some? && |t.pools| == |t.ids| && t.pools[|t.ids| - 1].used >= size)
            && (!t.done ==> !Writable(t.pools, t.m))
  {
    hide Choose, Listed, Opened, Fresh, Use;
    SameLength(ids, pools);
    if m.current.Some? {
      UsesLast(ids, pools, m, size);
    } else {
      ChooseKeeps(ids, pools, m, uuid);
      var (ids', pools', m') := Choose(ids, pools, m, uuid);
      UsesLast(ids', pools', m', size);
    }
    var t := TurnOf(ids, pools, m, size, uuid);
    SameLength(t.ids, t.pools);
  }

  lemma {:induction false} CurrentListed(ids: seq<nat>, m: Manager)
    requires Opened(ids, m)
    ensures m.current.Some? ==> m.current.value < |ids|
  {
  }

  lemma {:induction false} FinaliseKeeps(ids: seq<nat>, pools: seq<Pool>, m: Manager, i: nat)
    requires Listed(ids, pools) && Opened(ids, m) && i < |pools|
    ensures Listed(ids, pools[i := pools[i].(finalised := true)]) && Opened(ids, m.(current := None))
  {
  }

  /** What holds after some turns of the loop that began with the pools `before`. */
  ghost predicate Tried(before: seq<nat>, t: Turn, size: nat, attempts: nat, uuids: nat -> nat)
  {
    && before <= t.ids && Alone(t.ids, t.m) && |t.ids| == |t.pools|
    && (forall i :: i >= attempts ==> uuids(i) !in t.ids)
    && (attempts > 0 && !t.done ==> !Writable(t.pools, t.m))
    && (size <= CAPACITY ==> |t.ids| <= |before| + (if t.done then 1 else 0) && attempts <= if t.done then 2 else 1)
    && (size > CAPACITY ==> !t.done && (attempts > 0 ==> |t.ids| + 1 >= |before| + attempts))
    && (t.done ==> t.m.current == Some(|t.ids| - 1) && t.ids != [] && t.pools[|t.ids| - 1].used >= size)
  }

  lemma {:induction false} NothingTried(before: seq<nat>, t: Turn, size: nat, uuids: nat -> nat)
    requires t.ids == before && |t.ids| == |t.pools| && !t.done && Alone(t.ids, t.m) && forall i :: uuids(i) !in t.ids
    ensures Tried(before, t, size, 0, uuids)
  {
  }

  lemma {:induction false} TryAgain(before: seq<nat>, t: Turn, size: nat, attempts: nat, uuids: nat -> nat)
    requires Listed(t.ids, t.pools) && Opened(t.ids, t.m) && Tried(before, t, size, attempts, uuids) && !t.done
    requires forall i, j :: i != j ==> uuids(i) != uuids(j)
    ensures uuids(attempts) !in t.ids && Fresh(t.ids, t.m, uuids(attempts)) && Alone(t.ids, t.m)
    ensures Tried(before, TurnOf(t.ids, t.pools, t.m, size, uuids(attempts)), size, attempts + 1, uuids)
  {
    OpenedFresh(t.ids, t.m, uuids(attempts));
    TurnKeeps(t.ids, t.pools, t.m, size, uuids(attempts));
    var t' := TurnOf(t.ids, t.pools, t.m, size, uuids(attempts));
    SameLength(t.ids, t.pools);
    SameLength(t'.ids, t'.pools);
    hide TurnOf, Listed, Opened, Fresh;
    assert t.ids <= t'.ids;
    assert size > CAPACITY && !Writable(t.pools, t.m) ==> |t'.ids| == |t.ids| + 1;
    forall i | i >= attempts + 1
      ensures uuids(i) !in t'.ids
    {
      assert uuids(i) !in t.ids && uuids(i) != uuids(attempts);
    }
  }

  lemma {:induction false} HaveTried(before: seq<nat>, t: Turn, size: nat, attempts: nat, uuids: nat -> nat)
    requires Tried(before, t, size, attempts, uuids)
    ensures before <= t.ids
    ensures size <= CAPACITY ==> |t.ids| <= |before| + (if t.done then 1 else 0) && attempts <= if t.done then 2 else 1
    ensures size > CAPACITY ==> !t.done && (attempts > 0 ==> |t.ids| + 1 >= |before| + attempts)
    ensures t.done ==> t.m.current == Some(|t.ids| - 1) && |t.ids| == |t.pools| > 0 && t.pools[|t.ids| - 1].used >= size
  {
  }

  // ----- Allocation, in place -----

  /** The root that all managers share. */
  class PIndexRoot {
    var ids: seq<nat>
    var pools: seq<Pool>

    constructor ()
      ensures ids == [] && pools == []
    {
      ids, pools := [], [];
    }
  }

  class DataPoolManager {
    const root: PIndexRoot
    var table: map<nat, nat>
    var current: Option<nat>

    constructor (root: PIndexRoot)
      ensures this.root == root && table == map[] && current == None
    {
      this.root := root;
      table, current := map[], None;
    }

    predicate Valid()
      reads this, root
    {
      Listed(root.ids, root.pools) && Opened(root.ids, Manager(table, current))
    }

    method CurrentWritePool(uuid: nat) returns (pool: nat)
      requires Valid() && Fresh(root.ids, Manager(table, current), uuid)
      modifies this, root
      ensures Valid() && current == Some(pool)
      ensures if old(current).Some? then root.ids == old(root.ids) && root.pools == old(root.pools) && table == old(table) && pool == old(current).value
              else (root.ids, root.pools, Manager(table, current)) == Choose(old(root.ids), old(root.pools), old(Manager(table, current)), uuid)
    {
      ChooseKeeps(root.ids, root.pools, Manager(table, current), uuid);
      LastPool(root.ids, root.pools, Manager(table, current));
      hide Listed, Opened, Fresh;
      if current == None {
        var count := |root.ids|;
        if count > 0 {
          var idx := count - 1;
          var last := root.ids[idx];
          if last !in table {
            table := table[root.pools[idx].uuid := idx];
            last := root.pools[idx].uuid;
          }
          if !root.pools[table[last]].finalised {
            current := Some(table[last]);
          }
        }
        if current == None {
          root.pools := root.pools + [Pool(uuid, false, 0)];
          table := table[uuid := count];
          root.ids := root.ids + [uuid];
          current := Some(count);
        }
      }
      pool := current.value;
    }

    method InvalidateCurrentPool(pool: nat)
      requires Valid()
      modifies this`current, root`pools
      ensures Valid()
      ensures old(current) != Some(pool) ==> root.pools == old(root.pools) && current == old(current)
      ensures old(current) == Some(pool) ==> current == None && root.pools == old(root.pools)[pool := old(root.pools)[pool].(finalised := true)]
    {
      if current != Some(pool) {
        return;
      }
      root.pools := root.pools[pool := root.pools[pool].(finalised := true)];
      current := None;
    }

    /** One turn of the loop of `allocate`. */
    method Attempt(size: nat, uuid: nat) returns (done: bool)
      requires Valid() && uuid !in root.ids && Alone(root.ids, Manager(table, current))
      modifies this, root
      ensures Turn(root.ids, root.pools, Manager(table, current), done) == TurnOf(old(root.ids), old(root.pools), old(Manager(table, current)), size, uuid)
      ensures Valid()
    {
      OpenedFresh(root.ids, Manager(table, current), uuid);
      TurnKeeps(root.ids, root.pools, Manager(table, current), size, uuid);
      hide Choose, Listed, Opened, Fresh, Alone, Use;
      var pool := CurrentWritePool(uuid);
      done := AllocateIn(pool, size);
    }

    /** Allocation in the current pool, which is let go where it has no room. */
    method AllocateIn(pool: nat, size: nat) returns (done: bool)
      requires Valid() && current == Some(pool)
      modifies this`current, root`pools
      ensures Valid() && root.ids == old(root.ids)
      ensures pool < |old(root.pools)|
      ensures Turn(root.ids, root.pools, Manager(table, current), done) == Use(old(root.ids), old(root.pools), old(Manager(table, current)), size)
    {
      SameLength(root.ids, root.pools);
      CurrentListed(root.ids, Manager(table, current));
      FinaliseKeeps(root.ids, root.pools, Manager(table, current), pool);
      done := HasRoom(root.pools[pool], size);
      if done {
        UseKeeps(root.ids, root.pools, pool, size);
        hide Listed, Opened;
        root.pools := root.pools[pool := root.pools[pool].(used := root.pools[pool].used + size)];
      } else {
        hide Listed, Opened;
        InvalidateCurrentPool(pool);
      }
    }

    /** `allocate` without other processes, cut off after some turns.  It ends within two
        turns if an empty pool can hold the object; if not, it never ends, and every
        further turn adds a pool. */
    method Allocate(size: nat, turns: nat, uuids: nat -> nat) returns (done: bool, attempts: nat)
      requires Valid() && Alone(root.ids, Manager(table, current))
      requires forall i :: uuids(i) !in root.ids
      requires forall i, j :: i != j ==> uuids(i) != uuids(j)
      modifies this, root
      ensures Valid() && attempts <= turns && old(root.ids) <= root.ids
      ensures size <= CAPACITY && turns >= 2 ==> done && attempts <= 2 && |root.ids| <= |old(root.ids)| + 1
      ensures size > CAPACITY ==> !done && attempts == turns && |root.ids| + 1 >= |old(root.ids)| + turns
      ensures done ==> current == Some(|root.ids| - 1) && root.pools[|root.ids| - 1].used >= size
    {
      hide TurnOf, Listed, Opened, Fresh, Tried, Alone;
      done, attempts := false, 0;
      SameLength(root.ids, root.pools);
      NothingTried(root.ids, Turn(root.ids, root.pools, Manager(table, current), false), size, uuids);
      while attempts < turns && !done
        invariant attempts <= turns && Valid()
        invariant Tried(old(root.ids), Turn(root.ids, root.pools, Manager(table, current), done), size, attempts, uuids)
        decreases turns - attempts, !done
      {
        TryAgain(old(root.ids), Turn(root.ids, root.pools, Manager(table, current), done), size, attempts, uuids);
        done := Attempt(size, uuids(attempts));
        attempts := attempts + 1;
      }
      HaveTried(old(root.ids), Turn(root.ids, root.pools, Manager(table, current), done), size, attempts, uuids);
    }
  }
}
