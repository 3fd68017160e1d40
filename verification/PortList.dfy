/** The list of data ports that server processes share: filled once, handed out one at a
    time, and taken back by a reaper from processes that have been dead long enough. */
module PortList {
  import opened Wrappers

  /** `pid` and `deadTime` are zero where unused. */
  datatype Entry = Entry(port: int, pid: nat, deadTime: nat)

  // ----- What the list is filled with -----

  /** The free ports from `start` on, in order and without a gap. */
  ghost predicate Filled(ports: seq<int>, start: int, skip: set<int>)
  {
    && (forall i, j :: 0 <= i < j < |ports| ==> ports[i] < ports[j])
    && (forall i :: 0 <= i < |ports| ==> start <= ports[i] && ports[i] !in skip)
    && forall p :: start <= p && p !in skip && (exists i :: 0 <= i < |ports| && p < ports[i]) ==> p in ports
  }

  /** The free ports from `start` to before `port`. */
  ghost predicate FilledTo(ports: seq<int>, start: int, skip: set<int>, port: int)
  {
    && (forall i, j :: 0 <= i < j < |ports| ==> ports[i] < ports[j])
    && forall p :: p in ports <==> start <= p < port && p !in skip
  }

  lemma {:induction false} NothingFilled(start: int, skip: set<int>)
    ensures FilledTo(Ports([]), start, skip, start)
  {
  }

  lemma {:induction false} FillStep(ports: seq<int>, start: int, skip: set<int>, port: int)
    requires FilledTo(ports, start, skip, port) && start <= port
    ensures FilledTo(if port in skip then ports else ports + [port], start, skip, port + 1)
    ensures port in skip ==> |Ahead(skip, port + 1)| < |Ahead(skip, port)|
  {
    if port in skip {
      assert port in Ahead(skip, port) && Ahead(skip, port + 1) == Ahead(skip, port) - {port};
    } else {
      var more := ports + [port];
      forall i, j | 0 <= i < j < |more|
        ensures more[i] < more[j]
      {
        assert j == |ports| ==> ports[i] in ports;
      }
      assert more[|ports|] == port;
      assert forall p :: p in ports ==> p in more;
    }
  }

  lemma {:induction false} FilledToIsFilled(ports: seq<int>, start: int, skip: set<int>, port: int)
    requires FilledTo(ports, start, skip, port)
    ensures Filled(ports, start, skip)
  {
    forall i | 0 <= i < |ports|
      ensures start <= ports[i] < port && ports[i] !in skip
    {
      assert ports[i] in ports;
    }
  }

  /** The ports not below `port` that must be skipped. */
  function Ahead(skip: set<int>, port: int): set<int>
  {
    set p | p in skip && p >= port
  }

  function Ports(entries: seq<Entry>): (r: seq<int>)
    ensures |r| == |entries|
  {
    seq(|entries|, i requires 0 <= i < |entries| => entries[i].port)
  }

  // ----- Taking and reaping, on one entry -----

  function Reaped(e: Entry, now: nat, running: set<nat>, grace: nat): Entry
  {
    if e.deadTime != 0 then (if now >= e.deadTime + grace then Entry(e.port, 0, 0) else e)
    else if e.pid != 0 && e.pid !in running then e.(deadTime := now)
    else e
  }

  /** The assertions of `reap`. */
  predicate Consistent(e: Entry, now: nat, running: set<nat>)
  {
    e.deadTime != 0 ==> e.pid != 0 && e.deadTime <= now && e.pid !in running
  }

  /** How far `acquire` takes free entries, from an index on: up to the first whose port
      is no service, or to the end. */
  function TakenUpTo(entries: seq<Entry>, from: nat, services: set<int>): (n: nat)
    requires from <= |entries|
    ensures from <= n <= |entries|
    ensures n < |entries| ==> entries[n].pid == 0 && entries[n].port !in services
    ensures forall i :: from <= i < n ==> entries[i].pid != 0 || entries[i].port in services
    decreases |entries| - from
  {
    if from == |entries| || (entries[from].pid == 0 && entries[from].port !in services) then from
    else TakenUpTo(entries, from + 1, services)
  }

  /** The entries after `acquire`: all free ones on the way are taken too. */
  function Acquired(entries: seq<Entry>, n: nat, pid: nat): seq<Entry>
    requires n <= |entries|
  {
    seq(|entries|, i requires 0 <= i < |entries| =>
      if i <= n && entries[i].pid == 0 then Entry(entries[i].port, pid, 0) else entries[i])
  }

  /** What reaping does to one entry: it is freed if and only if it was marked as dead for at
      least the grace period, marked if and only if its owner has just been found dead, and
      otherwise left as it was; its port stays. */
  lemma {:induction false} ReapExactly(e: Entry, now: nat, running: set<nat>, grace: nat)
    requires now > 0 && Consistent(e, now, running)
    ensures var r := Reaped(e, now, running, grace);
            && r.port == e.port
            && (e.pid != 0 && r.pid == 0 <==> e.deadTime != 0 && now - e.deadTime >= grace)
            && (e.deadTime == 0 && r.deadTime != 0 <==> e.deadTime == 0 && e.pid != 0 && e.pid !in running)
            && (r.pid == 0 ==> r.deadTime == 0 || e.pid == 0)
            && (r.pid != 0 ==> r.pid == e.pid && r.deadTime in {e.deadTime, now})
  {
  }

  /** The port of a process that has died is free after two reapings that are a grace period
      apart, and not before the grace period is over. */
  lemma {:induction false} TwoReapsFree(e: Entry, first: nat, second: nat, running: set<nat>, running': set<nat>, grace: nat)
    requires e.pid != 0 && e.deadTime == 0 && first > 0 && e.pid !in running && e.pid !in running' && first <= second
    ensures var marked := Reaped(e, first, running, grace);
            && marked == Entry(e.port, e.pid, first)
            && Reaped(marked, second, running', grace) == if second - first >= grace then Entry(e.port, 0, 0) else marked
  {
  }

  /** The port that `acquire` returns. */
  function Returned(entries: seq<Entry>, services: set<int>): Option<int>
  {
    var n := TakenUpTo(entries, 0, services);
    if n < |entries| then Some(entries[n].port) else None
  }

  class AvailablePortList {
    var shared: array<Entry>
    const startPort: int

    constructor (startPort: int, shared: array<Entry>)
      ensures this.shared == shared && this.startPort == startPort
    {
      this.startPort, this.shared := startPort, shared;
    }

    /** It ends because only finitely many ports are skipped. */
    method Initialise(skip: set<int>)
      modifies shared
      ensures if forall i :: 0 <= i < shared.Length ==> old(shared[i]).port != 0 then shared[..] == old(shared[..])
              else Filled(Ports(shared[..]), startPort, skip) && forall i :: 0 <= i < shared.Length ==> shared[i].pid == 0 && shared[i].deadTime == 0
    {
      var initialised, k := true, 0;
      while k < shared.Length && initialised
        invariant 0 <= k <= shared.Length
        invariant initialised ==> forall i :: 0 <= i < k ==> shared[i].port != 0
        invariant !initialised ==> exists i :: 0 <= i < shared.Length && shared[i].port == 0
        decreases shared.Length - k, initialised
      {
        if shared[k].port == 0 {
          initialised := false;
        }
        k := k + 1;
      }
      if initialised {
        return;
      }
      Fill(skip);
    }

    method Fill(skip: set<int>)
      modifies shared
      ensures Filled(Ports(shared[..]), startPort, skip) && forall i :: 0 <= i < shared.Length ==> shared[i].pid == 0 && shared[i].deadTime == 0
    {
      hide FilledTo, Filled, Ahead;
      var found, port := 0, startPort;
      NothingFilled(startPort, skip);
      assert shared[..0] == [];
      while found < shared.Length
        invariant 0 <= found <= shared.Length && startPort <= port
        invariant FilledTo(Ports(shared[..found]), startPort, skip, port)
        invariant forall i :: 0 <= i < found ==> shared[i].pid == 0 && shared[i].deadTime == 0
        decreases shared.Length - found, |Ahead(skip, port)|
      {
        FillStep(Ports(shared[..found]), startPort, skip, port);
        if port !in skip {
          ghost var before := shared[..found];
          shared[found] := Entry(port, 0, 0);
          assert shared[..found + 1] == before + [Entry(port, 0, 0)];
          assert Ports(shared[..found + 1]) == Ports(before) + [port];
          found := found + 1;
        }
        port := port + 1;
      }
      assert shared[..found] == shared[..];
      FilledToIsFilled(Ports(shared[..]), startPort, skip, port);
    }

    /** The first free port that is no service; nothing where the ports are exhausted, or
        where the assertion fails that the list is filled. */
    method Acquire(pid: nat, services: set<int>) returns (r: Option<int>)
      requires shared.Length > 0
      modifies shared
      ensures if old(shared[0]).port == 0 then r == None && shared[..] == old(shared[..])
              else shared[..] == Acquired(old(shared[..]), TakenUpTo(old(shared[..]), 0, services), pid) && r == Returned(old(shared[..]), services)
      ensures r.Some? ==> exists n :: 0 <= n < shared.Length && old(shared[n]).pid == 0 && shared[n] == Entry(r.value, pid, 0) && r.value !in services
      ensures forall i :: 0 <= i < shared.Length ==> shared[i].port == old(shared[i]).port && (old(shared[i]).pid != 0 ==> shared[i] == old(shared[i]))
      ensures forall i :: 0 <= i < shared.Length && old(shared[i]).pid == 0 ==> shared[i] == old(shared[i]) || shared[i] == Entry(old(shared[i]).port, pid, 0)
    {
      if shared[0].port == 0 {
        return None;
      }
      var it := 0;
      while it < shared.Length
        invariant 0 <= it <= shared.Length
        invariant TakenUpTo(old(shared[..]), 0, services) == TakenUpTo(old(shared[..]), it, services)
        invariant forall i :: 0 <= i < it ==>
          shared[i] == if old(shared[i]).pid == 0 then Entry(old(shared[i]).port, pid, 0) else old(shared[i])
        invariant forall i :: it <= i < shared.Length ==> shared[i] == old(shared[i])
      {
        if shared[it].pid == 0 {
          shared[it] := Entry(shared[it].port, pid, 0);
          if shared[it].port !in services {
            return Some(shared[it].port);
          }
        }
        it := it + 1;
      }
      r := None;
    }

    /** `reap`, whose other assertions hold of consistent entries; false where the assertion
        fails that the list is filled. */
    method Reap(grace: nat, now: nat, running: set<nat>) returns (ok: bool)
      requires shared.Length > 0
      requires forall i :: 0 <= i < shared.Length ==> Consistent(shared[i], now, running)
      modifies shared
      ensures ok <==> old(shared[0]).port != 0
      ensures if ok then forall i :: 0 <= i < shared.Length ==> shared[i] == Reaped(old(shared[i]), now, running, grace)
              else shared[..] == old(shared[..])
    {
      ok := shared[0].port != 0;
      if !ok {
        return;
      }
      var it := 0;
      while it < shared.Length
        invariant 0 <= it <= shared.Length
        invariant forall i :: 0 <= i < it ==> shared[i] == Reaped(old(shared[i]), now, running, grace)
        invariant forall i :: it <= i < shared.Length ==> shared[i] == old(shared[i])
      {
        var e := shared[it];
        if e.deadTime != 0 {
          assert e.pid != 0 && e.deadTime <= now && e.pid !in running;
          if now - e.deadTime >= grace {
            shared[it] := Entry(e.port, 0, 0);
          }
        } else if e.pid != 0 {
          if e.pid !in running {
            shared[it] := e.(deadTime := now);
          }
        }
        it := it + 1;
      }
    }
  }

  // ----- Runs -----

  /** A port that was handed out, to whom and when. */
  datatype Grant = Grant(port: int, pid: nat, time: nat)

  /** `deaths` are the times at which processes died, `former` the processes that each
      entry has been taken back from, `running` the processes that have not died, and
      `grants` the ports handed out so far. */
  datatype State = State(entries: seq<Entry>, clock: nat, running: set<nat>, deaths: map<nat, nat>, former: seq<set<nat>>, grants: seq<Grant>)

  datatype Step =
    | Initialises(skip: set<int>, ports: seq<int>)
    | Acquires(pid: nat, services: set<int>)
    | Reaps(grace: nat)
    | Starts(pid: nat)
    | Dies(pid: nat)
    | Ticks

  /** Some entry has no port yet, or port zero, which the source takes for the same. */
  predicate HasZero(entries: seq<Entry>)
  {
    exists i :: 0 <= i < |entries| && entries[i].port == 0
  }

  /** Owners that an entry loses. */
  function Lost(s: State, after: seq<Entry>): seq<set<nat>>
    requires |s.former| == |s.entries| == |after|
  {
    seq(|s.entries|, i requires 0 <= i < |s.entries| =>
      if s.entries[i].pid != 0 && after[i].pid == 0 then s.former[i] + {s.entries[i].pid} else s.former[i])
  }

  /** The steps of the server processes and of time; nothing where an assertion fails. */
  ghost function Do(start: int, s: State, step: Step): (r: Option<State>)
    requires |s.former| == |s.entries|
    ensures r.Some? ==> |r.value.former| == |r.value.entries|
  {
    match step
    case Initialises(skip, ports) =>
      if !HasZero(s.entries) then Some(s)
      else if |ports| == |s.entries| && Filled(ports, start, skip) then
        var filled := seq(|ports|, i requires 0 <= i < |ports| => Entry(ports[i], 0, 0));
        Some(s.(entries := filled, former := Lost(s, filled)))
      else None
    case Acquires(pid, services) =>
      if pid in s.running && s.entries != [] && s.entries[0].port != 0 then
        var port := Returned(s.entries, services);
        Some(s.(entries := Acquired(s.entries, TakenUpTo(s.entries, 0, services), pid),
                grants := s.grants + if port.Some? then [Grant(port.value, pid, s.clock)] else []))
      else None
    case Reaps(grace) =>
      if s.entries != [] && s.entries[0].port != 0 then
        var reaped := seq(|s.entries|, i requires 0 <= i < |s.entries| => Reaped(s.entries[i], s.clock, s.running, grace));
        Some(s.(entries := reaped, former := Lost(s, reaped)))
      else None
    case Starts(pid) =>
      if pid != 0 && pid !in s.running && pid !in s.deaths then Some(s.(running := s.running + {pid})) else None
    case Dies(pid) =>
      if pid in s.running then Some(s.(running := s.running - {pid}, deaths := s.deaths[pid := s.clock])) else None
    case Ticks => Some(s.(clock := s.clock + 1))
  }

  predicate DeadFor(s: State, pid: nat, grace: nat)
  {
    pid in s.deaths && s.deaths[pid] + grace <= s.clock
  }

  /** Owners are processes that run or have died, a recorded time of death is no earlier
      than the death, and every former owner has been dead for the grace period. */
  predicate Inv(s: State, grace: nat)
  {
    && |s.former| == |s.entries| && s.clock > 0 && 0 !in s.running
    && (forall p :: p in s.running ==> p !in s.deaths)
    && (forall p :: p in s.deaths ==> s.deaths[p] <= s.clock)
    && forall i :: 0 <= i < |s.entries| ==> EntryHolds(s, s.entries[i], s.former[i], grace)
  }

  predicate EntryHolds(s: State, e: Entry, former: set<nat>, grace: nat)
  {
    && (e.pid != 0 ==> e.pid in s.running || e.pid in s.deaths)
    && (e.deadTime != 0 ==> e.pid in s.deaths && s.deaths[e.pid] <= e.deadTime <= s.clock)
    && (e.pid == 0 ==> e.deadTime == 0)
    && forall p :: p in former ==> DeadFor(s, p, grace)
  }

  lemma {:induction false} DoKeeps(start: int, s: State, step: Step, grace: nat)
    requires Inv(s, grace) && Do(start, s, step).Some? && (step.Reaps? ==> step.grace >= grace)
    requires step.Initialises? ==> !HasZero(s.entries) || Unowned(s.entries)
    ensures Inv(Do(start, s, step).value, grace)
    ensures forall i :: 0 <= i < |s.entries| ==> Consistent(s.entries[i], s.clock, s.running)
  {
    var s' := Do(start, s, step).value;
    forall i | 0 <= i < |s.entries|
      ensures EntryHolds(s', s'.entries[i], s'.former[i], grace) && Consistent(s.entries[i], s.clock, s.running)
    {
      assert EntryHolds(s, s.entries[i], s.former[i], grace);
    }
  }

  predicate Unowned(entries: seq<Entry>)
  {
    forall i :: 0 <= i < |entries| ==> entries[i].pid == 0
  }

  /** The shared memory before anything was written to it. */
  predicate Blank(entries: seq<Entry>)
  {
    forall i :: 0 <= i < |entries| ==> entries[i] == Entry(0, 0, 0)
  }

  /** The list is not filled yet, or filled with ports of which none is zero. */
  ghost predicate Kept(start: int, entries: seq<Entry>)
  {
    Blank(entries) || (!HasZero(entries) && exists skip :: Filled(Ports(entries), start, skip))
  }

  lemma {:induction false} DoKeepsPorts(start: int, s: State, step: Step)
    requires |s.former| == |s.entries| && Kept(start, s.entries) && Do(start, s, step).Some?
    requires step.Initialises? ==> 0 !in step.ports
    ensures Kept(start, Do(start, s, step).value.entries)
    ensures !HasZero(s.entries) ==> Ports(Do(start, s, step).value.entries) == Ports(s.entries)
  {
    hide Filled;
    var s' := Do(start, s, step).value;
    if step.Initialises? && HasZero(s.entries) {
      assert Ports(s'.entries) == step.ports;
      forall i | 0 <= i < |s'.entries|
        ensures s'.entries[i].port != 0
      {
        assert step.ports[i] in step.ports;
      }
    } else {
      assert Ports(s'.entries) == Ports(s.entries);
      if !HasZero(s.entries) {
        forall i | 0 <= i < |s'.entries|
          ensures s'.entries[i].port != 0
        {
          assert Ports(s'.entries)[i] == Ports(s.entries)[i];
        }
      }
    }
  }

  function Start(n: nat, clock: nat): State
  {
    State(seq(n, _ => Entry(0, 0, 0)), clock, {}, map[], seq(n, _ => {}), [])
  }

  ghost function Run(start: int, n: nat, clock: nat, steps: seq<Step>): (r: Option<State>)
    ensures r.Some? ==> |r.value.former| == |r.value.entries|
  {
    if steps == [] then Some(Start(n, clock))
    else match Run(start, n, clock, steps[..|steps| - 1])
      case None => None
      case Some(s) => Do(start, s, steps[|steps| - 1])
  }

  predicate Patient(steps: seq<Step>, grace: nat)
  {
    forall step :: step in steps && step.Reaps? ==> step.grace >= grace
  }

  /** No initialisation fills the list with port zero. */
  predicate NeverZero(steps: seq<Step>)
  {
    forall step :: step in steps && step.Initialises? ==> 0 !in step.ports
  }

  lemma {:induction false} StepKeeps(start: int, s: State, step: Step, grace: nat)
    requires Inv(s, grace) && Kept(start, s.entries) && Do(start, s, step).Some?
    requires (step.Reaps? ==> step.grace >= grace) && (step.Initialises? ==> 0 !in step.ports)
    ensures Inv(Do(start, s, step).value, grace) && Kept(start, Do(start, s, step).value.entries)
    ensures !HasZero(s.entries) ==> Ports(Do(start, s, step).value.entries) == Ports(s.entries)
  {
    hide Filled, Do;
    DoKeeps(start, s, step, grace);
    DoKeepsPorts(start, s, step);
  }

  /** Over all runs from blank memory, with any number of initialisations that never take port
      zero: once filled, the ports stay the same distinct ones; no assertion of the reaper
      about an entry fails; and whenever an entry can be handed out again, every process that
      had it has been dead for at least the grace period. */
  lemma {:induction false} RunKeeps(start: int, n: nat, clock: nat, steps: seq<Step>, grace: nat)
    requires clock > 0 && Run(start, n, clock, steps).Some? && Patient(steps, grace) && NeverZero(steps)
    ensures var s := Run(start, n, clock, steps).value;
            && Inv(s, grace) && Kept(start, s.entries)
            && (steps != [] && !HasZero(Run(start, n, clock, steps[..|steps| - 1]).value.entries) ==>
                Ports(s.entries) == Ports(Run(start, n, clock, steps[..|steps| - 1]).value.entries))
            && forall i :: 0 <= i < |s.entries| ==>
                 && Consistent(s.entries[i], s.clock, s.running)
                 && forall p :: p in s.former[i] ==> DeadFor(s, p, grace)
  {
    if steps == [] {
      BlankHolds(start, n, clock, grace);
    } else {
      hide Do, Filled, Inv, Kept;
      var init, step := steps[..|steps| - 1], steps[|steps| - 1];
      assert step in steps && Patient(init, grace) && NeverZero(init) by { assert forall x :: x in init ==> x in steps; }
      RunKeeps(start, n, clock, init, grace);
      StepKeeps(start, Run(start, n, clock, init).value, step, grace);
    }
    InvSays(Run(start, n, clock, steps).value, grace);
  }

  lemma {:induction false} BlankHolds(start: int, n: nat, clock: nat, grace: nat)
    requires clock > 0
    ensures Inv(Start(n, clock), grace) && Kept(start, Start(n, clock).entries)
  {
  }

  lemma {:induction false} InvSays(s: State, grace: nat)
    requires Inv(s, grace)
    ensures |s.former| == |s.entries|
    ensures forall i :: 0 <= i < |s.entries| ==> Consistent(s.entries[i], s.clock, s.running) && forall p :: p in s.former[i] ==> DeadFor(s, p, grace)
  {
    forall i | 0 <= i < |s.entries|
      ensures Consistent(s.entries[i], s.clock, s.running) && forall p :: p in s.former[i] ==> DeadFor(s, p, grace)
    {
      assert EntryHolds(s, s.entries[i], s.former[i], grace);
    }
  }

  // ----- Who holds a port -----

  /** The entry of a grant's port still has the grant's owner, or has been taken back from it. */
  predicate GrantHolds(s: State, g: Grant)
  {
    && g.pid != 0 && g.port in Ports(s.entries) && |s.former| == |s.entries|
    && forall k :: 0 <= k < |s.entries| && s.entries[k].port == g.port ==> s.entries[k].pid == g.pid || g.pid in s.former[k]
  }

  /** A port is granted again only to where its previous holder has been dead long enough. */
  predicate GrantsInTurn(s: State, grace: nat)
  {
    forall i, j :: 0 <= i < j < |s.grants| && s.grants[i].port == s.grants[j].port ==>
      s.grants[i].pid in s.deaths && s.deaths[s.grants[i].pid] + grace <= s.grants[j].time
  }

  predicate GrantsHold(s: State, grace: nat)
  {
    && (forall i :: 0 <= i < |s.grants| ==> GrantHolds(s, s.grants[i]))
    && GrantsInTurn(s, grace) && (s.grants != [] ==> !HasZero(s.entries))
  }

  /** The ports of a list that has none twice. */
  predicate NoneTwice(entries: seq<Entry>)
  {
    forall i, j :: 0 <= i < j < |entries| ==> entries[i].port != entries[j].port
  }

  lemma {:induction false} AcquireGrants(start: int, s: State, pid: nat, services: set<int>, grace: nat)
    requires Inv(s, grace) && GrantsHold(s, grace) && NoneTwice(s.entries) && !HasZero(s.entries) && Do(start, s, Acquires(pid, services)).Some?
    ensures GrantsHold(Do(start, s, Acquires(pid, services)).value, grace)
  {
    var s' := Do(start, s, Acquires(pid, services)).value;
    var n := TakenUpTo(s.entries, 0, services);
    assert Ports(s'.entries) == Ports(s.entries);
    assert !HasZero(s'.entries) by { SamePortsZero(s.entries, s'.entries); }
    forall i | 0 <= i < |s.grants|
      ensures GrantHolds(s', s.grants[i])
    {
      assert GrantHolds(s, s.grants[i]);
    }
    if n < |s.entries| {
      var g := Grant(s.entries[n].port, pid, s.clock);
      assert s'.grants == s.grants + [g] && s'.entries[n] == Entry(g.port, pid, 0);
      assert Ports(s'.entries)[n] == g.port;
      assert GrantHolds(s', g);
      assert EntryHolds(s, s.entries[n], s.former[n], grace);
      forall i | 0 <= i < |s.grants| && s.grants[i].port == g.port
        ensures s.grants[i].pid in s.deaths && s.deaths[s.grants[i].pid] + grace <= g.time
      {
        assert GrantHolds(s, s.grants[i]);
        assert DeadFor(s, s.grants[i].pid, grace);
      }
    }
  }

  lemma {:induction false} SamePortsZero(entries: seq<Entry>, after: seq<Entry>)
    requires Ports(after) == Ports(entries) && !HasZero(entries)
    ensures !HasZero(after)
  {
    forall i | 0 <= i < |after|
      ensures after[i].port != 0
    {
      assert Ports(after)[i] == Ports(entries)[i];
    }
  }

  lemma {:induction false} ReapGrants(start: int, s: State, patience: nat, grace: nat)
    requires GrantsHold(s, grace) && |s.former| == |s.entries| && Do(start, s, Reaps(patience)).Some?
    ensures GrantsHold(Do(start, s, Reaps(patience)).value, grace)
  {
    var s' := Do(start, s, Reaps(patience)).value;
    assert Ports(s'.entries) == Ports(s.entries);
    if s.grants != [] {
      SamePortsZero(s.entries, s'.entries);
    }
    forall i | 0 <= i < |s.grants|
      ensures GrantHolds(s', s.grants[i])
    {
      assert GrantHolds(s, s.grants[i]);
    }
  }

  lemma {:induction false} OtherGrants(start: int, s: State, step: Step, grace: nat)
    requires Inv(s, grace) && GrantsHold(s, grace) && Kept(start, s.entries) && Do(start, s, step).Some?
    requires !step.Acquires? && !step.Reaps?
    ensures GrantsHold(Do(start, s, step).value, grace)
  {
    hide Filled, EntryHolds;
    var s' := Do(start, s, step).value;
    if !(step.Initialises? && HasZero(s.entries)) {
      assert s'.entries == s.entries && s'.former == s.former && s'.grants == s.grants;
      forall i | 0 <= i < |s.grants|
        ensures GrantHolds(s', s.grants[i])
      {
        assert GrantHolds(s, s.grants[i]);
      }
    }
  }

  lemma {:induction false} KeptNoneTwice(start: int, entries: seq<Entry>)
    requires Kept(start, entries) && !HasZero(entries)
    ensures NoneTwice(entries)
  {
    if !Blank(entries) {
      var skip :| Filled(Ports(entries), start, skip);
      forall i, j | 0 <= i < j < |entries|
        ensures entries[i].port != entries[j].port
      {
        assert Ports(entries)[i] < Ports(entries)[j];
      }
    }
  }

  lemma {:induction false} FirstNotZero(start: int, s: State, pid: nat, services: set<int>)
    requires |s.former| == |s.entries| && Kept(start, s.entries) && Do(start, s, Acquires(pid, services)).Some?
    ensures !HasZero(s.entries)
  {
    hide Filled;
  }

  lemma {:induction false} StepGrants(start: int, s: State, step: Step, grace: nat)
    requires Inv(s, grace) && GrantsHold(s, grace) && Kept(start, s.entries) && Do(start, s, step).Some?
    ensures GrantsHold(Do(start, s, step).value, grace)
  {
    hide Do, Kept, GrantsHold;
    InvSays(s, grace);
    match step
    case Acquires(pid, services) =>
      FirstNotZero(start, s, pid, services);
      KeptNoneTwice(start, s.entries);
      AcquireGrants(start, s, pid, services, grace);
    case Reaps(patience) => ReapGrants(start, s, patience, grace);
    case _ => OtherGrants(start, s, step, grace);
  }

  lemma {:induction false} RunGrants(start: int, n: nat, clock: nat, steps: seq<Step>, grace: nat)
    requires clock > 0 && Run(start, n, clock, steps).Some? && Patient(steps, grace) && NeverZero(steps)
    ensures GrantsHold(Run(start, n, clock, steps).value, grace)
  {
    if steps != [] {
      hide Do, Inv, Kept, GrantsHold;
      var init, step := steps[..|steps| - 1], steps[|steps| - 1];
      assert Patient(init, grace) && NeverZero(init) by { assert forall x :: x in init ==> x in steps; }
      RunGrants(start, n, clock, init, grace);
      RunKeeps(start, n, clock, init, grace);
      StepGrants(start, Run(start, n, clock, init).value, step, grace);
    }
  }

  /** Over all such runs: a port is handed out again only after everyone who got it before had
      been dead for the grace period, and no two running processes hold one port; whoever runs
      and got a port owns its entry. */
  lemma {:induction false} PortsAreExclusive(start: int, n: nat, clock: nat, steps: seq<Step>, grace: nat)
    requires clock > 0 && Run(start, n, clock, steps).Some? && Patient(steps, grace) && NeverZero(steps)
    ensures var s := Run(start, n, clock, steps).value;
            && (forall i, j :: 0 <= i < j < |s.grants| && s.grants[i].port == s.grants[j].port ==>
                  && s.grants[i].pid in s.deaths && s.deaths[s.grants[i].pid] + grace <= s.grants[j].time
                  && s.grants[i].pid !in s.running)
            && forall i :: 0 <= i < |s.grants| && s.grants[i].pid in s.running ==>
                 exists k :: 0 <= k < |s.entries| && s.entries[k].port == s.grants[i].port && s.entries[k].pid == s.grants[i].pid
  {
    hide Run;
    var s := Run(start, n, clock, steps).value;
    RunGrants(start, n, clock, steps, grace);
    RunKeeps(start, n, clock, steps, grace);
    forall i | 0 <= i < |s.grants| && s.grants[i].pid in s.running
      ensures exists k :: 0 <= k < |s.entries| && s.entries[k].port == s.grants[i].port && s.entries[k].pid == s.grants[i].pid
    {
      assert GrantHolds(s, s.grants[i]);
      var k :| 0 <= k < |Ports(s.entries)| && Ports(s.entries)[k] == s.grants[i].port;
      InvSays(s, grace);
    }
  }

  /** A filled list that contains port zero counts as not filled: initialising it again takes
      every port from its owner, dead or alive. It happens exactly where the ports run through
      zero, so never where the first is positive. */
  lemma {:induction false} ZeroIsRefilled(start: int, s: State, skip: set<int>, skip': set<int>, ports: seq<int>)
    requires |s.former| == |s.entries| && s.entries != [] && Filled(Ports(s.entries), start, skip)
    requires |ports| == |s.entries| && Filled(ports, start, skip')
    ensures var again := Do(start, s, Initialises(skip', ports));
            && again.Some?
            && if start <= 0 <= s.entries[|s.entries| - 1].port && 0 !in skip then Unowned(again.value.entries) && Ports(again.value.entries) == ports
               else again.value == s
  {
    ZeroIff(start, s.entries, skip);
    if HasZero(s.entries) {
      assert Ports(Do(start, s, Initialises(skip', ports)).value.entries) == ports;
    }
  }

  lemma {:induction false} ZeroIff(start: int, entries: seq<Entry>, skip: set<int>)
    requires entries != [] && Filled(Ports(entries), start, skip)
    ensures HasZero(entries) <==> start <= 0 <= entries[|entries| - 1].port && 0 !in skip
  {
    var ports, last := Ports(entries), |entries| - 1;
    if HasZero(entries) {
      var i :| 0 <= i < |entries| && entries[i].port == 0;
      assert ports[i] == 0;
    }
    if start <= 0 <= entries[last].port && 0 !in skip {
      assert ports[last] == entries[last].port;
      assert 0 in ports;
      var i :| 0 <= i < |ports| && ports[i] == 0;
      assert entries[i].port == 0;
    }
  }
}
