/** Without failures, a started archive() or flush() always returns: every step of the
    threads does some of a bounded amount of work, and none of them can be stuck. */
module RemoteProgress {
  import opened Wrappers
  import opened Frames
  import opened RemoteArchive

  /** The steps of the threads that are no failure and begin no new call. */
  predicate Internal(step: Step)
  {
    match step
    case ArchiveOpened | Put | FlushJoined | FlushReturns => true
    case ThreadPops(_) | ThreadSends | ThreadFinishes => true
    case ServerOpens => true
    case ServerFlushes(ok) => ok
    case ReaderTakes | ReaderEnds | ReaderReturns => true
    case WorkerPops | WorkerStores | WorkerDone => true
    case _ => false
  }

  /** Nothing has failed so far. */
  predicate Healthy(s: State)
  {
    && s.client.future != Broken && (s.client.queue.Some? ==> !s.client.queue.value.broken)
    && s.server.control == Alive && s.server.reader != Threw && !s.server.broken && s.server.worker != Broken
    && s.reply != Some(Refused) && s.lost.None?
  }

  // ----- The bounds of the queues -----

  predicate Bounded(c: Config, s: State)
  {
    && |s.client.held| <= c.batch && |s.server.queue| <= c.serverQueue
    && (s.client.queue.Some? ==> |s.client.queue.value.items| <= c.clientQueue)
  }

  lemma {:induction false} DoBounded(c: Config, s: State, step: Step)
    requires Bounded(c, s) && Do(c, s, step).Some?
    ensures Bounded(c, Do(c, s, step).value)
  {
    hide ReadFrame, CanSend, Frame, Message, NextMessage, NextBlob, Pow256, Accepts;
  }

  /** Both queues and the pops stay within their limits in every run. */
  lemma {:induction false} RunBounded(c: Config, steps: seq<Step>)
    requires Run(c, steps).Some?
    ensures Bounded(c, Run(c, steps).value)
  {
    if steps != [] {
      hide Do, Bounded;
      RunBounded(c, steps[..|steps| - 1]);
      DoBounded(c, Run(c, steps[..|steps| - 1]).value, steps[|steps| - 1]);
    }
  }

  // ----- Fields that any pop can carry -----

  /** The field is not empty, its key fits, and a batch of such fields fits 32 bits. */
  predicate Carried(c: Config, item: Item)
  {
    item.data != [] && |EncodeKey(item.key)| <= KEY_BUFFER && c.batch * (|BlobPayload(item)| + HEADER_SIZE + 4) < Pow256(4)
  }

  predicate AllCarried(c: Config, items: seq<Item>)
  {
    forall item :: item in items ==> Carried(c, item)
  }

  lemma {:induction false} Scaled(m: nat, n: nat, size: nat)
    requires m <= n
    ensures m * size <= n * size && (m + 1) * size == m * size + size
  {
    assert n * size == m * size + (n - m) * size;
  }

  lemma {:induction false} BatchSize(id: nat, items: seq<Item>, most: nat)
    requires forall item :: item in items ==> |BlobPayload(item)| + HEADER_SIZE + 4 <= most
    ensures |Contained(id, items)| <= |items| * most
  {
    if items != [] {
      hide BlobPayload, Frame;
      FrameNotEmpty(BLOB, id, BlobPayload(items[0]));
      BatchSize(id, items[1..], most);
      Scaled(|items[1..]|, |items[1..]|, most);
    }
  }

  /** The largest frame of a batch, found by walking it. */
  lemma {:induction false} LargestFits(c: Config, items: seq<Item>) returns (most: nat)
    requires AllCarried(c, items) && items != []
    ensures c.batch * most < Pow256(4)
    ensures forall item :: item in items ==> |BlobPayload(item)| + HEADER_SIZE + 4 <= most
  {
    hide BlobPayload, EncodeKey, Pow256;
    assert Carried(c, items[0]);
    most := |BlobPayload(items[0])| + HEADER_SIZE + 4;
    if |items| > 1 {
      var rest := LargestFits(c, items[1..]);
      if rest > most {
        most := rest;
      }
      assert items == [items[0]] + items[1..];
    }
  }

  lemma {:induction false} PopsAreSendable(c: Config, id: nat, items: seq<Item>)
    requires AllCarried(c, items) && items != [] && |items| <= c.batch && id < Pow256(4)
    ensures CanSend(id, items)
  {
    hide BlobPayload, EncodeKey, Pow256, Contained;
    Widths();
    var most := LargestFits(c, items);
    BatchSize(id, items, most);
    Scaled(|items|, c.batch, most);
    Scaled(1, c.batch, most);
    hide AllCarried;
    var room := c.batch * most;
    assert |Contained(id, items)| <= room && most <= room < Pow256(4);
    forall item | item in items
      ensures Sendable(id, item)
    {
      assert Carried(c, item) by { CarriedIn(c, items, item); }
    }
    assert Carried(c, items[0]) by { CarriedIn(c, items, items[0]); }
  }

  lemma {:induction false} CarriedIn(c: Config, items: seq<Item>, item: Item)
    requires AllCarried(c, items) && item in items
    ensures Carried(c, item)
  {
  }

  // ----- Progress -----

  predicate Limits(c: Config)
  {
    c.clientQueue > 0 && c.batch > 0 && c.serverQueue > 0
  }

  /** While a call is under way, some thread can do a step. */
  lemma {:induction false} NeverStuck(c: Config, s: State) returns (step: Step)
    requires Limits(c) && Inv(s) && Healthy(s) && Bounded(c, s) && AllCarried(c, s.archived)
    requires s.client.call != Idle
    ensures Internal(step) && Do(c, s, step).Some?
  {
    hide Parse, Complete, ReadFrame, ItemsOfQueue, ChunksOf, NextBlob, CanSend, Carried, Sound, Pow256;
    var cl := s.client;
    match cl.call
    case Opening(_, _) =>
      step := if s.reply == Some(Granted) then ArchiveOpened else ServerOpens;
    case Putting(_) =>
      if |cl.queue.value.items| < c.clientQueue {
        step := Put;
      } else {
        step := ThreadWorks(c, s);
      }
    case Joining =>
      if cl.future.Ready? {
        step := FlushJoined;
      } else {
        step := ThreadWorks(c, s);
      }
    case Confirming(_) =>
      if s.reply == Some(Granted) {
        step := FlushReturns;
      } else {
        step := ServerWorks(c, s);
      }
  }

  lemma {:induction false} ThreadWorks(c: Config, s: State) returns (step: Step)
    requires Limits(c) && ThreadRuns(s) && ServerHolds(s) && Healthy(s) && s.client.future == Running
    requires Bounded(c, s) && AllCarried(c, s.archived)
    requires s.client.call == Joining || s.client.held != [] || s.client.queue.value.items != []
    ensures Internal(step) && Do(c, s, step).Some?
  {
    hide Parse, Complete, ReadFrame, ItemsOfQueue, ChunksOf, NextBlob, CanSend, Carried, Sound, Pow256, Arriving;
    var cl := s.client;
    if cl.held != [] {
      forall item | item in cl.held
        ensures Carried(c, item)
      {
        assert item in Arriving(s) + cl.held + cl.queue.value.items;
      }
      PopsAreSendable(c, cl.thread, cl.held);
      step := ThreadSends;
    } else if cl.queue.value.items != [] {
      step := ThreadPops(1);
    } else {
      step := ThreadFinishes;
    }
  }

  lemma {:induction false} ServerWorks(c: Config, s: State) returns (step: Step)
    requires Limits(c) && Inv(s) && Healthy(s) && s.client.future == Invalid && s.client.call.Confirming? && s.reply.None?
    ensures Internal(step) && Do(c, s, step).Some?
  {
    hide Complete, ReadFrame, ItemsOfQueue, ChunksOf, NextBlob, Sound, Pow256, Arriving, Stored, AllSound, AllAccepted;
    var sv := s.server;
    ChecksPassIn(s);
    if sv.reader == Reading {
      assert ReadFrame(s.data).Parsed?;
      if ReadFrame(s.data).value.head.message == FLUSH {
        step := ReaderEnds;
      } else if |sv.queue| < c.serverQueue {
        step := ReaderTakes;
      } else {
        step := if sv.current.Some? then WorkerStores else WorkerPops;
      }
    } else if sv.reader == Draining {
      step := if sv.worker.Ready? then ReaderReturns
              else if sv.current.Some? then WorkerStores
              else if sv.queue != [] then WorkerPops
              else WorkerDone;
    } else {
      step := ServerFlushes(true);
    }
  }

  // ----- A put that waits -----

  /** While archive() waits for room it can only be freed by its own thread, by a pop or by a
      failure of it: no failure of the server or of the connection that the listener learns
      of reaches the call, since the listener would need the mutex that it holds. */
  lemma {:induction false} OnlyTheThreadFrees(c: Config, s: State, step: Step)
    requires c.clientQueue > 0 && Bounded(c, s) && HoldsMutex(c, s.client) && Do(c, s, step).Some?
    ensures var s' := Do(c, s, step).value;
            if step.ThreadPops? then !HoldsMutex(c, s'.client)
            else if step.ThreadFails? then s'.client.queue.Some? && s'.client.queue.value.broken
            else HoldsMutex(c, s'.client) && s'.client.queue == s.client.queue && s'.client.call == s.client.call
  {
    hide ReadFrame, CanSend, Frame, Message, NextMessage, NextBlob, Pow256, Accepts;
  }

  // ----- A connection that is full -----

  /** A step where the connection has room for some bytes only: a write waits for room. */
  function DoWithin(c: Config, room: nat, s: State, step: Step): Option<State>
  {
    match step
    case ThreadSends | ThreadFinishes => if |s.data| + |NextMessage(s)| <= room then Do(c, s, step) else None
    case _ => Do(c, s, step)
  }

  function RunWithin(c: Config, room: nat, s: State, steps: seq<Step>): Option<State>
    decreases |steps|
  {
    if steps == [] then Some(s)
    else match DoWithin(c, room, s, steps[0])
      case None => None
      case Some(t) => RunWithin(c, room, t, steps[1..])
  }

  lemma {:induction false} RunsJoin(c: Config, room: nat, s: State, a: seq<Step>, b: seq<Step>)
    requires RunWithin(c, room, s, a).Some?
    ensures RunWithin(c, room, s, a + b) == RunWithin(c, room, RunWithin(c, room, s, a).value, b)
    decreases |a|
  {
    hide DoWithin;
    if a == [] {
      assert a + b == b;
    } else {
      assert (a + b)[0] == a[0] && (a + b)[1..] == a[1..] + b;
      RunsJoin(c, room, DoWithin(c, room, s, a[0]).value, a[1..], b);
    }
  }

  /** The server has stopped reading, and the archive thread has a message that does not fit. */
  predicate Clogged(c: Config, room: nat, s: State)
  {
    var cl := s.client;
    && cl.future == Running && cl.archiveID != 0 && cl.held != [] && |s.data| + |NextMessage(s)| > room
    && s.server.reader == Threw && s.request.None?
    && cl.queue.Some? && !cl.queue.value.broken && |cl.queue.value.items| <= c.clientQueue
  }

  predicate Wedged(c: Config, room: nat, s: State)
  {
    Clogged(c, room, s) && HoldsMutex(c, s.client)
  }

  /** Then archive() waits for room, its thread for the connection, and the listener for the
      mutex; as long as the thread's write does not fail, no step of any thread changes that. */
  lemma {:induction false} StaysWedged(c: Config, room: nat, s: State, step: Step)
    requires Wedged(c, room, s) && !step.ThreadFails? && DoWithin(c, room, s, step).Some?
    ensures var s' := DoWithin(c, room, s, step).value; Wedged(c, room, s') && s'.client == s.client && s'.archived == s.archived
  {
    hide ReadFrame, CanSend, Frame, Message, NextBlob, Pow256, Accepts;
  }

  /** In every continuation of such a state the call never returns. */
  lemma {:induction false} NeverReturns(c: Config, room: nat, s: State, steps: seq<Step>)
    requires Wedged(c, room, s) && RunWithin(c, room, s, steps).Some? && forall step :: step in steps ==> !step.ThreadFails?
    ensures var s' := RunWithin(c, room, s, steps).value; Wedged(c, room, s') && s'.client == s.client && s'.archived == s.archived
    decreases |steps|
  {
    hide DoWithin, Wedged;
    if steps != [] {
      assert steps[0] in steps;
      StaysWedged(c, room, s, steps[0]);
      NeverReturns(c, room, DoWithin(c, room, s, steps[0]).value, steps[1..]);
    }
  }

  /** More calls fill the queue until one waits. */
  lemma {:induction false} FillsUp(c: Config, room: nat, s: State, item: Item) returns (steps: seq<Step>)
    requires Clogged(c, room, s) && s.client.call == Idle && c.clientQueue > 0
    ensures RunWithin(c, room, s, steps).Some? && Wedged(c, room, RunWithin(c, room, s, steps).value)
    decreases c.clientQueue - |s.client.queue.value.items|
  {
    hide Message, Frame;
    var put := [ArchiveNext(item)];
    var t := s.(client := s.client.(call := Putting(item)));
    assert DoWithin(c, room, s, ArchiveNext(item)) == Some(t);
    assert put[1..] == [] && RunWithin(c, room, s, put) == Some(t);
    if |s.client.queue.value.items| == c.clientQueue {
      return put;
    }
    var q := s.client.queue.value;
    var u := s.(client := s.client.(queue := Some(q.(items := q.items + [item]))), archived := s.archived + [item]);
    assert DoWithin(c, room, t, Put) == Some(u);
    assert [Put][1..] == [] && RunWithin(c, room, t, [Put]) == Some(u);
    RunsJoin(c, room, s, put, [Put]);
    var more := FillsUp(c, room, u, item);
    RunsJoin(c, room, s, put + [Put], more);
    steps := put + [Put] + more;
  }

  /** It does happen: for every configuration and every connection that does not hold the first
      message, there is a run from the start to such a state. */
  lemma {:induction false} Standstill(c: Config, room: nat, id: nat, item: Item) returns (steps: seq<Step>)
    requires Limits(c) && 0 < id < Pow256(4) && room < |Message(id, [item])|
    ensures RunWithin(c, room, START, steps).Some? && Wedged(c, room, RunWithin(c, room, START, steps).value)
  {
    hide Message, Frame, Pow256, ReadFrame;
    var s1 := START.(client := START.client.(call := Opening(id, item)), request := Some(OpenArchive(id)));
    var s2 := s1.(server := Server(Alive, Reading, id, [], false, false, Running, None, 0), request := None, reply := Some(Granted));
    var s3 := s2.(client := Client(Putting(item), Running, id, Some(Queue([], false, false)), id, [], 0), reply := None);
    var s4 := s3.(client := s3.client.(call := Idle, queue := Some(Queue([item], false, false))), archived := [item]);
    var s5 := s4.(client := s4.client.(held := [item], queue := Some(Queue([], false, false))));
    var s6 := s5.(server := s5.server.(reader := Threw, broken := true));
    assert DoWithin(c, room, START, ArchiveFirst(id, item)) == Some(s1);
    assert DoWithin(c, room, s1, ServerOpens) == Some(s2);
    assert DoWithin(c, room, s2, ArchiveOpened) == Some(s3);
    assert [] + [item] == [item];
    assert DoWithin(c, room, s3, Put) == Some(s4);
    assert [item][..1] == [item] && [item][1..] == [];
    assert DoWithin(c, room, s4, ThreadPops(1)) == Some(s5);
    assert s5.data[0..] == s5.data;
    assert DoWithin(c, room, s5, ReaderFails(0)) == Some(s6);
    hide DoWithin;
    var begin := [ArchiveFirst(id, item), ServerOpens, ArchiveOpened, Put, ThreadPops(1), ReaderFails(0)];
    SixSteps(c, room, begin, s1, s2, s3, s4, s5, s6);
    assert Clogged(c, room, s6);
    var more := FillsUp(c, room, s6, item);
    RunsJoin(c, room, START, begin, more);
    steps := begin + more;
  }

  lemma {:induction false} SixSteps(c: Config, room: nat, steps: seq<Step>, s1: State, s2: State, s3: State, s4: State, s5: State, s6: State)
    requires |steps| == 6 && DoWithin(c, room, START, steps[0]) == Some(s1) && DoWithin(c, room, s1, steps[1]) == Some(s2)
    requires DoWithin(c, room, s2, steps[2]) == Some(s3) && DoWithin(c, room, s3, steps[3]) == Some(s4)
    requires DoWithin(c, room, s4, steps[4]) == Some(s5) && DoWithin(c, room, s5, steps[5]) == Some(s6)
    ensures RunWithin(c, room, START, steps) == Some(s6)
  {
    hide DoWithin;
    var last := steps[5..];
    assert last[1..] == [] && RunWithin(c, room, s5, last) == Some(s6);
    assert steps[4..][1..] == last && RunWithin(c, room, s4, steps[4..]) == Some(s6);
    assert steps[3..][1..] == steps[4..] && RunWithin(c, room, s3, steps[3..]) == Some(s6);
    assert steps[2..][1..] == steps[3..] && RunWithin(c, room, s2, steps[2..]) == Some(s6);
    assert steps[1..][1..] == steps[2..] && RunWithin(c, room, s1, steps[1..]) == Some(s6);
  }

  // ----- Work -----

  function CallWork(call: Call): nat
  {
    match call
    case Idle => 0
    case Opening(_, _) => 20
    case Putting(_) => 15
    case Joining => 2
    case Confirming(_) => 1
  }

  function FutureWork(future: Future): nat
  {
    match future
    case Running => 4
    case Ready(_) => 1
    case _ => 0
  }

  function ReaderWork(reader: Reader): nat
  {
    match reader
    case Reading => 3
    case Draining => 2
    case Returned(_) => 1
    case _ => 0
  }

  function ClientWork(s: State): nat
  {
    CallWork(s.client.call) + (if s.request.Some? && s.request.value.OpenArchive? then 10 else 0) + FutureWork(s.client.future)
    + 9 * (if s.client.queue.Some? then |s.client.queue.value.items| else 0) + 8 * |s.client.held|
  }

  function WireWork(s: State): nat
  {
    5 * |ItemsOfQueue(s.server.id, ChunksOf(Parse(s.data)))| + 2 * |Parse(s.data)|
  }

  function ServerWork(s: State): nat
  {
    4 * |ItemsOfQueue(s.server.id, Taken(s))| + |s.server.queue| + ReaderWork(s.server.reader)
    + (if s.server.worker == Running then 1 else 0)
  }

  /** What the threads still have to do; an item weighs less the further it has come. */
  function Work(s: State): nat
  {
    ClientWork(s) + WireWork(s) + ServerWork(s)
  }

  lemma {:induction false} WireWorkGrows(s: State, bs: Bytes, r: Received)
    requires Complete(s.data) && Complete(bs) && Parse(bs) == [r]
    ensures WireWork(s.(data := s.data + bs))
         == WireWork(s) + 2 + if r.head.message == FLUSH then 0 else 5 * |ItemsOf(s.server.id, ChunkOf(r))|
  {
    hide Parse, Complete, ItemsOf, ItemsOfQueue, ChunksOf;
    ParseAhead(s.data, bs);
    var rs := Parse(s.data);
    ItemsGrow(s.server.id, [], rs, r);
    assert [] + ChunksOf(rs) == ChunksOf(rs) && [] + ChunksOf(rs + [r]) == ChunksOf(rs + [r]);
  }

  lemma {:induction false} SendWorks(c: Config, s: State)
    requires Inv(s) && Healthy(s) && ThreadStep(c, s, ThreadSends).Some?
    ensures Work(ThreadStep(c, s, ThreadSends).value) < Work(s)
  {
    hide Parse, Complete, Message, CanSend, Arriving, Stored, Sound, ItemsOf, ItemsOfQueue, ChunksOf, Pow256, AllSound, AllAccepted;
    var cl := s.client;
    SentIsReceived(cl.thread, cl.held);
    WireWorkGrows(s, Message(cl.thread, cl.held), Parse(Message(cl.thread, cl.held))[0]);
    assert cl.held != [] by { SomethingSent(cl.thread, cl.held); }
    var s' := ThreadStep(c, s, ThreadSends).value;
    assert Taken(s') == Taken(s);
    hide ThreadRuns, ServerHolds;
  }

  lemma {:induction false} SomethingSent(id: nat, items: seq<Item>)
    requires CanSend(id, items)
    ensures items != []
  {
  }

  lemma {:induction false} FinishWorks(c: Config, s: State)
    requires Inv(s) && Healthy(s) && ThreadStep(c, s, ThreadFinishes).Some?
    ensures Work(ThreadStep(c, s, ThreadFinishes).value) < Work(s)
  {
    hide Parse, Complete, Frame, Arriving, Stored, Sound, ItemsOf, ItemsOfQueue, ChunksOf, Pow256, AllSound, AllAccepted;
    var cl := s.client;
    FlushIsReceived(cl.thread);
    WireWorkGrows(s, Frame(FLUSH, cl.thread, []), Received(Head(FLUSH, cl.thread, 0), []));
    assert Taken(ThreadStep(c, s, ThreadFinishes).value) == Taken(s);
  }

  lemma {:induction false} ReaderWorks(c: Config, s: State, step: Step)
    requires Internal(step) && ReaderStep(c, s, step).Some?
    ensures Work(ReaderStep(c, s, step).value) < Work(s)
  {
    hide Parse, Complete, ReadFrame, ItemsOf, ItemsOfQueue, ChunksOf, Accepts;
    var s' := ReaderStep(c, s, step).value;
    var id := s.server.id;
    if step == ReaderReturns {
      assert Taken(s') == Taken(s);
    } else {
      WireShrinks(s);
      var r, rest := ReadFrame(s.data).value, ReadFrame(s.data).rest;
      if step == ReaderTakes {
        assert Taken(s') == Taken(s) + [ChunkOf(r)];
        ItemsOfQueueConcat(id, Taken(s), [ChunkOf(r)]);
        ItemsOfQueueConcat(id, [ChunkOf(r)], ChunksOf(Parse(rest)));
      } else {
        assert Taken(s') == Taken(s);
        assert [] + ChunksOf(Parse(rest)) == ChunksOf(Parse(rest));
      }
    }
  }

  lemma {:induction false} WorkerWorks(s: State, step: Step)
    requires Inv(s) && Internal(step) && WorkerStep(s, step).Some?
    ensures Work(WorkerStep(s, step).value) < Work(s)
  {
    hide Parse, Complete, ChunksOf, ItemsOfQueue, NextBlob, Sound, Pow256, AllAccepted;
    var s' := WorkerStep(s, step).value;
    if step == WorkerStores {
      StoringMovesOne(s);
    } else {
      assert Taken(s') == Taken(s);
    }
  }

  lemma {:induction false} OtherWorks(c: Config, s: State, step: Step)
    requires Inv(s) && Healthy(s) && Internal(step) && Do(c, s, step).Some?
    requires step == ArchiveOpened || step == Put || step == FlushJoined || step == FlushReturns || step.ThreadPops? || step == ServerOpens || step.ServerFlushes?
    ensures Work(Do(c, s, step).value) < Work(s)
  {
    hide Parse, Complete, ChunksOf, ItemsOfQueue, Sound, Pow256, AllAccepted, AllSound, Arriving, Stored, CanSend;
    var s' := Do(c, s, step).value;
    assert Taken(s') == Taken(s);
    if step == ServerOpens {
      assert Taken(s) == [] && s.data == [];
      NothingParses();
      NothingQueued(s.server.id);
      NothingQueued(s'.server.id);
    }
  }

  lemma {:induction false} NothingQueued(id: nat)
    ensures ItemsOfQueue(id, []) == [] && ChunksOf([]) == []
  {
  }

  /** Every internal step does some of the work. */
  lemma {:induction false} StepsWork(c: Config, s: State, step: Step)
    requires Inv(s) && Healthy(s) && Internal(step) && Do(c, s, step).Some?
    ensures Work(Do(c, s, step).value) < Work(s)
  {
    hide Inv, Healthy, Work, ArchiveStep, FlushStep, ThreadStep, ControlStep, ReaderStep, WorkerStep;
    match step
    case ThreadSends => SendWorks(c, s);
    case ThreadFinishes => FinishWorks(c, s);
    case ReaderTakes | ReaderEnds | ReaderReturns => ReaderWorks(c, s, step);
    case WorkerPops | WorkerStores | WorkerDone => WorkerWorks(s, step);
    case _ => OtherWorks(c, s, step);
  }

  /** No internal step is a failure, or leads to one. */
  lemma {:induction false} StaysHealthy(c: Config, s: State, step: Step)
    requires Inv(s) && Healthy(s) && Internal(step) && Do(c, s, step).Some?
    ensures Healthy(Do(c, s, step).value)
  {
    hide Parse, Complete, ReadFrame, ChunksOf, ItemsOfQueue, Sound, Pow256, AllAccepted, AllSound, Arriving, Stored, CanSend, NextBlob, Accepts;
    CountsAgreeIn(s);
  }

  // ----- The main result -----

  function RunFrom(c: Config, s: State, steps: seq<Step>): Option<State>
  {
    if steps == [] then Some(s)
    else
      match RunFrom(c, s, steps[..|steps| - 1])
      case None => None
      case Some(s') => Do(c, s', steps[|steps| - 1])
  }

  predicate AllInternal(steps: seq<Step>)
  {
    forall step :: step in steps ==> Internal(step)
  }

  /** Internal steps only: they stay healthy, and there are no more of them than work. */
  lemma {:induction false} RunWorks(c: Config, s: State, steps: seq<Step>)
    requires Inv(s) && Healthy(s) && Bounded(c, s) && AllInternal(steps) && RunFrom(c, s, steps).Some?
    ensures var s' := RunFrom(c, s, steps).value;
            Inv(s') && Healthy(s') && Bounded(c, s') && Work(s') + |steps| <= Work(s)
  {
    if steps != [] {
      hide Inv, Healthy, Bounded, Work, Do, Internal;
      var init, step := steps[..|steps| - 1], steps[|steps| - 1];
      assert Internal(step) && AllInternal(init);
      RunWorks(c, s, init);
      var s' := RunFrom(c, s, init).value;
      DoKeeps(c, s', step);
      StaysHealthy(c, s', step);
      DoBounded(c, s', step);
      StepsWork(c, s', step);
    }
  }

  /** Without failures, whatever the order of the threads' steps, a flush() under way
      returns normally: its steps are bounded in number, they can stop only where the
      call has returned, and then everything is stored. */
  lemma {:induction false} CallsReturn(c: Config, s: State, steps: seq<Step>)
    requires Limits(c) && Inv(s) && Healthy(s) && Bounded(c, s) && AllInternal(steps) && RunFrom(c, s, steps).Some?
    ensures |steps| <= Work(s)
    ensures var s' := RunFrom(c, s, steps).value;
            AllCarried(c, s'.archived) && (forall step :: Internal(step) ==> Do(c, s', step).None?) ==>
              s'.client.call == Idle && (s'.client.future == Invalid ==> s'.store == s'.archived)
  {
    hide Work, Do, Internal, Carried, Parse, ItemsOfQueue, ThreadRuns, InTransit, Bounded;
    RunWorks(c, s, steps);
    var s' := RunFrom(c, s, steps).value;
    if AllCarried(c, s'.archived) && s'.client.call != Idle {
      var step := NeverStuck(c, s');
    }
  }
}
