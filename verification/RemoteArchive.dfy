/** The remote archive protocol as a state machine over the steps of the API thread, the
    client's archive thread, its listener, and the server's control thread, reader and
    worker. The data connection is a stream of bytes. Every thread can fail at any point. */
module RemoteArchive {
  import opened Wrappers
  import opened Frames

  // ----- State -----

  datatype Future = Invalid | Running | Ready(count: nat) | Broken

  /** Where the API thread stands. */
  datatype Call = Idle | Opening(id: nat, item: Item) | Putting(item: Item) | Joining | Confirming(count: nat)

  datatype Queue = Queue(items: seq<Item>, closed: bool, broken: bool)

  /** `RemoteFDB`: `thread`, `held` and `count` belong to the archive thread. */
  datatype Client = Client(call: Call, future: Future, archiveID: nat, queue: Option<Queue>,
                           thread: nat, held: seq<Item>, count: nat)

  datatype Control = Alive | Misaligned | Dead
  datatype Request = OpenArchive(id: nat) | FlushArchive(count: nat)
  datatype Reply = Granted | Refused
  datatype Reader = Absent | Reading | Draining | Returned(count: nat) | Threw
  datatype Chunk = Chunk(bytes: Bytes, batch: bool)

  /** `RemoteHandler`: `id` to `closed` belong to the reader, the rest to the worker. */
  datatype Server = Server(control: Control, reader: Reader, id: nat, queue: seq<Chunk>, closed: bool, broken: bool,
                           worker: Future, current: Option<Chunk>, count: nat)

  /** `archived` are the archive() calls that returned, `store` what the server archived,
      `base` how many of them preceded this session, `lost` how many archive() calls had
      returned when a flush() first failed, and `safe` how many of the archived data the
      server's own store had when it was last flushed. */
  datatype State = State(client: Client, server: Server, data: Bytes, request: Option<Request>, reply: Option<Reply>,
                         archived: seq<Item>, store: seq<Item>, base: nat, lost: Option<nat>, safe: nat)

  /** The limits of the two queues, and of a pop. */
  datatype Config = Config(clientQueue: nat, batch: nat, serverQueue: nat)

  datatype Step =
    | ArchiveFirst(id: nat, item: Item) | ArchiveOpened | OpenRefused | ArchiveNext(item: Item) | Put | PutFails
    | Flush | FlushJoined | FlushJoinFails | FlushReturns | FlushRefused
    | ThreadPops(k: nat) | ThreadSends | ThreadFinishes | ThreadFails(part: nat) | Interrupts
    | ServerOpens | ServerFlushes(ok: bool) | ServerMisreads | ControlLost
    | ReaderTakes | ReaderEnds | ReaderReturns | ReaderFails(skip: nat)
    | WorkerPops | WorkerStores | WorkerDone | WorkerFails

  const START: State :=
    State(Client(Idle, Invalid, 0, None, 0, [], 0), Server(Alive, Absent, 0, [], false, false, Invalid, None, 0),
          [], None, None, [], [], 0, None, 0)

  // ----- The API thread -----

  /** `RemoteFDB::archive`. It throws in `OpenRefused` and `PutFails`; with a future gone
      and an identifier left over its assertion fails, and nothing happens. */
  function ArchiveStep(c: Config, s: State, step: Step): Option<State>
  {
    var cl := s.client;
    match step
    case ArchiveFirst(id, item) =>
      if cl.call == Idle && cl.future == Invalid && cl.archiveID == 0 && 0 < id < Pow256(4) then
        Some(s.(client := cl.(call := Opening(id, item)), request := Some(OpenArchive(id))))
      else None
    case ArchiveOpened =>
      if cl.call.Opening? && s.reply == Some(Granted) && cl.queue.None? then
        var cl' := cl.(call := Putting(cl.call.item), archiveID := cl.call.id, queue := Some(Queue([], false, false)),
                       future := Running, thread := cl.call.id, held := [], count := 0);
        Some(s.(client := cl', reply := None))
      else None
    case OpenRefused =>
      if cl.call.Opening? && Denied(s) then
        Some(s.(client := cl.(call := Idle), request := None, reply := None))
      else None
    case ArchiveNext(item) =>
      if cl.call == Idle && cl.future != Invalid && cl.archiveID != 0 then Some(s.(client := cl.(call := Putting(item))))
      else None
    case Put =>
      if cl.call.Putting? && cl.queue.Some? && !cl.queue.value.broken && |cl.queue.value.items| < c.clientQueue then
        var q := cl.queue.value;
        var cl' := cl.(call := Idle, queue := Some(q.(items := q.items + [cl.call.item])));
        Some(s.(client := cl', archived := s.archived + [cl.call.item]))
      else None
    case PutFails =>
      if cl.call.Putting? && cl.queue.Some? && cl.queue.value.broken then Some(s.(client := cl.(call := Idle)))
      else None
    case _ => None
  }

  /** The control request was answered with an error, or will never be answered. */
  predicate Denied(s: State)
  {
    s.reply == Some(Refused) || (s.reply == None && s.server.control == Dead)
  }

  function Lose(s: State): Option<nat>
  {
    if s.lost.Some? then s.lost else Some(|s.archived|)
  }

  /** `RemoteFDB::flush`. Without a valid future it returns at once, in no step. It
      returns normally in `FlushReturns`, and throws in `FlushJoinFails` and `FlushRefused`. */
  function FlushStep(s: State, step: Step): Option<State>
  {
    var cl := s.client;
    match step
    case Flush =>
      if cl.call == Idle && cl.future != Invalid && cl.archiveID != 0 && cl.queue.Some? then
        Some(s.(client := cl.(call := Joining, queue := Some(cl.queue.value.(closed := true)))))
      else None
    case FlushJoined =>
      if cl.call == Joining && cl.future.Ready? && cl.queue.None? then
        Some(s.(client := cl.(call := Confirming(cl.future.count), future := Invalid, archiveID := 0),
                request := Some(FlushArchive(cl.future.count))))
      else None
    case FlushJoinFails =>
      if cl.call == Joining && cl.future == Broken then
        Some(s.(client := cl.(call := Idle, future := Invalid), lost := Lose(s)))
      else None
    case FlushReturns =>
      if cl.call.Confirming? && s.reply == Some(Granted) then Some(s.(client := cl.(call := Idle), reply := None))
      else None
    case FlushRefused =>
      if cl.call.Confirming? && Denied(s) then
        Some(s.(client := cl.(call := Idle), request := None, reply := None, lost := Lose(s)))
      else None
    case _ => None
  }

  // ----- The archive thread and the listener -----

  /** The bytes that the thread is about to write. */
  function NextMessage(s: State): Bytes
  {
    var cl := s.client;
    if cl.held == [] then Frame(FLUSH, cl.thread, []) else Message(cl.thread, cl.held)
  }

  /** `archive()` waits for room in its queue with the mutex held that guards the pointer to
      the queue, which the listener needs to break it. */
  predicate HoldsMutex(c: Config, cl: Client)
  {
    cl.call.Putting? && cl.queue.Some? && !cl.queue.value.broken && |cl.queue.value.items| >= c.clientQueue
  }

  /** `RemoteFDB::archiveThreadLoop`; the listener can break its queue at any time but that. */
  function ThreadStep(c: Config, s: State, step: Step): Option<State>
  {
    var cl := s.client;
    match step
    case ThreadPops(k) =>
      if cl.future == Running && cl.held == [] && cl.queue.Some? && !cl.queue.value.broken && 1 <= k <= |cl.queue.value.items| && k <= c.batch then
        var q := cl.queue.value;
        Some(s.(client := cl.(held := q.items[..k], queue := Some(q.(items := q.items[k..])))))
      else None
    case ThreadSends =>
      if cl.future == Running && CanSend(cl.thread, cl.held) then
        Some(s.(client := cl.(held := [], count := cl.count + |cl.held|), data := s.data + Message(cl.thread, cl.held)))
      else None
    case ThreadFinishes =>
      if cl.future == Running && cl.held == [] && cl.queue.Some? && !cl.queue.value.broken && cl.queue.value.items == [] && cl.queue.value.closed then
        Some(s.(client := cl.(future := Ready(cl.count), archiveID := 0, queue := None),
                data := s.data + Frame(FLUSH, cl.thread, [])))
      else None
    case ThreadFails(part) =>
      if cl.future == Running && cl.queue.Some? && (part == 0 || ((cl.held == [] || CanSend(cl.thread, cl.held)) && part < |NextMessage(s)|)) then
        Some(s.(client := cl.(future := Broken, queue := Some(cl.queue.value.(broken := true))),
                data := if part == 0 then s.data else s.data + NextMessage(s)[..part]))
      else None
    case Interrupts =>
      if cl.queue.Some? && !HoldsMutex(c, cl) then Some(s.(client := cl.(queue := Some(cl.queue.value.(broken := true))))) else None
    case _ => None
  }

  // ----- The server's control thread -----

  /** An exception in the control loop leaves the end marker of the request unread, so
      that the next request is misread, which ends the loop. */
  function Fault(s: State): State
  {
    s.(server := s.server.(control := Misaligned), request := None, reply := Some(Refused))
  }

  /** `RemoteHandler::handle`, `archive` and `flush`; `ok` is whether the store's own flush succeeds. */
  function ControlStep(s: State, step: Step): Option<State>
  {
    var sv := s.server;
    match step
    case ServerOpens =>
      if sv.control == Alive && s.request.Some? && s.request.value.OpenArchive? then
        if sv.reader != Absent then Some(Fault(s))
        else
          var sv' := Server(Alive, Reading, s.request.value.id, [], false, false, Running, None, 0);
          Some(s.(server := sv', request := None, reply := Some(Granted), base := |s.store|))
      else None
    case ServerFlushes(ok) =>
      if sv.control == Alive && s.request.Some? && s.request.value.FlushArchive? && !sv.reader.Reading? && !sv.reader.Draining? then
        var gone := s.(server := sv.(reader := Absent));
        var done := gone.(request := None, reply := Some(Granted));
        match sv.reader
        case Absent => Some(if s.request.value.count == 0 then done else Fault(gone))
        case Returned(n) => Some(if n == s.request.value.count && ok then done.(safe := |s.store|) else Fault(gone))
        case _ => Some(Fault(gone))
      else None
    case ServerMisreads =>
      if sv.control == Misaligned && s.request.Some? then Some(s.(server := sv.(control := Dead), request := None)) else None
    case ControlLost =>
      Some(s.(server := sv.(control := Dead), request := None))
    case _ => None
  }

  // ----- The server's reader and worker -----

  /** The checks of the reader on one message. */
  predicate Accepts(id: nat, r: Received)
  {
    r.head.id == id && (r.head.message == FLUSH || ((r.head.message == BLOB || r.head.message == MULTI_BLOB) && r.payload != []))
  }

  function ChunkOf(r: Received): Chunk
  {
    Chunk(r.payload, r.head.message == MULTI_BLOB)
  }

  /** The reader of `RemoteHandler::archiveThreadLoop`. */
  function ReaderStep(c: Config, s: State, step: Step): Option<State>
  {
    var sv := s.server;
    var next := ReadFrame(s.data);
    match step
    case ReaderTakes =>
      if sv.reader == Reading && next.Parsed? && Accepts(sv.id, next.value) && next.value.head.message != FLUSH && !sv.broken && |sv.queue| < c.serverQueue then
        Some(s.(server := sv.(queue := sv.queue + [ChunkOf(next.value)]), data := next.rest))
      else None
    case ReaderEnds =>
      if sv.reader == Reading && next.Parsed? && Accepts(sv.id, next.value) && next.value.head.message == FLUSH then
        Some(s.(server := sv.(reader := Draining, closed := true), data := next.rest))
      else None
    case ReaderReturns =>
      if sv.reader == Draining && sv.worker.Ready? then Some(s.(server := sv.(reader := Returned(sv.worker.count)))) else None
    case ReaderFails(skip) =>
      if (sv.reader == Reading || sv.reader == Draining) && skip <= |s.data| then
        Some(s.(server := sv.(reader := Threw, broken := true), data := s.data[skip..]))
      else None
    case _ => None
  }

  /** One blob of the chunk at hand: its item and what is left of the chunk. */
  function NextBlob(id: nat, chunk: Chunk): Option<(Item, Bytes)>
  {
    if !chunk.batch then
      match ParseBlob(chunk.bytes)
      case None => None
      case Some(item) => Some((item, []))
    else
      match ReadFrame(chunk.bytes)
      case Failed => None
      case Parsed(r, rest) =>
        if r.head.message != BLOB || r.head.id != id then None
        else match ParseBlob(r.payload)
          case None => None
          case Some(item) => Some((item, rest))
  }

  /** The worker of `RemoteHandler::archiveThreadLoop`. */
  function WorkerStep(s: State, step: Step): Option<State>
  {
    var sv := s.server;
    match step
    case WorkerPops =>
      if sv.worker == Running && sv.current.None? && !sv.broken && sv.queue != [] then
        Some(s.(server := sv.(current := Some(sv.queue[0]), queue := sv.queue[1..])))
      else None
    case WorkerStores =>
      if sv.worker == Running && sv.current.Some? && NextBlob(sv.id, sv.current.value).Some? then
        var (item, rest) := NextBlob(sv.id, sv.current.value).value;
        Some(s.(server := sv.(current := if rest == [] then None else Some(Chunk(rest, true)), count := sv.count + 1),
                store := s.store + [item]))
      else None
    case WorkerDone =>
      if sv.worker == Running && sv.current.None? && !sv.broken && sv.queue == [] && sv.closed then
        Some(s.(server := sv.(worker := Ready(sv.count))))
      else None
    case WorkerFails =>
      if sv.worker == Running then Some(s.(server := sv.(worker := Broken, broken := true))) else None
    case _ => None
  }

  // ----- Runs -----

  function Do(c: Config, s: State, step: Step): Option<State>
  {
    match step
    case ArchiveFirst(_, _) | ArchiveOpened | OpenRefused | ArchiveNext(_) | Put | PutFails => ArchiveStep(c, s, step)
    case Flush | FlushJoined | FlushJoinFails | FlushReturns | FlushRefused => FlushStep(s, step)
    case ThreadPops(_) | ThreadSends | ThreadFinishes | ThreadFails(_) | Interrupts => ThreadStep(c, s, step)
    case ServerOpens | ServerFlushes(_) | ServerMisreads | ControlLost => ControlStep(s, step)
    case ReaderTakes | ReaderEnds | ReaderReturns | ReaderFails(_) => ReaderStep(c, s, step)
    case WorkerPops | WorkerStores | WorkerDone | WorkerFails => WorkerStep(s, step)
  }

  function Run(c: Config, steps: seq<Step>): Option<State>
  {
    if steps == [] then Some(START)
    else
      match Run(c, steps[..|steps| - 1])
      case None => None
      case Some(s) => Do(c, s, steps[|steps| - 1])
  }

  // ----- What is on its way -----

  /** The items of a chunk, as the worker will read them. */
  function ItemsOf(id: nat, chunk: Chunk): seq<Item>
  {
    if chunk.batch then Walk(id, chunk.bytes).items
    else match ParseBlob(chunk.bytes) case None => [] case Some(item) => [item]
  }

  predicate Sound(id: nat, chunk: Chunk)
  {
    chunk.bytes != [] && if chunk.batch then Walk(id, chunk.bytes).ok else ParseBlob(chunk.bytes).Some?
  }

  function ItemsOfQueue(id: nat, queue: seq<Chunk>): seq<Item>
  {
    if queue == [] then [] else ItemsOf(id, queue[0]) + ItemsOfQueue(id, queue[1..])
  }

  function ChunksOf(rs: seq<Received>): seq<Chunk>
  {
    if rs == [] then [] else (if rs[0].head.message == FLUSH then [] else [ChunkOf(rs[0])]) + ChunksOf(rs[1..])
  }

  /** The chunks that the server holds, oldest first. */
  function Taken(s: State): seq<Chunk>
  {
    (if s.server.current.Some? then [s.server.current.value] else []) + s.server.queue
  }

  /** What the server will have archived once it has worked off what it holds. */
  function Stored(s: State): seq<Item>
  {
    s.store + ItemsOfQueue(s.server.id, Taken(s))
  }

  /** The same, once the data connection is read as well. */
  function Arriving(s: State): seq<Item>
  {
    s.store + ItemsOfQueue(s.server.id, Taken(s) + ChunksOf(Parse(s.data)))
  }

  predicate AllSound(id: nat, queue: seq<Chunk>)
  {
    forall chunk :: chunk in queue ==> Sound(id, chunk)
  }

  predicate AllAccepted(id: nat, rs: seq<Received>)
  {
    forall r :: r in rs ==> Accepts(id, r) && (r.head.message != FLUSH ==> Sound(id, ChunkOf(r)))
  }

  predicate NoFlush(rs: seq<Received>)
  {
    forall r :: r in rs ==> r.head.message != FLUSH
  }

  // ----- The invariant -----

  predicate ServerHolds(s: State)
  {
    var sv := s.server;
    && AllSound(sv.id, Taken(s)) && Stored(s) <= s.archived
    && (sv.worker == Running ==> s.base + sv.count == |s.store|)
    && (sv.worker.Ready? ==> s.base + sv.worker.count == |s.store| && sv.closed && Taken(s) == [])
    && (sv.reader == Draining ==> sv.closed)
    && (sv.reader == Reading || sv.reader == Draining ==> sv.worker != Invalid)
    && (sv.reader.Returned? ==> sv.worker == Ready(sv.reader.count))
    && (sv.reader == Reading ==> !sv.closed && AllAccepted(sv.id, Parse(s.data)) && Arriving(s) <= s.archived)
  }

  /** Nothing of a session is left anywhere. */
  predicate Settled(s: State)
  {
    s.server.reader == Absent && Taken(s) == [] && s.data == [] && s.store == s.archived && s.safe == |s.store|
  }

  predicate Resting(s: State)
  {
    match s.lost
    case None => Settled(s) && s.client.archiveID == 0 && s.client.queue.None?
    case Some(n) => |s.archived| == n && (s.client.archiveID != 0 || s.server.control != Alive)
  }

  /** The thread has ended: everything is on the wire or beyond. */
  predicate InTransit(s: State)
  {
    && s.server.reader != Absent
    && (s.server.reader == Reading ==>
          var rs := Parse(s.data);
          Complete(s.data) && rs != [] && rs[|rs| - 1].head.message == FLUSH && NoFlush(rs[..|rs| - 1]) && Arriving(s) == s.archived)
    && (s.server.reader == Draining || s.server.reader.Returned? ==> s.data == [] && Stored(s) == s.archived)
  }

  predicate ThreadRuns(s: State)
  {
    var cl := s.client;
    && (cl.call == Idle || cl.call.Putting? || cl.call == Joining)
    && s.request.None? && s.reply.None? && s.lost.None? && cl.queue.Some? && (cl.queue.value.closed <==> cl.call == Joining)
    && cl.archiveID == cl.thread == s.server.id && 0 < cl.thread < Pow256(4)
    && s.base + cl.count + |cl.held| + |cl.queue.value.items| == |s.archived|
    && (s.server.reader == Reading || s.server.reader == Threw)
    && (s.server.reader == Reading ==>
          Complete(s.data) && NoFlush(Parse(s.data)) && Arriving(s) + cl.held + cl.queue.value.items == s.archived)
  }

  predicate ThreadBroke(s: State)
  {
    var cl := s.client;
    && (cl.call == Idle || cl.call.Putting? || cl.call == Joining)
    && s.request.None? && s.reply.None? && s.lost.None?
    && cl.queue.Some? && cl.queue.value.broken && cl.archiveID != 0
  }

  predicate OpeningHolds(s: State)
    requires s.client.call.Opening?
  {
    var cl := s.client;
    && cl.archiveID == 0 && 0 < cl.call.id < Pow256(4)
    && if s.reply == Some(Granted) then
         && s.request.None? && s.lost.None? && cl.queue.None?
         && (s.server.reader == Reading || s.server.reader == Threw)
         && s.server.id == cl.call.id && s.base == |s.store|
         && Taken(s) == [] && s.data == [] && s.store == s.archived
       else
         Resting(s) && (if s.request.None? then Denied(s) else s.request == Some(OpenArchive(cl.call.id)))
  }

  predicate ConfirmingHolds(s: State)
    requires s.client.call.Confirming?
  {
    var cl := s.client;
    && s.lost.None? && cl.archiveID == 0 && cl.queue.None?
    && match s.reply
       case Some(Granted) => s.request.None? && Settled(s)
       case Some(Refused) => s.request.None? && s.server.control != Alive
       case None =>
         && s.base + cl.call.count == |s.archived| && InTransit(s)
         && (s.request == Some(FlushArchive(cl.call.count)) || (s.request.None? && s.server.control == Dead))
  }

  predicate ClientHolds(s: State)
  {
    var cl := s.client;
    match cl.future
    case Running => ThreadRuns(s)
    case Ready(n) => cl.call == Joining && s.request.None? && s.reply.None? && s.lost.None? && cl.queue.None? && s.base + n == |s.archived| && InTransit(s)
    case Broken => ThreadBroke(s)
    case Invalid =>
      match cl.call
      case Idle => s.request.None? && s.reply.None? && Resting(s)
      case Opening(_, _) => OpeningHolds(s)
      case Confirming(_) => ConfirmingHolds(s)
      case _ => false
  }

  predicate Inv(s: State)
  {
    ServerHolds(s) && ClientHolds(s)
  }

  // ----- Lemmas about what is on its way -----

  lemma {:induction false} ItemsOfQueueConcat(id: nat, a: seq<Chunk>, b: seq<Chunk>)
    ensures ItemsOfQueue(id, a + b) == ItemsOfQueue(id, a) + ItemsOfQueue(id, b)
  {
    hide ItemsOf;
    if a == [] {
      assert a + b == b;
    } else {
      assert (a + b)[1..] == a[1..] + b;
      ItemsOfQueueConcat(id, a[1..], b);
    }
  }

  lemma {:induction false} ChunksOfConcat(a: seq<Received>, b: seq<Received>)
    ensures ChunksOf(a + b) == ChunksOf(a) + ChunksOf(b)
  {
    if a == [] {
      assert a + b == b;
    } else {
      assert (a + b)[1..] == a[1..] + b;
      ChunksOfConcat(a[1..], b);
    }
  }

  /** What the thread sends for a pop arrives as one sound chunk of the popped items. */
  lemma {:induction false} SentIsReceived(id: nat, items: seq<Item>)
    requires CanSend(id, items)
    ensures var rs := Parse(Message(id, items));
            && Complete(Message(id, items)) && |rs| == 1
            && rs[0].head.message != FLUSH && Accepts(id, rs[0])
            && Sound(id, ChunkOf(rs[0])) && ItemsOf(id, ChunkOf(rs[0])) == items
  {
    hide Parse, Complete, Frame, EncodeKey, Walk, ParseBlob, Fits;
    if |items| == 1 {
      assert Sendable(id, items[0]);
      FrameParses(BLOB, id, BlobPayload(items[0]));
      BlobRoundTrip(items[0]);
      assert items == [items[0]];
    } else {
      FrameParses(MULTI_BLOB, id, Contained(id, items));
      BatchRoundTrip(id, items);
      FrameNotEmpty(BLOB, id, BlobPayload(items[0]));
    }
  }

  /** The flush message parses as itself. */
  lemma {:induction false} FlushIsReceived(id: nat)
    requires id < Pow256(4)
    ensures var bs := Frame(FLUSH, id, []);
            Complete(bs) && Parse(bs) == [Received(Head(FLUSH, id, 0), [])]
  {
    hide Parse, Complete, Frame;
    Widths();
    FrameParses(FLUSH, id, []);
  }

  /** Storing one blob moves the first item of a chunk into the store. */
  lemma {:induction false} NextBlobIsFirst(id: nat, chunk: Chunk)
    requires Sound(id, chunk)
    ensures NextBlob(id, chunk).Some?
    ensures var (item, rest) := NextBlob(id, chunk).value;
            if rest == [] then ItemsOf(id, chunk) == [item]
            else Sound(id, Chunk(rest, true)) && ItemsOf(id, chunk) == [item] + ItemsOf(id, Chunk(rest, true))
  {
    hide ReadFrame, ParseBlob;
    var (item, rest) := NextBlob(id, chunk).value;
    if chunk.batch && rest == [] {
      assert Walk(id, rest) == Walked([], true);
      assert [item] + [] == [item];
    }
  }

  /** A cut-off message at the end of the stream adds nothing that can be read. */
  lemma {:induction false} CutMessage(s: State, part: nat)
    requires var cl := s.client; cl.thread < Pow256(4) && (cl.held == [] || CanSend(cl.thread, cl.held)) && part < |NextMessage(s)|
    ensures Parse(NextMessage(s)[..part]) == []
  {
    hide Parse, Frame, EncodeKey, Contained;
    Widths();
    var cl := s.client;
    if cl.held == [] {
      CutFrame(FLUSH, cl.thread, [], part);
    } else if |cl.held| == 1 {
      assert Sendable(cl.thread, cl.held[0]);
      CutFrame(BLOB, cl.thread, BlobPayload(cl.held[0]), part);
    } else {
      CutFrame(MULTI_BLOB, cl.thread, Contained(cl.thread, cl.held), part);
    }
  }

  // ----- Every step keeps the invariant -----

  /** With nothing held and nothing on the wire, all there is is the store. */
  lemma {:induction false} NothingFlies(s: State)
    requires Taken(s) == []
    ensures Stored(s) == s.store
    ensures s.data == [] ==> Arriving(s) == s.store && Parse(s.data) == [] && Complete(s.data)
  {
    NothingParses();
    assert s.store + [] == s.store;
    assert [] + ChunksOf([]) == [];
  }

  lemma {:induction false} ArchiveKeeps(c: Config, s: State, step: Step)
    requires Inv(s) && ArchiveStep(c, s, step).Some?
    ensures Inv(ArchiveStep(c, s, step).value)
  {
    hide Parse, Complete, ItemsOfQueue, ChunksOf, Pow256, Sound, AllAccepted, AllSound;
    var s' := ArchiveStep(c, s, step).value;
    if step == ArchiveOpened {
      NothingFlies(s');
      assert s.store + [] + [] == s.store;
      assert NoFlush([]);
    } else if step == Put && s.client.future == Running {
      var before, items, item := Arriving(s) + s.client.held, s.client.queue.value.items, s.client.call.item;
      assert before + items + [item] == before + (items + [item]);
    }
  }

  lemma {:induction false} FlushKeeps(c: Config, s: State, step: Step)
    requires Inv(s) && FlushStep(s, step).Some?
    ensures Inv(FlushStep(s, step).value)
  {
    hide Parse, Complete, ItemsOfQueue, ChunksOf, Pow256, Sound;
  }

  lemma {:induction false} ControlKeeps(c: Config, s: State, step: Step)
    requires Inv(s) && ControlStep(s, step).Some?
    ensures Inv(ControlStep(s, step).value)
  {
    hide Parse, Complete, ItemsOfQueue, ChunksOf, Pow256, Sound;
    var s' := ControlStep(s, step).value;
    if step == ServerOpens {
      NothingFlies(s');
    } else if step.ServerFlushes? {
      if s.server.reader.Returned? {
        NothingFlies(s);
      }
    } else {
      assert Taken(s') == Taken(s);
      SameFlow(s, s');
      hide Stored, Arriving, AllSound, AllAccepted, Taken;
      assert s.reply == None || s.reply == Some(Granted) || s.reply == Some(Refused) by {
        match s.reply
        case None =>
        case Some(Granted) =>
        case Some(Refused) =>
      }
    }
  }

  /** Archiving one item takes it out of what the server holds. */
  lemma {:induction false} StoringMovesOne(s: State)
    requires AllSound(s.server.id, Taken(s)) && WorkerStep(s, WorkerStores).Some?
    ensures var s' := WorkerStep(s, WorkerStores).value;
            && AllSound(s.server.id, Taken(s')) && Stored(s') == Stored(s) && Arriving(s') == Arriving(s)
            && |s'.store| == |s.store| + 1
  {
    hide Parse, ChunksOf, NextBlob, Sound, ItemsOf, ItemsOfQueue;
    var s' := WorkerStep(s, WorkerStores).value;
    var id, flying, chunk := s.server.id, ChunksOf(Parse(s.data)), s.server.current.value;
    assert Taken(s)[0] == chunk;
    NextBlobIsFirst(id, chunk);
    var (item, rest) := NextBlob(id, chunk).value;
    StoreMoves(s, s', item, s.server.queue);
    StoreMoves(s, s', item, s.server.queue + flying);
    var kept := if s'.server.current.Some? then [s'.server.current.value] else [];
    assert kept + (s.server.queue + flying) == (kept + s.server.queue) + flying;
    assert [chunk] + (s.server.queue + flying) == ([chunk] + s.server.queue) + flying;
    forall c | c in Taken(s')
      ensures Sound(id, c)
    {
      if c in s.server.queue {
        assert c in Taken(s);
      }
    }
  }

  lemma {:induction false} WorkerKeeps(s: State, step: Step)
    requires Inv(s) && WorkerStep(s, step).Some?
    ensures Inv(WorkerStep(s, step).value)
  {
    hide Parse, Complete, Pow256, AllAccepted, AllSound, NextBlob, Arriving, Stored;
    var s' := WorkerStep(s, step).value;
    if step == WorkerPops {
      assert Taken(s') == Taken(s);
      SameFlow(s, s');
    } else if step == WorkerStores {
      assert Taken(s) != [];
      StoringMovesOne(s);
    } else {
      SameFlow(s, s');
    }
  }

  lemma {:induction false} SameFlow(s: State, s': State)
    requires Taken(s') == Taken(s) && s'.store == s.store && s'.server.id == s.server.id
    ensures Stored(s') == Stored(s) && (s'.data == s.data ==> Arriving(s') == Arriving(s))
  {
  }

  lemma {:induction false} StoreMoves(s: State, s': State, item: Item, more: seq<Chunk>)
    requires s.server.current.Some? && s'.store == s.store + [item]
    requires s'.server.current.Some? ==> ItemsOf(s.server.id, s.server.current.value) == [item] + ItemsOf(s.server.id, s'.server.current.value)
    requires s'.server.current.None? ==> ItemsOf(s.server.id, s.server.current.value) == [item]
    ensures s.store + ItemsOfQueue(s.server.id, [s.server.current.value] + more)
         == s'.store + ItemsOfQueue(s.server.id, (if s'.server.current.Some? then [s'.server.current.value] else []) + more)
  {
    hide ItemsOf;
    var id := s.server.id;
    var all := [s.server.current.value] + more;
    assert all[1..] == more;
    if s'.server.current.Some? {
      var all' := [s'.server.current.value] + more;
      assert all'[1..] == more;
    } else {
      assert [] + more == more;
    }
  }

  /** One more message on the wire. */
  lemma {:induction false} WireGrows(s: State, bs: Bytes, r: Received)
    requires Complete(s.data) && Complete(bs) && Parse(bs) == [r]
    ensures Complete(s.data + bs) && Parse(s.data + bs) == Parse(s.data) + [r]
    ensures Arriving(s.(data := s.data + bs))
         == Arriving(s) + if r.head.message == FLUSH then [] else ItemsOf(s.server.id, ChunkOf(r))
  {
    hide Parse, Complete, ItemsOf, ItemsOfQueue, ChunksOf;
    ParseAhead(s.data, bs);
    ItemsGrow(s.server.id, Taken(s), Parse(s.data), r);
    var items := if r.head.message == FLUSH then [] else ItemsOf(s.server.id, ChunkOf(r));
    var all := ItemsOfQueue(s.server.id, Taken(s) + ChunksOf(Parse(s.data)));
    assert s.store + (all + items) == (s.store + all) + items;
  }

  /** The items of one more message, behind those of a queue and of earlier messages. */
  lemma {:induction false} ItemsGrow(id: nat, queue: seq<Chunk>, rs: seq<Received>, r: Received)
    ensures ItemsOfQueue(id, queue + ChunksOf(rs + [r])) ==
            ItemsOfQueue(id, queue + ChunksOf(rs)) + if r.head.message == FLUSH then [] else ItemsOf(id, ChunkOf(r))
  {
    hide ItemsOf;
    var more := if r.head.message == FLUSH then [] else [ChunkOf(r)];
    ChunksOfConcat(rs, [r]);
    assert ChunksOf([r]) == more by { assert [r][1..] == []; assert more + [] == more; }
    assert queue + (ChunksOf(rs) + more) == (queue + ChunksOf(rs)) + more;
    ItemsOfQueueConcat(id, queue + ChunksOf(rs), more);
    ItemsOfOne(id, ChunkOf(r));
  }

  lemma {:induction false} ItemsOfOne(id: nat, chunk: Chunk)
    ensures ItemsOfQueue(id, [chunk]) == ItemsOf(id, chunk) && ItemsOfQueue(id, []) == []
  {
    hide ItemsOf;
    assert [chunk][1..] == [];
    assert ItemsOf(id, chunk) + [] == ItemsOf(id, chunk);
  }

  lemma {:induction false} SendKeeps(c: Config, s: State)
    requires Inv(s) && ThreadStep(c, s, ThreadSends).Some?
    ensures Inv(ThreadStep(c, s, ThreadSends).value)
  {
    hide Parse, Complete, Message, CanSend, Arriving, Stored, Sound, ItemsOf, Pow256;
    var cl := s.client;
    if s.server.reader == Reading {
      SentIsReceived(cl.thread, cl.held);
      var r := Parse(Message(cl.thread, cl.held))[0];
      WireGrows(s, Message(cl.thread, cl.held), r);
      assert Arriving(s) + cl.held + [] + cl.queue.value.items == Arriving(s) + cl.held + cl.queue.value.items;
    }
    HeldStays(c, s, ThreadSends);
    SameFlow(s.(data := s.data + Message(cl.thread, cl.held)), ThreadStep(c, s, ThreadSends).value);
  }

  lemma {:induction false} FinishKeeps(c: Config, s: State)
    requires Inv(s) && ThreadStep(c, s, ThreadFinishes).Some?
    ensures Inv(ThreadStep(c, s, ThreadFinishes).value)
  {
    hide Parse, Complete, Frame, Arriving, Stored, Sound, ItemsOf, Pow256;
    var cl := s.client;
    if s.server.reader == Reading {
      FlushIsReceived(cl.thread);
      var r := Received(Head(FLUSH, cl.thread, 0), []);
      WireGrows(s, Frame(FLUSH, cl.thread, []), r);
      assert (Parse(s.data) + [r])[..|Parse(s.data)|] == Parse(s.data);
      assert Arriving(s) + [] + [] == Arriving(s) == Arriving(s) + [];
    }
    HeldStays(c, s, ThreadFinishes);
    SameFlow(s.(data := s.data + Frame(FLUSH, cl.thread, [])), ThreadStep(c, s, ThreadFinishes).value);
  }

  /** The thread's own steps do not touch what the server holds. */
  lemma {:induction false} HeldStays(c: Config, s: State, step: Step)
    requires ThreadStep(c, s, step).Some?
    ensures var s' := ThreadStep(c, s, step).value;
            Taken(s') == Taken(s) && Stored(s') == Stored(s) && (s'.data == s.data ==> Arriving(s') == Arriving(s))
  {
    hide Parse, ItemsOfQueue, ChunksOf, CanSend, Message, Frame;
  }

  lemma {:induction false} FailKeeps(c: Config, s: State, part: nat)
    requires Inv(s) && ThreadStep(c, s, ThreadFails(part)).Some?
    ensures Inv(ThreadStep(c, s, ThreadFails(part)).value)
  {
    hide Parse, Complete, NextMessage, CanSend, Stored, ItemsOfQueue, Sound, Pow256;
    var s' := ThreadStep(c, s, ThreadFails(part)).value;
    if s.server.reader == Reading && part != 0 {
      CutMessage(s, part);
      ParseAhead(s.data, NextMessage(s)[..part]);
      assert Parse(s.data) + [] == Parse(s.data);
    }
    HeldStays(c, s, ThreadFails(part));
  }

  lemma {:induction false} PopKeeps(c: Config, s: State, k: nat)
    requires Inv(s) && ThreadStep(c, s, ThreadPops(k)).Some?
    ensures Inv(ThreadStep(c, s, ThreadPops(k)).value)
  {
    hide Parse, Complete, CanSend, Stored, Arriving, Sound, Pow256, HoldsMutex;
    HeldStays(c, s, ThreadPops(k));
    var items := s.client.queue.value.items;
    assert items == items[..k] + items[k..];
    assert Arriving(s) + [] + items == Arriving(s) + items[..k] + items[k..];
  }

  lemma {:induction false} InterruptKeeps(c: Config, s: State)
    requires Inv(s) && ThreadStep(c, s, Interrupts).Some?
    ensures Inv(ThreadStep(c, s, Interrupts).value)
  {
    hide Parse, Complete, CanSend, Stored, Arriving, Sound, Pow256, HoldsMutex;
    HeldStays(c, s, Interrupts);
  }

  lemma {:induction false} ThreadKeeps(c: Config, s: State, step: Step)
    requires Inv(s) && ThreadStep(c, s, step).Some?
    ensures Inv(ThreadStep(c, s, step).value)
  {
    hide Inv;
    match step
    case ThreadSends => SendKeeps(c, s);
    case ThreadFinishes => FinishKeeps(c, s);
    case ThreadFails(part) => FailKeeps(c, s, part);
    case ThreadPops(k) => PopKeeps(c, s, k);
    case Interrupts => InterruptKeeps(c, s);
    case _ =>
  }

  /** Reading one message moves it off the wire. */
  lemma {:induction false} WireShrinks(s: State)
    requires ReadFrame(s.data).Parsed?
    ensures var r, rest := ReadFrame(s.data).value, ReadFrame(s.data).rest;
            && Parse(s.data) == [r] + Parse(rest)
            && (Complete(s.data) ==> Complete(rest) && (Parse(rest) == [] ==> rest == []))
            && ChunksOf(Parse(s.data)) == (if r.head.message == FLUSH then [] else [ChunkOf(r)]) + ChunksOf(Parse(rest))
  {
    hide ReadFrame;
  }

  lemma {:induction false} StoredBeforeArriving(s: State)
    ensures Stored(s) <= Arriving(s)
  {
    hide ItemsOfQueue, Parse, ChunksOf;
    ItemsOfQueueConcat(s.server.id, Taken(s), ChunksOf(Parse(s.data)));
  }

  lemma {:induction false} TakeKeeps(c: Config, s: State)
    requires Inv(s) && ReaderStep(c, s, ReaderTakes).Some?
    ensures Inv(ReaderStep(c, s, ReaderTakes).value)
  {
    hide Parse, Complete, ReadFrame, ItemsOfQueue, ChunksOf, Pow256, Sound;
    var s' := ReaderStep(c, s, ReaderTakes).value;
    var r, rest := ReadFrame(s.data).value, ReadFrame(s.data).rest;
    WireShrinks(s);
    assert Taken(s') == Taken(s) + [ChunkOf(r)];
    assert Taken(s') + ChunksOf(Parse(rest)) == Taken(s) + ChunksOf(Parse(s.data));
    assert Arriving(s') == Arriving(s);
    StoredBeforeArriving(s');
    hide Arriving, Stored;
    var rs := Parse(s.data);
    assert r in rs && forall x :: x in Parse(rest) ==> x in rs;
    if |Parse(rest)| > 0 {
      assert rs[|rs| - 1] == Parse(rest)[|rs| - 2];
      assert rs[..|rs| - 1] == [r] + Parse(rest)[..|rs| - 2];
    }
    NothingParses();
  }

  lemma {:induction false} EndKeeps(c: Config, s: State)
    requires Inv(s) && ReaderStep(c, s, ReaderEnds).Some?
    ensures Inv(ReaderStep(c, s, ReaderEnds).value)
  {
    hide Parse, Complete, ReadFrame, ItemsOfQueue, Pow256, Sound;
    var s' := ReaderStep(c, s, ReaderEnds).value;
    var r, rest := ReadFrame(s.data).value, ReadFrame(s.data).rest;
    WireShrinks(s);
    StoredBeforeArriving(s);
    var rs := Parse(s.data);
    assert rs[0] == r;
    if |rs| > 1 {
      assert rs[..|rs| - 1][0] == r;
    }
    NothingParses();
    assert Taken(s) + [] == Taken(s);
    SameFlow(s, s');
    if |rs| == 1 {
      assert Arriving(s) == Stored(s) by { assert [] + ChunksOf([]) == []; }
    }
  }

  lemma {:induction false} ReturnKeeps(c: Config, s: State)
    requires Inv(s) && ReaderStep(c, s, ReaderReturns).Some?
    ensures Inv(ReaderStep(c, s, ReaderReturns).value)
  {
    hide Parse, Complete, ReadFrame, Pow256, Arriving, Stored, AllSound, AllAccepted;
    SameFlow(s, ReaderStep(c, s, ReaderReturns).value);
  }

  lemma {:induction false} ReaderFailKeeps(c: Config, s: State, skip: nat)
    requires Inv(s) && ReaderStep(c, s, ReaderFails(skip)).Some?
    ensures Inv(ReaderStep(c, s, ReaderFails(skip)).value)
  {
    hide Parse, Complete, ReadFrame, Pow256, Arriving, Stored, AllSound, AllAccepted;
    SameFlow(s, ReaderStep(c, s, ReaderFails(skip)).value);
    NothingParses();
  }

  lemma {:induction false} ReaderKeeps(c: Config, s: State, step: Step)
    requires Inv(s) && ReaderStep(c, s, step).Some?
    ensures Inv(ReaderStep(c, s, step).value)
  {
    hide Inv;
    match step
    case ReaderTakes => TakeKeeps(c, s);
    case ReaderEnds => EndKeeps(c, s);
    case ReaderReturns => ReturnKeeps(c, s);
    case ReaderFails(skip) => ReaderFailKeeps(c, s, skip);
    case _ =>
  }

  lemma {:induction false} DoKeeps(c: Config, s: State, step: Step)
    requires Inv(s) && Do(c, s, step).Some?
    ensures Inv(Do(c, s, step).value)
  {
    hide Inv, ArchiveStep, FlushStep, ThreadStep, ControlStep, ReaderStep, WorkerStep;
    if ArchiveStep(c, s, step).Some? { ArchiveKeeps(c, s, step); }
    if FlushStep(s, step).Some? { FlushKeeps(c, s, step); }
    if ThreadStep(c, s, step).Some? { ThreadKeeps(c, s, step); }
    if ControlStep(s, step).Some? { ControlKeeps(c, s, step); }
    if ReaderStep(c, s, step).Some? { ReaderKeeps(c, s, step); }
    if WorkerStep(s, step).Some? { WorkerKeeps(s, step); }
  }

  lemma {:induction false} RunKeeps(c: Config, steps: seq<Step>)
    requires Run(c, steps).Some?
    ensures Inv(Run(c, steps).value)
  {
    if steps == [] {
      NothingFlies(START);
    } else {
      hide Do, Inv;
      RunKeeps(c, steps[..|steps| - 1]);
      DoKeeps(c, Run(c, steps[..|steps| - 1]).value, steps[|steps| - 1]);
    }
  }

  // ----- Safety -----

  /** Whatever fails, the server archives a prefix of the archive() calls that returned. */
  lemma {:induction false} StoreIsPrefix(c: Config, steps: seq<Step>)
    requires Run(c, steps).Some?
    ensures Run(c, steps).value.store <= Run(c, steps).value.archived
  {
    hide Run, Parse, ItemsOfQueue;
    RunKeeps(c, steps);
  }

  /** When flush() returns normally, the server has archived exactly the archive() calls
      that returned, in order, and has flushed its own store since the last of them. That
      includes the calls of flush() that find nothing to do. */
  lemma {:induction false} FlushedIsStored(c: Config, steps: seq<Step>)
    requires Run(c, steps).Some?
    ensures var s := Run(c, steps).value;
            && (Do(c, s, FlushReturns).Some? ==> s.lost.None? && s.store == s.archived && s.safe == |s.archived|)
            && (s.client.call == Idle && s.client.future == Invalid && s.lost.None? ==> s.store == s.archived && s.safe == |s.archived|)
  {
    hide Run, Parse, ItemsOfQueue;
    RunKeeps(c, steps);
  }

  /** After a flush() has failed, no archive() returns again. */
  lemma {:induction false} LostIsFinal(c: Config, steps: seq<Step>)
    requires Run(c, steps).Some? && Run(c, steps).value.lost.Some?
    ensures |Run(c, steps).value.archived| == Run(c, steps).value.lost.value
  {
    hide Run, Parse, ItemsOfQueue;
    RunKeeps(c, steps);
  }

  /** The check of the count at a flush cannot fail. */
  lemma {:induction false} CountsAgree(c: Config, steps: seq<Step>)
    requires Run(c, steps).Some?
    ensures var s := Run(c, steps).value;
            s.request.Some? && s.request.value.FlushArchive? && s.server.reader.Returned? ==>
              s.server.reader.count == s.request.value.count
  {
    hide Run, Parse, ItemsOfQueue;
    RunKeeps(c, steps);
    CountsAgreeIn(Run(c, steps).value);
  }

  lemma {:induction false} CountsAgreeIn(s: State)
    requires Inv(s)
    ensures s.request.Some? && s.request.value.FlushArchive? && s.server.reader.Returned? ==>
              s.server.reader.count == s.request.value.count
  {
    hide Parse, ItemsOfQueue, Complete;
    if Taken(s) == [] {
      NothingFlies(s);
    }
  }

  /** No check of the reader on a message, nor of the worker on a blob, can fail. */
  lemma {:induction false} ChecksPass(c: Config, steps: seq<Step>)
    requires Run(c, steps).Some?
    ensures var s := Run(c, steps).value;
            && (s.server.reader == Reading && ReadFrame(s.data).Parsed? ==> Accepts(s.server.id, ReadFrame(s.data).value))
            && (s.server.current.Some? ==> NextBlob(s.server.id, s.server.current.value).Some?)
  {
    hide Run, ItemsOfQueue, Complete, ReadFrame, NextBlob, Sound;
    RunKeeps(c, steps);
    ChecksPassIn(Run(c, steps).value);
  }

  lemma {:induction false} ChecksPassIn(s: State)
    requires Inv(s)
    ensures s.server.reader == Reading && ReadFrame(s.data).Parsed? ==>
              Parse(s.data) != [] && Parse(s.data)[0] == ReadFrame(s.data).value && Accepts(s.server.id, ReadFrame(s.data).value)
    ensures s.server.current.Some? ==> NextBlob(s.server.id, s.server.current.value).Some?
  {
    hide ItemsOfQueue, Complete, ReadFrame, NextBlob, Sound, ClientHolds;
    if s.server.reader == Reading && ReadFrame(s.data).Parsed? {
      WireShrinks(s);
      assert Parse(s.data)[0] == ReadFrame(s.data).value;
    }
    if s.server.current.Some? {
      assert Taken(s)[0] == s.server.current.value;
      NextBlobIsFirst(s.server.id, s.server.current.value);
    }
  }
}
