/** Answers on the data connection: requests are made at any time, the server's workers write
    in any interleaving, the client's listener sorts the messages into bounded queues, and
    read handles take theirs off a queue that they share while it fills. */
module ReadStreams {
  import opened Wrappers
  import opened Frames

  datatype Message = Blob(id: nat, bytes: Bytes) | Complete(id: nat) | Failure(id: nat)

  predicate Ends(m: Message)
  {
    !m.Blob?
  }

  /** What one worker writes for one request: blobs, then one message that ends it. */
  predicate Answer(id: nat, ms: seq<Message>)
  {
    && ms != [] && (forall i :: 0 <= i < |ms| ==> ms[i].id == id)
    && (forall i :: 0 <= i < |ms| ==> (Ends(ms[i]) <==> i == |ms| - 1))
  }

  // ----- Read requests and their handles -----

  /** One read request: the bytes in the chunks that the server read, and whether it read
      them to the end or failed. */
  datatype Job = Job(id: nat, chunks: seq<Bytes>, ok: bool)

  /** The server writes no empty chunk: an empty read ends its loop. */
  predicate Chunked(job: Job)
  {
    forall j :: 0 <= j < |job.chunks| ==> job.chunks[j] != []
  }

  function EndOf(job: Job): Message
  {
    if job.ok then Complete(job.id) else Failure(job.id)
  }

  /** `RemoteHandler::writeToParent`. */
  function JobMessages(job: Job): (ms: seq<Message>)
    ensures forall i :: 0 <= i < |ms| ==> ms[i].id == job.id
  {
    seq(|job.chunks|, i requires 0 <= i < |job.chunks| => Blob(job.id, job.chunks[i])) + [EndOf(job)]
  }

  function AllMessages(jobs: seq<Job>): seq<Message>
  {
    if jobs == [] then [] else JobMessages(jobs[0]) + AllMessages(jobs[1..])
  }

  function Joined(chunks: seq<Bytes>): Bytes
  {
    if chunks == [] then [] else chunks[0] + Joined(chunks[1..])
  }

  /** The bytes up to the next end of a request, whether that is a failure, and the messages
      after it. */
  function Next(ms: seq<Message>): (r: Option<(Bytes, bool, seq<Message>)>)
    ensures r.Some? ==> |r.value.2| < |ms|
  {
    if ms == [] then None
    else match ms[0]
      case Complete(_) => Some(([], true, ms[1..]))
      case Failure(_) => Some(([], false, ms[1..]))
      case Blob(_, bytes) =>
        if bytes == [] then None
        else match Next(ms[1..])
          case None => None
          case Some(r) => Some((bytes + r.0, r.1, r.2))
  }

  lemma {:induction false} NextIsJob(job: Job, rest: seq<Message>)
    requires Chunked(job)
    ensures Next(JobMessages(job) + rest) == Some((Joined(job.chunks), job.ok, rest))
    decreases |job.chunks|
  {
    var ms := JobMessages(job) + rest;
    if job.chunks == [] {
      assert ms == [EndOf(job)] + rest;
    } else {
      var tail := Job(job.id, job.chunks[1..], job.ok);
      assert ms[1..] == JobMessages(tail) + rest;
      NextIsJob(tail, rest);
    }
  }

  /** Further messages do not alter what the next request gives. */
  lemma {:induction false} NextAhead(ms: seq<Message>, more: seq<Message>)
    requires Next(ms).Some?
    ensures Next(ms + more) == Some((Next(ms).value.0, Next(ms).value.1, Next(ms).value.2 + more))
  {
    assert (ms + more)[0] == ms[0] && (ms + more)[1..] == ms[1..] + more;
    if ms[0].Blob? {
      NextAhead(ms[1..], more);
    }
  }

  lemma {:induction false} AllOfMore(jobs: seq<Job>, job: Job)
    ensures AllMessages(jobs + [job]) == AllMessages(jobs) + JobMessages(job)
  {
    hide JobMessages;
    if jobs == [] {
      assert [] + [job] == [job] && [job][1..] == [] && JobMessages(job) + [] == JobMessages(job) == [] + JobMessages(job);
    } else {
      assert (jobs + [job])[1..] == jobs[1..] + [job];
      AllOfMore(jobs[1..], job);
      assert JobMessages(jobs[0]) + (AllMessages(jobs[1..]) + JobMessages(job)) == AllMessages(jobs) + JobMessages(job);
    }
  }

  /** One call of `FDBRemoteDataHandle::read`, with the bytes that are left in its buffer and
      the messages in the queue: it waits for a message, throws, or returns. */
  datatype Outcome = Waits | Throws(items: seq<Message>) | Returns(bytes: Bytes, rest: Bytes, items: seq<Message>)

  function Cut(bytes: Bytes, sz: nat, items: seq<Message>): Outcome
  {
    var n := if sz < |bytes| then sz else |bytes|;
    Returns(bytes[..n], bytes[n..], items)
  }

  function ReadOnce(rest: Bytes, items: seq<Message>, sz: nat): Outcome
  {
    if rest != [] then Cut(rest, sz, items)
    else if items == [] then Waits
    else match items[0]
      case Failure(_) => Throws(items[1..])
      case Complete(_) => Returns([], [], items[1..])
      case Blob(_, bytes) => if bytes == [] then Throws(items[1..]) else Cut(bytes, sz, items[1..])
  }

  /** A read of one byte or more returns some of the bytes up to the next end, and nothing, or
      throws, exactly at that end. */
  lemma {:induction false} ReadOnceIsNext(rest: Bytes, items: seq<Message>, later: seq<Message>, sz: nat)
    requires sz > 0 && Next(items + later).Some? && !ReadOnce(rest, items, sz).Waits?
    ensures var (b, ok, after) := Next(items + later).value;
            match ReadOnce(rest, items, sz)
            case Returns(bytes, rest', items') =>
              if bytes == [] then rest + b == [] && ok && items' + later == after && rest' == []
              else |bytes| <= sz && Next(items' + later).Some? && bytes + rest' + Next(items' + later).value.0 == rest + b
                   && Next(items' + later).value.1 == ok && Next(items' + later).value.2 == after
            case Throws(items') => rest + b == [] && !ok && items' + later == after
  {
    if rest != [] {
      var n := if sz < |rest| then sz else |rest|;
      assert rest[..n] + rest[n..] == rest;
    } else {
      assert (items + later)[0] == items[0] && (items + later)[1..] == items[1..] + later;
      if items[0].Blob? {
        var bytes := items[0].bytes;
        var n := if sz < |bytes| then sz else |bytes|;
        assert bytes[..n] + bytes[n..] == bytes;
        assert [] + (bytes + Next(items[1..] + later).value.0) == bytes + Next(items[1..] + later).value.0;
      }
    }
  }

  /** The member that should say that a handle is complete is never set, so a read after the
      end takes the bytes of the request behind it, where there is one with bytes. */
  lemma {:induction false} ReadPastTheEnd(job: Job, items: seq<Message>, sz: nat)
    requires Chunked(job) && sz > 0
    ensures match ReadOnce([], JobMessages(job) + items, sz)
            case Waits => false
            case Returns(bytes, _, _) => (bytes == [] <==> job.chunks == []) && bytes <= Joined(job.chunks)
            case Throws(_) => job.chunks == [] && !job.ok
  {
    var ms := JobMessages(job) + items;
    if job.chunks != [] {
      assert ms[0] == Blob(job.id, job.chunks[0]) && job.chunks[0] <= Joined(job.chunks);
    } else {
      assert ms[0] == EndOf(job);
    }
  }

  // ----- Workers, connection, listener and handles -----

  /** The queue of an API request: the blobs that came, how many its iterator has taken, and
      the end. */
  datatype ApiQueue = ApiQueue(blobs: seq<Message>, taken: nat, end: Option<Message>)

  datatype Progress = Reading | Ended | Threw

  /** A read handle: what is left in its buffer, and what its reads have returned. */
  datatype Handle = Handle(rest: Bytes, out: Bytes, progress: Progress)

  const FRESH := Handle([], [], Reading)

  /** `answers` are the answers to the API requests that have been made, and `workers` their
      unwritten parts; `fetches` are the read requests in the order in which they were made,
      and `jobs` the unwritten messages of the one thread that works them off; `open` are
      the identifiers in `messageQueues_`; the handles are used in the order of their
      requests, and `current` is the one whose turn it is. */
  datatype State = State(answers: map<nat, seq<Message>>, fetches: seq<Job>,
                         workers: map<nat, seq<Message>>, jobs: seq<Message>, wire: seq<Message>,
                         open: set<nat>, queues: map<nat, ApiQueue>, retrieved: seq<Message>,
                         handles: seq<Handle>, current: nat)

  /** The lengths of the queues of API requests and of read requests. */
  datatype Limits = Limits(api: nat, retrieve: nat)

  datatype Step =
    | Asks(id: nat, answer: seq<Message>) | AsksToRead(job: Job)
    | WorkerWrites(id: nat) | ReaderWrites | Listens
    | Iterates(id: nat) | Reads(sz: nat)

  /** No request has this identifier. */
  predicate Unused(s: State, id: nat)
  {
    id !in s.answers && forall i :: 0 <= i < |s.fetches| ==> s.fetches[i].id != id
  }

  /** `RemoteFDB::listeningThreadLoop` for one message, which waits where the queue is full. */
  function Sort(s: State, limits: Limits, m: Message): Option<State>
  {
    if m.id in s.open && m.id in s.queues then
      var q := s.queues[m.id];
      if !m.Blob? then Some(s.(queues := s.queues[m.id := q.(end := Some(m))], open := s.open - {m.id}))
      else if |q.blobs| >= q.taken + limits.api then None
      else Some(s.(queues := s.queues[m.id := q.(blobs := q.blobs + [m])]))
    else if |s.retrieved| >= limits.retrieve then None
    else Some(s.(retrieved := s.retrieved + [m]))
  }

  /** The read handle whose turn it is. */
  function HandleReads(s: State, sz: nat): Option<State>
    requires s.current < |s.handles|
  {
    var h := s.handles[s.current];
    match ReadOnce(h.rest, s.retrieved, sz)
    case Waits => None
    case Throws(items) =>
      Some(s.(retrieved := items, handles := s.handles[s.current := h.(progress := Threw)], current := s.current + 1))
    case Returns(bytes, rest, items) =>
      if bytes == [] then
        Some(s.(retrieved := items, handles := s.handles[s.current := h.(progress := Ended)], current := s.current + 1))
      else
        Some(s.(retrieved := items, handles := s.handles[s.current := Handle(rest, h.out + bytes, Reading)]))
  }

  function Do(s: State, limits: Limits, step: Step): Option<State>
  {
    match step
    case Asks(id, answer) =>
      if Unused(s, id) && Answer(id, answer) then
        Some(s.(answers := s.answers[id := answer], workers := s.workers[id := answer],
                open := s.open + {id}, queues := s.queues[id := ApiQueue([], 0, None)]))
      else None
    case AsksToRead(job) =>
      if Unused(s, job.id) && Chunked(job) then
        Some(s.(fetches := s.fetches + [job], jobs := s.jobs + JobMessages(job), handles := s.handles + [FRESH]))
      else None
    case WorkerWrites(id) =>
      if id in s.workers && s.workers[id] != [] then
        Some(s.(wire := s.wire + [s.workers[id][0]], workers := s.workers[id := s.workers[id][1..]]))
      else None
    case ReaderWrites =>
      if s.jobs != [] then Some(s.(wire := s.wire + [s.jobs[0]], jobs := s.jobs[1..])) else None
    case Listens =>
      if s.wire != [] then Sort(s.(wire := s.wire[1..]), limits, s.wire[0]) else None
    case Iterates(id) =>
      if id in s.queues && s.queues[id].taken < |s.queues[id].blobs| then
        Some(s.(queues := s.queues[id := s.queues[id].(taken := s.queues[id].taken + 1)]))
      else None
    case Reads(sz) =>
      if s.current < |s.handles| && sz > 0 then HandleReads(s, sz) else None
  }

  const START := State(map[], [], map[], [], [], {}, map[], [], [], 0)

  function Run(limits: Limits, steps: seq<Step>): Option<State>
  {
    if steps == [] then Some(START)
    else
      match Run(limits, steps[..|steps| - 1])
      case None => None
      case Some(s) => Do(s, limits, steps[|steps| - 1])
  }

  /** The messages of one request. */
  function Of(ms: seq<Message>, id: nat): (r: seq<Message>)
    ensures forall i :: 0 <= i < |r| ==> r[i].id == id
  {
    if ms == [] then [] else (if ms[0].id == id then [ms[0]] else []) + Of(ms[1..], id)
  }

  /** The messages of no API request. */
  function Others(ms: seq<Message>, api: set<nat>): seq<Message>
  {
    if ms == [] then [] else (if ms[0].id in api then [] else [ms[0]]) + Others(ms[1..], api)
  }

  lemma {:induction false} OfConcat(a: seq<Message>, b: seq<Message>, id: nat)
    ensures Of(a + b, id) == Of(a, id) + Of(b, id)
  {
    if a == [] {
      assert a + b == b;
    } else {
      assert (a + b)[1..] == a[1..] + b;
      OfConcat(a[1..], b, id);
    }
  }

  lemma {:induction false} OthersConcat(a: seq<Message>, b: seq<Message>, api: set<nat>)
    ensures Others(a + b, api) == Others(a, api) + Others(b, api)
  {
    if a == [] {
      assert a + b == b;
    } else {
      assert (a + b)[1..] == a[1..] + b;
      OthersConcat(a[1..], b, api);
    }
  }

  /** What an API queue has received, its end included. */
  function Received(q: ApiQueue): seq<Message>
  {
    q.blobs + if q.end.Some? then [q.end.value] else []
  }

  predicate Sorted(q: ApiQueue)
  {
    && q.taken <= |q.blobs| && (forall i :: 0 <= i < |q.blobs| ==> q.blobs[i].Blob?)
    && (q.end.Some? ==> Ends(q.end.value))
  }

  /** A queue has its end exactly when the last message it received ends a request. */
  lemma {:induction false} EndIsLast(q: ApiQueue)
    requires Sorted(q)
    ensures var got := Received(q); q.end.Some? <==> got != [] && Ends(got[|got| - 1])
  {
  }

  /** Received, on the wire and unwritten: together they are the answer, in order. */
  predicate Whole(s: State, id: nat)
  {
    && id in s.answers && id in s.queues && id in s.workers && Answer(id, s.answers[id])
    && (id in s.open <==> s.queues[id].end.None?) && Sorted(s.queues[id])
    && Received(s.queues[id]) + Of(s.wire, id) + s.workers[id] == s.answers[id]
  }

  /** The messages for the read handles that no handle has taken yet. */
  function Stream(s: State): seq<Message>
  {
    s.retrieved + Others(s.wire, s.answers.Keys) + s.jobs
  }

  /** A message of some request. */
  predicate Known(s: State, m: Message)
  {
    m.id in s.answers || exists i :: 0 <= i < |s.fetches| && s.fetches[i].id == m.id
  }

  /** What a handle that is done has returned. */
  predicate Finished(job: Job, h: Handle)
  {
    h.out == Joined(job.chunks) && h.progress == if job.ok then Ended else Threw
  }

  /** The handle whose turn it is: what it returned, holds and will find is its request. */
  predicate OnTurn(job: Job, h: Handle, stream: seq<Message>, later: seq<Message>)
  {
    match Next(stream)
    case None => false
    case Some(next) => h.progress == Reading && h.out + h.rest + next.0 == Joined(job.chunks) && next.1 == job.ok && next.2 == later
  }

  predicate HandlesFit(s: State)
  {
    && |s.handles| == |s.fetches| && s.current <= |s.fetches|
    && (forall i :: 0 <= i < s.current ==> Finished(s.fetches[i], s.handles[i]))
    && (forall i :: s.current < i < |s.fetches| ==> s.handles[i] == FRESH)
    && (forall i :: 0 <= i < |s.fetches| ==> Chunked(s.fetches[i]))
    && if s.current == |s.fetches| then Stream(s) == []
       else OnTurn(s.fetches[s.current], s.handles[s.current], Stream(s), AllMessages(s.fetches[s.current + 1..]))
  }

  /** The API queues, and where messages can come from. */
  predicate ApiFits(s: State)
  {
    && s.open <= s.answers.Keys && s.workers.Keys == s.answers.Keys && s.queues.Keys == s.answers.Keys
    && (forall i :: 0 <= i < |s.fetches| ==> s.fetches[i].id !in s.answers)
    && (forall i :: 0 <= i < |s.wire| ==> Known(s, s.wire[i]))
    && (forall i :: 0 <= i < |s.jobs| ==> Known(s, s.jobs[i]) && s.jobs[i].id !in s.answers)
    && (forall id :: id in s.answers ==> Whole(s, id))
  }

  predicate Inv(s: State)
  {
    ApiFits(s) && HandlesFit(s)
  }

  // ----- What every step keeps of the API queues -----

  lemma {:induction false} OfNone(ms: seq<Message>, id: nat)
    requires forall i :: 0 <= i < |ms| ==> ms[i].id != id
    ensures Of(ms, id) == []
  {
    if ms != [] {
      OfNone(ms[1..], id);
    }
  }

  lemma {:induction false} OthersSame(ms: seq<Message>, api: set<nat>, id: nat)
    requires forall i :: 0 <= i < |ms| ==> ms[i].id != id
    ensures Others(ms, api + {id}) == Others(ms, api)
  {
    if ms != [] {
      OthersSame(ms[1..], api, id);
    }
  }

  lemma {:induction false} OthersOfOne(wire: seq<Message>, m: Message, api: set<nat>)
    ensures Others(wire + [m], api) == Others(wire, api) + if m.id in api then [] else [m]
  {
    OthersConcat(wire, [m], api);
  }

  lemma {:induction false} UnusedIsNew(s: State, id: nat, m: Message)
    requires Unused(s, id) && Known(s, m)
    ensures m.id != id
  {
  }

  /** A queue is open as long as its answer has not all been received. */
  lemma {:induction false} OpenUntilEnd(s: State, id: nat)
    requires Whole(s, id)
    ensures var rest := Of(s.wire, id) + s.workers[id];
            && s.answers[id] == Received(s.queues[id]) + rest
            && (id in s.open <==> rest != [])
            && forall i :: 0 <= i < |rest| ==> rest[i].id == id
  {
    var got, rest := Received(s.queues[id]), Of(s.wire, id) + s.workers[id];
    EndIsLast(s.queues[id]);
    assert s.answers[id] == got + rest;
    if got != [] {
      assert s.answers[id][|got| - 1] == got[|got| - 1];
    }
    forall i | 0 <= i < |rest|
      ensures rest[i].id == id
    {
      assert s.answers[id][|got| + i] == rest[i];
    }
  }

  lemma {:induction false} WholeFrame(s: State, s': State, i: nat)
    requires Whole(s, i) && i in s'.answers && s'.answers[i] == s.answers[i] && s'.wire == s.wire
    requires i in s'.queues && s'.queues[i] == s.queues[i] && i in s'.workers && s'.workers[i] == s.workers[i]
    requires i in s'.open <==> i in s.open
    ensures Whole(s', i)
  {
  }

  lemma {:induction false} AsksKeeps(s: State, limits: Limits, id: nat, answer: seq<Message>)
    requires Inv(s) && Do(s, limits, Asks(id, answer)).Some?
    ensures var s' := Do(s, limits, Asks(id, answer)).value; ApiFits(s') && Stream(s') == Stream(s)
  {
    hide Whole, Of, Others, Answer, HandlesFit, Unused;
    var s' := Do(s, limits, Asks(id, answer)).value;
    forall i | 0 <= i < |s.wire|
      ensures s.wire[i].id != id && Known(s', s.wire[i])
    {
      UnusedIsNew(s, id, s.wire[i]);
    }
    forall i | 0 <= i < |s.jobs|
      ensures s.jobs[i].id != id && Known(s', s.jobs[i])
    {
      UnusedIsNew(s, id, s.jobs[i]);
    }
    OthersSame(s.wire, s.answers.Keys, id);
    assert s'.answers.Keys == s.answers.Keys + {id};
    forall i | i in s'.answers
      ensures Whole(s', i)
    {
      if i == id {
        NewIsWhole(s, s', id, answer);
      } else {
        WholeFrame(s, s', i);
      }
    }
    assert forall i :: 0 <= i < |s.fetches| ==> s.fetches[i].id != id by { FetchesDiffer(s, id); }
  }

  lemma {:induction false} FetchesDiffer(s: State, id: nat)
    requires Unused(s, id)
    ensures forall i :: 0 <= i < |s.fetches| ==> s.fetches[i].id != id
  {
  }

  lemma {:induction false} NewIsWhole(s: State, s': State, id: nat, answer: seq<Message>)
    requires Answer(id, answer) && s'.wire == s.wire && forall i :: 0 <= i < |s.wire| ==> s.wire[i].id != id
    requires s'.answers == s.answers[id := answer] && s'.workers == s.workers[id := answer]
    requires s'.open == s.open + {id} && s'.queues == s.queues[id := ApiQueue([], 0, None)]
    ensures Whole(s', id)
  {
    hide Answer;
    OfNone(s.wire, id);
    assert [] + [] + answer == answer;
  }

  lemma {:induction false} AsksToReadKeeps(s: State, limits: Limits, job: Job)
    requires Inv(s) && Do(s, limits, AsksToRead(job)).Some?
    ensures var s' := Do(s, limits, AsksToRead(job)).value; ApiFits(s') && Stream(s') == Stream(s) + JobMessages(job)
  {
    hide Whole, Others, HandlesFit, JobMessages;
    var s' := Do(s, limits, AsksToRead(job)).value;
    assert s.retrieved + Others(s.wire, s.answers.Keys) + (s.jobs + JobMessages(job)) == Stream(s) + JobMessages(job);
    forall m | Known(s, m)
      ensures Known(s', m)
    {
      if m.id !in s.answers {
        var i :| 0 <= i < |s.fetches| && s.fetches[i].id == m.id;
        assert s'.fetches[i] == s.fetches[i];
      }
    }
    assert s'.fetches[|s.fetches|] == job;
    assert forall i :: 0 <= i < |JobMessages(job)| ==> JobMessages(job)[i].id == job.id;
    forall i | i in s'.answers
      ensures Whole(s', i)
    {
      WholeFrame(s, s', i);
    }
  }

  /** One more message on the wire, taken from an answer or from the read thread. */
  lemma {:induction false} WholeAfterWrite(s: State, s': State, m: Message, i: nat)
    requires Whole(s, i) && i in s'.workers && s'.wire == s.wire + [m] && s'.open == s.open && s'.queues == s.queues && s'.answers == s.answers
    requires if m.id == i then s.workers[i] != [] && s.workers[i][0] == m && s'.workers[i] == s.workers[i][1..] else s'.workers[i] == s.workers[i]
    ensures Whole(s', i)
  {
    hide Received, Sorted, Answer;
    OfConcat(s.wire, [m], i);
    var got, flying := Received(s.queues[i]), Of(s.wire, i);
    if m.id == i {
      assert Of([m], i) == [m];
      assert s.workers[i] == [m] + s'.workers[i];
      assert got + (flying + [m]) + s'.workers[i] == got + flying + ([m] + s'.workers[i]);
    } else {
      assert Of([m], i) == [];
      assert flying + [] == flying;
    }
  }

  lemma {:induction false} WorkerKeeps(s: State, limits: Limits, id: nat)
    requires Inv(s) && Do(s, limits, WorkerWrites(id)).Some?
    ensures var s' := Do(s, limits, WorkerWrites(id)).value; ApiFits(s') && Stream(s') == Stream(s)
  {
    hide Whole, Of, Others, Answer, HandlesFit;
    var s', m := Do(s, limits, WorkerWrites(id)).value, s.workers[id][0];
    OpenUntilEnd(s, id);
    var rest := Of(s.wire, id) + s.workers[id];
    assert rest[|Of(s.wire, id)|] == m;
    OthersOfOne(s.wire, m, s.answers.Keys);
    assert Others(s.wire, s.answers.Keys) + [] == Others(s.wire, s.answers.Keys);
    assert forall n :: Known(s, n) ==> Known(s', n);
    forall i | i in s.answers
      ensures Whole(s', i)
    {
      WholeAfterWrite(s, s', m, i);
    }
  }

  lemma {:induction false} ReaderKeeps(s: State, limits: Limits)
    requires Inv(s) && Do(s, limits, ReaderWrites).Some?
    ensures var s' := Do(s, limits, ReaderWrites).value; ApiFits(s') && Stream(s') == Stream(s)
  {
    hide Whole, Of, Others, Answer, HandlesFit;
    var s', m := Do(s, limits, ReaderWrites).value, s.jobs[0];
    var flying := Others(s.wire, s.answers.Keys);
    OthersOfOne(s.wire, m, s.answers.Keys);
    assert s.jobs == [m] + s.jobs[1..];
    assert s.retrieved + (flying + [m]) + s.jobs[1..] == s.retrieved + flying + ([m] + s.jobs[1..]);
    assert forall n :: Known(s, n) ==> Known(s', n);
    forall i | i in s.answers
      ensures Whole(s', i)
    {
      WholeAfterWrite(s, s', m, i);
    }
  }

  /** Sorting a message into the queue of its request, or past it. */
  lemma {:induction false} WholeAfterSorting(s: State, limits: Limits, i: nat)
    requires Whole(s, i) && s.wire != [] && (s.wire[0].id == i ==> i in s.open) && Do(s, limits, Listens).Some?
    ensures Whole(Do(s, limits, Listens).value, i)
  {
    hide Answer;
    var m, rest := s.wire[0], s.wire[1..];
    if m.id == i {
      assert Of(s.wire, i) == [m] + Of(rest, i);
      Delivered(s.queues[i], m, Of(rest, i), s.workers[i]);
    } else {
      assert Of(s.wire, i) == [] + Of(rest, i) == Of(rest, i);
    }
    hide Received, Of;
  }

  lemma {:induction false} Delivered(q: ApiQueue, m: Message, flying: seq<Message>, unwritten: seq<Message>)
    requires q.end.None?
    ensures var q' := if m.Blob? then q.(blobs := q.blobs + [m]) else q.(end := Some(m));
            Received(q') + flying + unwritten == Received(q) + ([m] + flying) + unwritten
  {
    assert q.blobs + [] == q.blobs;
    assert (q.blobs + [m]) + [] == q.blobs + [m];
    assert q.blobs + ([m] + flying) == (q.blobs + [m]) + flying;
  }

  lemma {:induction false} ListenerKeeps(s: State, limits: Limits)
    requires Inv(s) && Do(s, limits, Listens).Some?
    ensures var s' := Do(s, limits, Listens).value; ApiFits(s') && Stream(s') == Stream(s)
  {
    hide Whole, Of, Answer, HandlesFit;
    var s', m, rest := Do(s, limits, Listens).value, s.wire[0], s.wire[1..];
    if m.id in s.answers {
      OpenUntilEnd(s, m.id);
      assert Of(s.wire, m.id) != [] by { FirstIsOf(s.wire); }
      assert [] + Others(rest, s.answers.Keys) == Others(rest, s.answers.Keys);
    } else {
      var done := s.retrieved;
      assert done + ([m] + Others(rest, s.answers.Keys)) + s.jobs == (done + [m]) + Others(rest, s.answers.Keys) + s.jobs;
    }
    assert forall n :: Known(s, n) ==> Known(s', n);
    forall i | i in s.answers
      ensures Whole(s', i)
    {
      WholeAfterSorting(s, limits, i);
    }
  }

  lemma {:induction false} FirstIsOf(ms: seq<Message>)
    requires ms != []
    ensures Of(ms, ms[0].id) != []
  {
  }

  lemma {:induction false} IteratorKeeps(s: State, limits: Limits, id: nat)
    requires Inv(s) && Do(s, limits, Iterates(id)).Some?
    ensures var s' := Do(s, limits, Iterates(id)).value; ApiFits(s') && Stream(s') == Stream(s)
  {
    hide Of, Others, Answer, HandlesFit;
    var s' := Do(s, limits, Iterates(id)).value;
    assert forall n :: Known(s, n) ==> Known(s', n);
    forall i | i in s.answers
      ensures Whole(s', i)
    {
      assert Whole(s, i);
    }
  }

  lemma {:induction false} ReadsKeepApi(s: State, limits: Limits, sz: nat)
    requires Inv(s) && Do(s, limits, Reads(sz)).Some?
    ensures ApiFits(Do(s, limits, Reads(sz)).value)
  {
    hide Whole, HandlesFit, ReadOnce;
    var s' := Do(s, limits, Reads(sz)).value;
    assert forall n :: Known(s, n) ==> Known(s', n);
    forall i | i in s.answers
      ensures Whole(s', i)
    {
      WholeFrame(s, s', i);
    }
  }

  // ----- What every step keeps of the read handles -----

  lemma {:induction false} SameStreamKeeps(s: State, s': State)
    requires HandlesFit(s) && s'.fetches == s.fetches && s'.handles == s.handles && s'.current == s.current && Stream(s') == Stream(s)
    ensures HandlesFit(s')
  {
    hide Stream, OnTurn;
  }

  /** A read request brings its messages behind all others. */
  lemma {:induction false} NewFetchFits(s: State, s': State, job: Job)
    requires HandlesFit(s) && Chunked(job) && s'.fetches == s.fetches + [job] && s'.handles == s.handles + [FRESH] && s'.current == s.current
    requires Stream(s') == Stream(s) + JobMessages(job)
    ensures HandlesFit(s')
  {
    hide Stream, JobMessages, Chunked, Next, Finished, AllMessages;
    var c := s.current;
    if c == |s.fetches| {
      assert Stream(s') == JobMessages(job) == JobMessages(job) + [];
      NextIsJob(job, []);
      assert s'.fetches[c + 1..] == [];
      NoMessages();
      assert [] + [] + Joined(job.chunks) == Joined(job.chunks);
    } else {
      NextAhead(Stream(s), JobMessages(job));
      assert s'.fetches[c + 1..] == s.fetches[c + 1..] + [job];
      AllOfMore(s.fetches[c + 1..], job);
    }
  }

  lemma {:induction false} NoMessages()
    ensures AllMessages([]) == []
  {
  }

  /** A read that returns bytes. */
  lemma {:induction false} HandleGoesOn(job: Job, h: Handle, items: seq<Message>, later: seq<Message>, behind: seq<Message>, sz: nat)
    requires sz > 0 && OnTurn(job, h, items + later, behind)
    requires ReadOnce(h.rest, items, sz).Returns? && ReadOnce(h.rest, items, sz).bytes != []
    ensures var r := ReadOnce(h.rest, items, sz); OnTurn(job, Handle(r.rest, h.out + r.bytes, Reading), r.items + later, behind)
  {
    hide Next, ReadOnce, Joined;
    ReadOnceIsNext(h.rest, items, later, sz);
    var r, b := ReadOnce(h.rest, items, sz), Next(items + later).value.0;
    var b' := Next(r.items + later).value.0;
    assert h.out + (r.bytes + r.rest + b') == (h.out + r.bytes) + r.rest + b';
    assert h.out + (h.rest + b) == h.out + h.rest + b;
  }

  /** A read that returns nothing or throws. */
  lemma {:induction false} HandleEnds(job: Job, h: Handle, items: seq<Message>, later: seq<Message>, behind: seq<Message>, sz: nat)
    requires sz > 0 && OnTurn(job, h, items + later, behind)
    requires match ReadOnce(h.rest, items, sz) case Returns(bytes, _, _) => bytes == [] case Throws(_) => true case Waits => false
    ensures var r := ReadOnce(h.rest, items, sz); r.items + later == behind && Finished(job, h.(progress := if r.Throws? then Threw else Ended))
  {
    hide Next, ReadOnce, Joined;
    ReadOnceIsNext(h.rest, items, later, sz);
    var b := Next(items + later).value.0;
    assert h.rest == [] && b == [];
    assert h.out + [] + [] == h.out;
  }

  /** One read by the handle whose turn it is. */
  lemma {:induction false} ReadsKeep(s: State, limits: Limits, sz: nat)
    requires HandlesFit(s) && Do(s, limits, Reads(sz)).Some?
    ensures HandlesFit(Do(s, limits, Reads(sz)).value)
  {
    hide Others, OnTurn, ReadOnce, Chunked, AllMessages, Joined, Finished;
    var s', c := Do(s, limits, Reads(sz)).value, s.current;
    var h, later := s.handles[c], Others(s.wire, s.answers.Keys) + s.jobs;
    assert Stream(s) == s.retrieved + later && Stream(s') == s'.retrieved + later;
    var job, behind, r := s.fetches[c], AllMessages(s.fetches[c + 1..]), ReadOnce(h.rest, s.retrieved, sz);
    if r.Returns? && r.bytes != [] {
      HandleGoesOn(job, h, s.retrieved, later, behind, sz);
    } else {
      HandleEnds(job, h, s.retrieved, later, behind, sz);
      NextTurn(s, s');
    }
  }

  /** The stream after the end of a request is that of the requests behind it. */
  lemma {:induction false} NextTurn(s: State, s': State)
    requires s.current < |s.fetches| && s'.fetches == s.fetches && |s'.handles| == |s.fetches| && s'.current == s.current + 1
    requires forall i :: 0 <= i < |s.fetches| ==> Chunked(s.fetches[i])
    requires s'.current < |s.fetches| ==> s'.handles[s'.current] == FRESH
    requires Stream(s') == AllMessages(s.fetches[s'.current..])
    ensures if s'.current == |s.fetches| then Stream(s') == []
            else OnTurn(s'.fetches[s'.current], s'.handles[s'.current], Stream(s'), AllMessages(s'.fetches[s'.current + 1..]))
  {
    hide Stream, Chunked, Next, JobMessages;
    var c := s'.current;
    if c < |s.fetches| {
      var job := s.fetches[c];
      assert s.fetches[c..][0] == job && s.fetches[c..][1..] == s.fetches[c + 1..];
      NextIsJob(job, AllMessages(s.fetches[c + 1..]));
      assert [] + [] + Joined(job.chunks) == Joined(job.chunks);
    }
  }

  lemma {:induction false} StepKeeps(s: State, limits: Limits, step: Step)
    requires Inv(s) && Do(s, limits, step).Some?
    ensures Inv(Do(s, limits, step).value)
  {
    var s' := Do(s, limits, step).value;
    hide ApiFits, HandlesFit, HandleReads, Stream, Sort, Unused, JobMessages, Chunked, Answer;
    match step
    case Asks(id, answer) => AsksKeeps(s, limits, id, answer); SameStreamKeeps(s, s');
    case AsksToRead(job) => AsksToReadKeeps(s, limits, job); NewFetchFits(s, s', job);
    case WorkerWrites(id) => WorkerKeeps(s, limits, id); SameStreamKeeps(s, s');
    case ReaderWrites => ReaderKeeps(s, limits); SameStreamKeeps(s, s');
    case Listens => ListenerKeeps(s, limits); SortKeepsHandles(s, limits); SameStreamKeeps(s, s');
    case Iterates(id) => IteratorKeeps(s, limits, id); SameStreamKeeps(s, s');
    case Reads(sz) => ReadsKeepApi(s, limits, sz); ReadsKeep(s, limits, sz);
  }

  lemma {:induction false} SortKeepsHandles(s: State, limits: Limits)
    requires Do(s, limits, Listens).Some?
    ensures var s' := Do(s, limits, Listens).value; s'.fetches == s.fetches && s'.handles == s.handles && s'.current == s.current
  {
  }

  lemma {:induction false} RunKeeps(limits: Limits, steps: seq<Step>)
    requires Run(limits, steps).Some?
    ensures Inv(Run(limits, steps).value)
  {
    if steps != [] {
      var init := steps[..|steps| - 1];
      RunKeeps(limits, init);
      hide Inv, Do;
      StepKeeps(Run(limits, init).value, limits, steps[|steps| - 1]);
    }
  }

  // ----- The main results -----

  /** In every interleaving, with requests made at any time, an API queue has received a
      prefix of its own request's answer and nothing else ever, all of it exactly once its
      end has come; its iterator has taken a prefix of the blobs. */
  lemma {:induction false} QueuesAreAnswers(limits: Limits, steps: seq<Step>, id: nat)
    requires Run(limits, steps).Some? && id in Run(limits, steps).value.answers
    ensures var s := Run(limits, steps).value;
            && id in s.queues && Received(s.queues[id]) <= s.answers[id]
            && (s.queues[id].end.Some? <==> Received(s.queues[id]) == s.answers[id])
            && s.queues[id].taken <= |s.queues[id].blobs|
  {
    hide Whole, Received, HandlesFit;
    RunKeeps(limits, steps);
    var s := Run(limits, steps).value;
    assert Whole(s, id);
    WholeHas(s, id);
    OpenUntilEnd(s, id);
  }

  lemma {:induction false} WholeHas(s: State, id: nat)
    requires Whole(s, id)
    ensures id in s.queues && (id in s.open <==> s.queues[id].end.None?) && s.queues[id].taken <= |s.queues[id].blobs|
  {
  }

  /** In every interleaving, while the queue that they share fills and whatever sizes are
      asked for, each handle in turn returns the bytes of its own request: a prefix as long
      as it reads, all of them once a read returned nothing, and all that the server read
      once a read threw, which it does exactly where the server failed. */
  lemma {:induction false} HandlesReturnTheirs(limits: Limits, steps: seq<Step>, i: nat)
    requires Run(limits, steps).Some? && i < |Run(limits, steps).value.fetches|
    ensures var s := Run(limits, steps).value;
            && |s.handles| == |s.fetches| && s.handles[i].out <= Joined(s.fetches[i].chunks)
            && (s.handles[i].progress.Ended? ==> s.fetches[i].ok && s.handles[i].out == Joined(s.fetches[i].chunks))
            && (s.handles[i].progress.Threw? ==> !s.fetches[i].ok && s.handles[i].out == Joined(s.fetches[i].chunks))
            && (s.handles[i].progress.Reading? <==> i >= s.current)
  {
    hide ApiFits, Stream, Next, Chunked, AllMessages;
    RunKeeps(limits, steps);
    var s := Run(limits, steps).value;
    var whole, h := Joined(s.fetches[i].chunks), s.handles[i];
    if i == s.current {
      var more := Next(Stream(s)).value.0;
      assert h.out + h.rest + more == h.out + (h.rest + more);
    }
  }

  predicate Bounded(s: State, limits: Limits)
  {
    |s.retrieved| <= limits.retrieve && forall id :: id in s.queues ==> |s.queues[id].blobs| <= s.queues[id].taken + limits.api
  }

  lemma {:induction false} StepBounded(s: State, limits: Limits, step: Step)
    requires Bounded(s, limits) && Do(s, limits, step).Some?
    ensures Bounded(Do(s, limits, step).value, limits)
  {
    hide JobMessages, Unused, Answer, Chunked;
  }

  /** The queues of a run keep to their lengths. */
  lemma {:induction false} QueuesAreBounded(limits: Limits, steps: seq<Step>)
    requires Run(limits, steps).Some?
    ensures Bounded(Run(limits, steps).value, limits)
  {
    if steps != [] {
      hide Do, Bounded;
      QueuesAreBounded(limits, steps[..|steps| - 1]);
      StepBounded(Run(limits, steps[..|steps| - 1]).value, limits, steps[|steps| - 1]);
    } else {
      assert Bounded(START, limits);
    }
  }

  /** `retrieveMessageQueue_`, shared by the read handles of a client. */
  class MessageQueue {
    var items: seq<Message>

    constructor (items: seq<Message>)
      ensures this.items == items
    {
      this.items := items;
    }

    method Pop() returns (m: Message)
      requires items != []
      modifies this
      ensures [m] + items == old(items)
    {
      m := items[0];
      items := items[1..];
    }
  }

  /** `FDBRemoteDataHandle`. */
  class DataHandle {
    const queue: MessageQueue
    var buffer: Bytes
    var pos: nat
    var overall: nat

    constructor (queue: MessageQueue)
      ensures this.queue == queue && Valid() && buffer == [] && overall == 0
    {
      this.queue := queue;
      buffer, pos, overall := [], 0, 0;
    }

    predicate Valid()
      reads this
    {
      if buffer == [] then pos == 0 else pos < |buffer|
    }

    /** The bytes that are left in the buffer. */
    function Rest(): Bytes
      requires Valid()
      reads this
    {
      buffer[pos..]
    }

    method BufferRead(sz: nat) returns (bytes: Bytes)
      requires Valid() && buffer != []
      modifies this
      ensures Valid() && Cut(old(Rest()), sz, []) == Returns(bytes, Rest(), [])
      ensures overall == old(overall) + |bytes|
    {
      var n := if sz < |buffer| - pos then sz else |buffer| - pos;
      bytes := buffer[pos..pos + n];
      pos, overall := pos + n, overall + n;
      if pos >= |buffer| {
        buffer, pos := [], 0;
      }
    }

    /** `read`, where it need not wait. */
    method Read(sz: nat) returns (ok: bool, bytes: Bytes)
      requires Valid() && !ReadOnce(Rest(), queue.items, sz).Waits?
      modifies this, queue
      ensures Valid() && overall == old(overall) + |bytes|
      ensures ReadOnce(old(Rest()), old(queue.items), sz) == if ok then Returns(bytes, Rest(), queue.items) else Throws(queue.items)
      ensures !ok ==> bytes == [] && Rest() == []
    {
      ok, bytes := true, [];
      if buffer != [] {
        bytes := BufferRead(sz);
        return;
      }
      var m := queue.Pop();
      assert old(queue.items)[0] == m && old(queue.items)[1..] == queue.items;
      if m.Failure? {
        return false, [];
      }
      if m.Complete? {
        return true, [];
      }
      buffer := m.bytes;
      if buffer == [] {
        return false, [];
      }
      assert Rest() == m.bytes;
      bytes := BufferRead(sz);
    }

    /** Reading until nothing is read or a read throws, whatever the sizes asked for. */
    method ReadAll(sizes: nat -> nat) returns (ok: bool, bytes: Bytes)
      requires Valid() && Next(queue.items).Some? && forall i :: sizes(i) > 0
      modifies this, queue
      ensures Valid() && Rest() == []
      ensures var next := Next(old(queue.items)).value; bytes == old(Rest()) + next.0 && ok == next.1 && queue.items == next.2
      ensures overall == old(overall) + |bytes|
    {
      hide Next, ReadOnce, Left;
      bytes := [];
      var i := 0;
      ghost var start := Left(Rest(), queue.items);
      LeftIs(Rest(), queue.items);
      assert [] + start.0 == start.0;
      while true
        invariant Valid() && Next(queue.items).Some? && overall == old(overall) + |bytes|
        invariant var left := Left(Rest(), queue.items); bytes + left.0 == start.0 && left.1 == start.1 && left.2 == start.2
        decreases |Left(Rest(), queue.items).0|
      {
        var part: Bytes;
        LeftStep(Rest(), queue.items, sizes(i));
        ghost var left := Left(Rest(), queue.items).0;
        ok, part := Read(sizes(i));
        if !ok || part == [] {
          return;
        }
        assert bytes + (part + Left(Rest(), queue.items).0) == (bytes + part) + Left(Rest(), queue.items).0;
        bytes := bytes + part;
        i := i + 1;
      }
    }

    /** What a handle has still to return, whether its request is read to the end, and what
        is left of the queue then. */
    ghost function Left(rest: Bytes, items: seq<Message>): (Bytes, bool, seq<Message>)
      requires Next(items).Some?
    {
      (rest + Next(items).value.0, Next(items).value.1, Next(items).value.2)
    }

    lemma {:induction false} LeftIs(rest: Bytes, items: seq<Message>)
      requires Next(items).Some?
      ensures Left(rest, items) == (rest + Next(items).value.0, Next(items).value.1, Next(items).value.2)
    {
      hide Next;
    }

    /** One read, before the end of the request or at it. */
    lemma {:induction false} LeftStep(rest: Bytes, items: seq<Message>, sz: nat)
      requires Next(items).Some? && sz > 0
      ensures match ReadOnce(rest, items, sz)
              case Waits => false
              case Throws(items') => Left(rest, items) == ([], false, items')
              case Returns(bytes, rest', items') =>
                if bytes == [] then Left(rest, items) == ([], true, items') && rest' == []
                else Next(items').Some? && Left(rest, items) == (bytes + Left(rest', items').0, Left(rest', items').1, Left(rest', items').2)
    {
      MayRead(rest, items, sz);
      hide Next, ReadOnce;
      assert items + [] == items;
      ReadOnceIsNext(rest, items, [], sz);
      match ReadOnce(rest, items, sz)
      case Waits =>
      case Throws(items') => assert items' + [] == items';
      case Returns(bytes, rest', items') =>
        assert items' + [] == items';
        if bytes != [] {
          assert bytes + (rest' + Next(items').value.0) == bytes + rest' + Next(items').value.0;
        }
    }

    lemma {:induction false} MayRead(rest: Bytes, items: seq<Message>, sz: nat)
      requires Next(items).Some?
      ensures !ReadOnce(rest, items, sz).Waits?
    {
    }
  }

  /** Handles drained in the order of their requests each return the bytes of their own
      request, whatever the sizes that they ask for, and throw where the server failed. */
  method DrainInOrder(queue: MessageQueue, jobs: seq<Job>, sizes: nat -> nat) returns (fields: seq<(bool, Bytes)>)
    requires queue.items == AllMessages(jobs) && (forall i :: 0 <= i < |jobs| ==> Chunked(jobs[i])) && forall i :: sizes(i) > 0
    modifies queue
    ensures |fields| == |jobs| && forall i :: 0 <= i < |jobs| ==> fields[i] == (jobs[i].ok, Joined(jobs[i].chunks))
    ensures queue.items == []
  {
    hide Chunked;
    fields := [];
    var i := 0;
    assert jobs[0..] == jobs;
    while i < |jobs|
      invariant 0 <= i <= |jobs| && |fields| == i && queue.items == AllMessages(jobs[i..])
      invariant forall j :: 0 <= j < i ==> fields[j] == (jobs[j].ok, Joined(jobs[j].chunks))
    {
      assert jobs[i..][0] == jobs[i] && jobs[i..][1..] == jobs[i + 1..];
      NextIsJob(jobs[i], AllMessages(jobs[i + 1..]));
      var handle := new DataHandle(queue);
      assert [] + Joined(jobs[i].chunks) == Joined(jobs[i].chunks);
      var ok, field := handle.ReadAll(sizes);
      fields := fields + [(ok, field)];
      i := i + 1;
    }
  }
}
