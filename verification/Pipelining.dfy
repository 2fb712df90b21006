/**
 A pipelined client dispatcher and a pipelined server dispatcher joined by two
 FIFO channels. The service answers in any order, also from inside the
 server's `fireWrite`; `depth` counts the frames of `sendResponses` that are
 inside it. The server's ids are 32 bits wide.
 */
module Pipelining {
  import opened Arithmetic
  import opened Octets

  type Request = string
  type Response = string

  datatype System = System(
    requests: seq<Request>,             // every request the client has made
    promises: seq<nat>,                 // the client's deque p_, by request number
    settled: seq<(nat, Response)>,      // promises settled so far, in order
    toServer: seq<Request>,
    received: seq<Request>,             // every request the server has read
    requestId: nat,                     // requestId_
    responses: map<nat, Response>,      // responses_
    lastWrittenId: nat,                 // lastWrittenId_
    depth: nat,
    answers: map<nat, Response>,        // how each future completed, by request number
    out: seq<Response>,                 // every response the server has written
    toClient: seq<Response>)

  const START: System := System([], [], [], [], [], 1, map[], 0, 0, map[], [], [])

  /** A count as a uint32_t holds it. */
  function Wrap(n: nat): (r: nat) {
    n % UINT32
  }

  /** Increment of a uint32_t. */
  function Succ(id: nat): (r: nat) {
    if id + 1 == UINT32 then 0 else id + 1
  }

  /** The id that request number j carries. */
  function Id(j: nat): (id: nat) {
    Wrap(j + 1)
  }

  /** Responses whose `fireWrite` has returned. */
  function Done(s: System): (w: int) {
    |s.out| - s.depth
  }

  datatype Event =
    | Call(req: Request)
    | ServerRead
    | Complete(j: nat, resp: Response)
    | ReturnFromWrite
    | ClientRead

  /** The server reads on while fewer than 2^32 responses are outstanding. */
  predicate Possible(s: System, e: Event) {
    match e
    case Call(_) => true
    case ServerRead => s.toServer != [] && |s.received| - Done(s) < UINT32
    case Complete(j, _) => j < |s.received| && j !in s.answers
    case ReturnFromWrite => s.depth > 0
    case ClientRead => s.toClient != []
  }

  /** One look of `sendResponses` for the next id: it enters `fireWrite` or its frame ends. */
  function Scan(s: System): (s': System) {
    var next := Succ(s.lastWrittenId);
    if next in s.responses then
      var resp := s.responses[next];
      s.(responses := s.responses - {next}, out := s.out + [resp], toClient := s.toClient + [resp],
         depth := s.depth + 1)
    else s
  }

  /** The continuation of request number j has stored its response. */
  function Buffered(s: System, j: nat, resp: Response): (s': System) {
    s.(answers := s.answers[j := resp], responses := s.responses[Id(j) := resp])
  }

  function DoComplete(s: System, j: nat, resp: Response): (s': System) {
    Scan(Buffered(s, j, resp))
  }

  function Reading(s: System): (s': System)
    requires s.toServer != []
  {
    s.(toServer := s.toServer[1..], received := s.received + [s.toServer[0]], requestId := Succ(s.requestId))
  }

  /** The top frame of `sendResponses` resumes after its `fireWrite`. */
  function Returning(s: System): (s': System)
    requires s.depth > 0
  {
    Scan(AfterWrite(s))
  }

  function Apply(s: System, e: Event): (s': System)
    requires Possible(s, e)
  {
    match e
    case Call(req) =>
      s.(requests := s.requests + [req], promises := s.promises + [|s.requests|], toServer := s.toServer + [req])
    case ServerRead => Reading(s)
    case Complete(j, resp) => DoComplete(s, j, resp)
    case ReturnFromWrite => Returning(s)
    case ClientRead =>
      // popping an empty deque is what the DCHECK rules out
      if s.promises == [] then s
      else s.(toClient := s.toClient[1..], promises := s.promises[1..],
              settled := s.settled + [(s.promises[0], s.toClient[0])])
  }

  predicate IsRun(s: System, events: seq<Event>)
    decreases |events|
  {
    events == [] || (Possible(s, events[0]) && IsRun(Apply(s, events[0]), events[1..]))
  }

  function After(s: System, events: seq<Event>): (s': System)
    requires IsRun(s, events)
    decreases |events|
  {
    if events == [] then s else After(Apply(s, events[0]), events[1..])
  }

  // ---------------------------------------------------------------------------
  // What every run keeps
  // ---------------------------------------------------------------------------

  /** The two ends count the same requests. */
  predicate InStep(s: System) {
    && s.received + s.toServer == s.requests
    && |s.settled| + |s.toClient| == |s.out| <= |s.received|
    && (forall i | 0 <= i < |s.toClient| :: s.toClient[i] == s.out[|s.settled| + i])
    && |s.settled| + |s.promises| == |s.requests|
    && (forall i | 0 <= i < |s.promises| :: s.promises[i] == |s.settled| + i)
    && (forall i | 0 <= i < |s.settled| :: s.settled[i] == (i, s.out[i]))
  }

  /** The server's ids follow its counts; no more than 2^32 responses are outstanding. */
  predicate IdsFollow(s: System) {
    && s.depth <= 1 && s.depth <= |s.out| <= |s.received| <= Done(s) + UINT32
    && s.requestId == Id(|s.received|) && s.lastWrittenId == Wrap(Done(s))
    && (forall j | j in s.answers :: j < |s.received|)
  }

  /** The reorder buffer holds exactly the answers not yet written; in every window of 2^32 requests ids are unique. */
  predicate BufferHolds(s: System) {
    && (forall j: nat | Done(s) <= j < Done(s) + UINT32 ::
          Id(j) in s.responses <==> j in s.answers && j >= |s.out|)
    && (forall j: nat | |s.out| <= j < |s.received| && j in s.answers && Id(j) in s.responses ::
          s.responses[Id(j)] == s.answers[j])
  }

  /** What was written is the answers in order, and an idle server has written all it can. */
  predicate Ordered(s: System) {
    && (forall k: nat | k < |s.out| :: k in s.answers && s.answers[k] == s.out[k])
    && (s.depth == 0 ==> |s.out| !in s.answers)
  }

  predicate Inv(s: System) {
    InStep(s) && IdsFollow(s) && BufferHolds(s) && Ordered(s)
  }

  lemma IdsDiffer(a: nat, b: nat)
    requires a < b < a + UINT32
    ensures Id(a) != Id(b)
  {
  }

  lemma IdAdvances(j: nat)
    ensures Id(j + 1) == Succ(Id(j)) && Succ(Wrap(j)) == Id(j) == Wrap(j + 1)
    ensures Id(j + UINT32) == Id(j)
  {
    WrapAdvances(j);
    WrapAdvances(j + 1);
  }

  lemma WrapAdvances(n: nat)
    ensures Wrap(n + 1) == Succ(Wrap(n)) && Wrap(n + UINT32) == Wrap(n)
  {
    var q, r := n / UINT32, n % UINT32;
    if r + 1 < UINT32 {
      DivUnique(n + 1, UINT32, q, r + 1);
    } else {
      DivUnique(n + 1, UINT32, q + 1, 0);
    }
    DivUnique(n + UINT32, UINT32, q + 1, r);
  }

  lemma CallKeepsInv(s: System, req: Request)
    requires Inv(s)
    ensures Inv(Apply(s, Call(req)))
  {
    hide Id, Wrap;
    var s' := Apply(s, Call(req));
    assert s.received + (s.toServer + [req]) == (s.received + s.toServer) + [req];
    assert InStep(s');
  }

  lemma ServerReadKeepsInv(s: System)
    requires Inv(s) && Possible(s, ServerRead)
    ensures Inv(Apply(s, ServerRead))
  {
    hide Id, Wrap;
    var s' := Apply(s, ServerRead);
    var head, tail := s.toServer[0], s.toServer[1..];
    assert s.toServer == [head] + tail;
    assert s.received + ([head] + tail) == (s.received + [head]) + tail;
    IdAdvances(|s.received|);
    assert InStep(s') && IdsFollow(s');
  }

  lemma ClientReadKeepsInv(s: System)
    requires Inv(s) && Possible(s, ClientRead)
    ensures s.promises != []
    ensures Inv(Apply(s, ClientRead))
  {
    hide Id, Wrap;
    var s' := Apply(s, ClientRead);
    assert |s.promises| == |s.requests| - |s.settled|;
    assert s.toClient[0] == s.out[|s.settled| + 0];
    assert s.promises[0] == |s.settled| + 0;
    forall i | 0 <= i < |s'.toClient| ensures s'.toClient[i] == s.out[|s'.settled| + i] {
      assert s'.toClient[i] == s.toClient[i + 1];
    }
    forall i | 0 <= i < |s'.promises| ensures s'.promises[i] == |s'.settled| + i {
      assert s'.promises[i] == s.promises[i + 1];
    }
  }

  /** Before a scan: everything the invariant says except that nothing more can be written. */
  predicate ReadyToScan(s: System) {
    && InStep(s) && IdsFollow(s) && BufferHolds(s)
    && (forall k: nat | k < |s.out| :: k in s.answers && s.answers[k] == s.out[k])
  }

  /** A scan inside `fireWrite` finds nothing; one outside writes the next answer exactly if it has come. */
  lemma ScanKeepsInv(s: System)
    requires ReadyToScan(s)
    ensures Inv(Scan(s))
    ensures s.depth > 0 ==> Scan(s) == s
    ensures s.depth == 0 && |s.out| in s.answers ==> Scan(s).out == s.out + [s.answers[|s.out|]]
    ensures s.depth == 0 && |s.out| !in s.answers ==> Scan(s) == s
  {
    hide Id, Wrap;
    var w: nat := Done(s);
    IdAdvances(w);
    var next := Succ(s.lastWrittenId);
    assert next == Id(w);
    if next in s.responses {
      ScanWrites(s);
    }
  }

  /** What a scan that finds the next id does, and that it happens outside of any write. */
  lemma ScanFinds(s: System)
    requires ReadyToScan(s) && Succ(s.lastWrittenId) in s.responses
    ensures var next, s' := Succ(s.lastWrittenId), Scan(s);
            && s.depth == 0 && s'.depth == 1 && Inv(s') && |s'.out| <= |s.received|
            && s'.responses == s.responses - {next} && s'.out == s.out + [s.responses[next]]
            && s'.received == s.received && s'.answers == s.answers
            && s'.requestId == s.requestId && s'.lastWrittenId == s.lastWrittenId
  {
    ScanKeepsInv(s);
  }

  /** What a scan that does not find it leaves. */
  lemma ScanMisses(s: System)
    requires ReadyToScan(s) && Succ(s.lastWrittenId) !in s.responses
    ensures Scan(s) == s && Inv(s)
  {
    ScanKeepsInv(s);
  }

  lemma ScanWrites(s: System)
    requires ReadyToScan(s) && Id(Done(s)) in s.responses && Succ(s.lastWrittenId) == Id(Done(s))
    ensures s.depth == 0 && |s.out| in s.answers
    ensures Inv(Scan(s)) && Scan(s).out == s.out + [s.answers[|s.out|]]
  {
    hide Id, Wrap;
    var w: nat := Done(s);
    var s' := Scan(s);
    var resp := s.responses[Id(w)];
    assert resp == s.answers[w];
    forall j: nat | w <= j < w + UINT32
      ensures Id(j) in s'.responses <==> j in s'.answers && j >= |s'.out|
    {
      if j > w { IdsDiffer(w, j); }
    }
    assert BufferHolds(s');
    assert InStep(s');
  }

  lemma InStepIgnoresTheBuffer(s: System, t: System)
    requires InStep(s)
    requires t == s.(answers := t.answers, responses := t.responses, depth := t.depth, lastWrittenId := t.lastWrittenId)
    ensures InStep(t)
  {
  }

  lemma CompletionIsBuffered(s: System, j: nat, resp: Response)
    requires IdsFollow(s) && BufferHolds(s) && |s.out| <= j < |s.received| && j !in s.answers
    ensures BufferHolds(s.(answers := s.answers[j := resp], responses := s.responses[Id(j) := resp]))
  {
    hide Id, Wrap;
    var t := s.(answers := s.answers[j := resp], responses := s.responses[Id(j) := resp]);
    var w: nat := Done(s);
    forall i: nat | w <= i < w + UINT32 && i != j ensures Id(i) != Id(j) {
      if i < j { IdsDiffer(i, j); } else { IdsDiffer(j, i); }
    }
  }

  lemma BufferedIsReady(s: System, j: nat, resp: Response)
    requires Inv(s) && Possible(s, Complete(j, resp))
    ensures ReadyToScan(Buffered(s, j, resp))
  {
    hide Id, Wrap, InStep, BufferHolds, Scan;
    CompletionIsBuffered(s, j, resp);
    InStepIgnoresTheBuffer(s, Buffered(s, j, resp));
  }

  lemma CompleteKeepsInv(s: System, j: nat, resp: Response)
    requires Inv(s) && Possible(s, Complete(j, resp))
    ensures Inv(DoComplete(s, j, resp))
  {
    hide Inv, Scan, ReadyToScan;
    BufferedIsReady(s, j, resp);
    ScanKeepsInv(Buffered(s, j, resp));
  }

  /** The window of ids moves on: the slot of the response just written is free for the request 2^32 later. */
  lemma WindowMoves(s: System, t: System)
    requires IdsFollow(s) && BufferHolds(s) && s.depth == 1
    requires t == s.(depth := 0, lastWrittenId := t.lastWrittenId)
    ensures BufferHolds(t)
  {
    hide Id, Wrap;
    var w: nat := Done(s);
    IdAdvances(w);
    assert Id(w) !in s.responses;
    forall j: nat | w + 1 <= j < w + 1 + UINT32
      ensures Id(j) in t.responses <==> j in t.answers && j >= |t.out|
    {
      if j == w + UINT32 { assert Id(j) == Id(w); }
    }
  }

  /** `fireWrite` has returned and the next look is about to be taken. */
  function AfterWrite(s: System): (s': System)
    requires s.depth > 0
  {
    s.(depth := s.depth - 1, lastWrittenId := Succ(s.lastWrittenId))
  }

  lemma AfterWriteIsReady(s: System)
    requires Inv(s) && s.depth > 0
    ensures ReadyToScan(AfterWrite(s))
  {
    hide Id, Wrap, InStep, BufferHolds, Scan;
    IdAdvances(Done(s));
    WindowMoves(s, AfterWrite(s));
    InStepIgnoresTheBuffer(s, AfterWrite(s));
  }

  lemma ReturnKeepsInv(s: System)
    requires Inv(s) && Possible(s, ReturnFromWrite)
    ensures Inv(Apply(s, ReturnFromWrite))
  {
    hide Inv, Scan, ReadyToScan;
    AfterWriteIsReady(s);
    ScanKeepsInv(AfterWrite(s));
  }

  lemma StepKeepsInv(s: System, e: Event)
    requires Inv(s) && Possible(s, e)
    ensures Inv(Apply(s, e))
  {
    hide Inv;
    match e
    case Call(req) => CallKeepsInv(s, req);
    case ServerRead => ServerReadKeepsInv(s);
    case Complete(j, resp) => CompleteKeepsInv(s, j, resp);
    case ReturnFromWrite => ReturnKeepsInv(s);
    case ClientRead => ClientReadKeepsInv(s);
  }

  lemma {:induction false} RunKeepsInv(s: System, events: seq<Event>)
    requires Inv(s) && IsRun(s, events)
    ensures Inv(After(s, events))
    decreases |events|
  {
    hide Inv, Apply, Possible;
    if events != [] {
      StepKeepsInv(s, events[0]);
      RunKeepsInv(Apply(s, events[0]), events[1..]);
    }
  }

  lemma {:induction false} RunsCompose(s: System, first: seq<Event>, second: seq<Event>)
    requires IsRun(s, first) && IsRun(After(s, first), second)
    ensures IsRun(s, first + second) && After(s, first + second) == After(After(s, first), second)
    decreases |first|
  {
    hide Apply, Possible;
    if first == [] {
      assert first + second == second;
    } else {
      RunsCompose(Apply(s, first[0]), first[1..], second);
      assert (first + second)[1..] == first[1..] + second;
    }
  }

  lemma EmptyRun(s: System)
    ensures IsRun(s, []) && After(s, []) == s
  {
  }

  lemma OneStep(s: System, e: Event)
    requires Possible(s, e)
    ensures IsRun(s, [e]) && After(s, [e]) == Apply(s, e)
  {
    hide Apply, Possible;
    assert [e][1..] == [];
  }

  lemma AppendStep(s: System, events: seq<Event>, e: Event)
    requires IsRun(s, events) && Possible(After(s, events), e)
    ensures IsRun(s, events + [e]) && After(s, events + [e]) == Apply(After(s, events), e)
  {
    hide Apply, Possible, IsRun, After;
    OneStep(After(s, events), e);
    RunsCompose(s, events, [e]);
  }

  /**
   End to end, for every order of completions, re-entrant ones included, and
   across wraparound of the ids: the server read the requests in order; the i-th
   promise settled is the i-th request's, with that request's answer, once; the
   client's deque is never empty when a response comes; and a quiet system whose
   futures have all completed has settled every promise.
   */
  lemma PipelineIsInOrder(events: seq<Event>)
    requires IsRun(START, events)
    ensures var s := After(START, events);
            && s.requests == Made(events) && s.received <= s.requests
            && |s.settled| == Deliveries(events) <= |s.requests|
            && (forall i | 0 <= i < |s.settled| ::
                  s.settled[i].0 == i && i in s.answers && s.settled[i].1 == s.answers[i])
            && (s.toClient != [] ==> s.promises != [])
            && (s.toServer == [] && s.toClient == [] && s.depth == 0 && (forall j: nat | j < |s.received| :: j in s.answers)
                ==> |s.settled| == |s.requests| && s.promises == [])
  {
    assert Inv(START);
    RunKeepsInv(START, events);
    EventsTakeEffect(START, events);
    var s := After(START, events);
    if s.toClient != [] {
      assert |s.promises| == |s.requests| - |s.settled|;
    }
    assert s.received <= s.received + s.toServer;
  }

  // ---------------------------------------------------------------------------
  // What the events have done
  // ---------------------------------------------------------------------------

  /** The requests that were made, in order. */
  function Made(events: seq<Event>): (reqs: seq<Request>) {
    if events == [] then []
    else (if events[0].Call? then [events[0].req] else []) + Made(events[1..])
  }

  function Reads(events: seq<Event>): (n: nat) {
    if events == [] then 0 else (if events[0].ServerRead? then 1 else 0) + Reads(events[1..])
  }

  function Returns(events: seq<Event>): (n: nat) {
    if events == [] then 0 else (if events[0].ReturnFromWrite? then 1 else 0) + Returns(events[1..])
  }

  function Deliveries(events: seq<Event>): (n: nat) {
    if events == [] then 0 else (if events[0].ClientRead? then 1 else 0) + Deliveries(events[1..])
  }

  lemma ScanOnlyWrites(s: System)
    ensures var s' := Scan(s);
            && s'.requests == s.requests && s'.received == s.received && s'.settled == s.settled
            && s'.answers == s.answers && Done(s') == Done(s)
  {
  }

  lemma StepDoes(s: System, e: Event)
    requires Inv(s) && Possible(s, e)
    ensures var s' := Apply(s, e);
            && s'.requests == s.requests + (if e.Call? then [e.req] else [])
            && |s'.received| == |s.received| + (if e.ServerRead? then 1 else 0)
            && Done(s') == Done(s) + (if e.ReturnFromWrite? then 1 else 0)
            && |s'.settled| == |s.settled| + (if e.ClientRead? then 1 else 0)
            && s'.answers == if e.Complete? then s.answers[e.j := e.resp] else s.answers
  {
    hide Inv, Scan;
    match e
    case Complete(j, resp) => ScanOnlyWrites(Buffered(s, j, resp));
    case ReturnFromWrite => ScanOnlyWrites(AfterWrite(s));
    case ClientRead => ClientReadKeepsInv(s);
    case Call(_) =>
    case ServerRead =>
  }

  /**
   Every event takes effect: the requests are those of the calls, in order; as
   many have been read, written and settled as there were reads, returns and
   deliveries; and a future's answer is the response it completed with.
   */
  lemma {:induction false} EventsTakeEffect(s: System, events: seq<Event>)
    requires Inv(s) && IsRun(s, events)
    ensures var s' := After(s, events);
            && s'.requests == s.requests + Made(events)
            && |s'.received| == |s.received| + Reads(events) && Done(s') == Done(s) + Returns(events)
            && |s'.settled| == |s.settled| + Deliveries(events)
            && (forall j | j in s.answers :: j in s'.answers && s'.answers[j] == s.answers[j])
            && (forall i | 0 <= i < |events| && events[i].Complete? ::
                  events[i].j in s'.answers && s'.answers[events[i].j] == events[i].resp)
    decreases |events|
  {
    hide Inv, Apply, Possible, Done;
    if events != [] {
      var t := Apply(s, events[0]);
      StepKeepsInv(s, events[0]);
      StepDoes(s, events[0]);
      CompletesOnce(s, events[0]);
      EventsTakeEffect(t, events[1..]);
      forall i | 0 <= i < |events| && events[i].Complete?
        ensures var s' := After(s, events); events[i].j in s'.answers && s'.answers[events[i].j] == events[i].resp
      {
        if i > 0 { assert events[i] == events[1..][i - 1]; }
      }
    }
  }

  lemma CompletesOnce(s: System, e: Event)
    requires Possible(s, e)
    ensures e.Complete? ==> e.j !in s.answers
  {
  }

  // ---------------------------------------------------------------------------
  // The bound on outstanding responses is exact
  // ---------------------------------------------------------------------------

  /**
   With 2^32 responses outstanding one more read breaks the order: its request
   shares its id with the oldest one, so if it completes next, its answer goes
   out in the other's place.
   */
  lemma ReadIsSafeIff(s: System)
    requires Inv(s) && s.toServer != []
    ensures Possible(s, ServerRead) <==> forall resp :: Inv(DoComplete(Reading(s), |s.received|, resp))
  {
    if Possible(s, ServerRead) {
      ServerReadKeepsInv(s);
      forall resp ensures Inv(DoComplete(Reading(s), |s.received|, resp)) {
        CompleteKeepsInv(Reading(s), |s.received|, resp);
      }
    } else {
      OverrunMisdelivers(s, "");
    }
  }

  lemma OverrunMisdelivers(s: System, resp: Response)
    requires Inv(s) && s.toServer != [] && |s.received| == Done(s) + UINT32
    ensures var s' := DoComplete(Reading(s), |s.received|, resp);
            s'.out == s.out + [resp] && !Inv(s')
            && (s.depth == 0 ==> |s.out| !in s'.answers)
  {
    hide Id, Wrap;
    IdAdvances(Done(s));
  }

  /** Such a state is reached by reading 2^32 requests before any answer. */
  lemma {:induction false} ReadMany(s: System, k: nat) returns (events: seq<Event>)
    requires s.toServer == [] && s.out == [] && s.depth == 0 && |s.received| + k <= UINT32
    ensures IsRun(s, events)
    ensures var s' := After(s, events);
            s'.toServer == [] && s'.out == [] && s'.depth == 0 && |s'.received| == |s.received| + k
    decreases k
  {
    if k == 0 {
      events := [];
    } else {
      var t := Apply(s, Call(""));
      var u := Apply(t, ServerRead);
      var rest := ReadMany(u, k - 1);
      hide Apply;
      events := [Call(""), ServerRead] + rest;
      assert events[1..] == [ServerRead] + rest && ([ServerRead] + rest)[1..] == rest;
      assert IsRun(t, events[1..]) && After(t, events[1..]) == After(u, rest);
    }
  }

  lemma OverrunIsReachable() returns (events: seq<Event>)
    ensures IsRun(START, events)
    ensures var s := After(START, events); Inv(s) && s.toServer == [] && |s.received| == Done(s) + UINT32
  {
    events := ReadMany(START, UINT32);
    RunKeepsInv(START, events);
  }
}
