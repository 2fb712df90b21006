/**
 The two pipelined dispatchers as objects. The ghost field of the server is the
 state of the module Pipelining it is a part of, and every call is proved to be
 a run of that protocol, whatever completes inside its writes.
 */
module DispatchersObject {
  import opened Pipelining

  /** Which futures complete, and how, inside the `fireWrite` of the k-th response. */
  type Inside = nat -> seq<(nat, Response)>

  class PipelinedServerDispatcher {
    var requests: nat            // requests read so far
    var requestId: nat
    var responses: map<nat, Response>
    var lastWrittenId: nat
    var written: seq<Response>
    var futures: map<nat, nat>   // requests whose future is pending, with the id its continuation captured
    ghost var system: System

    /** The fields show the system. */
    ghost predicate Tied()
      reads this
    {
      && requests == |system.received| && requestId == system.requestId && responses == system.responses
      && lastWrittenId == system.lastWrittenId && written == system.out
      && (forall j: nat :: j in futures <==> j < requests && j !in system.answers)
      && (forall j | j in futures :: futures[j] == Id(j))
    }

    ghost predicate Valid()
      reads this
    {
      Tied() && Inv(system)
    }

    constructor ()
      ensures Valid() && system == START
    {
      requests, requestId, responses, lastWrittenId, written, futures := 0, 1, map[], 0, [], map[];
      system := START;
    }

    /** `read`: the continuation of the service's future captures the current id. */
    method Read()
      requires Valid() && Possible(system, ServerRead)
      modifies `requests, `requestId, `futures, `system
      ensures Valid() && system == Apply(old(system), ServerRead)
    {
      hide InStep, BufferHolds, Ordered, Wrap;
      ServerReadKeepsInv(system);
      futures := futures[requests := requestId];
      requests := requests + 1;
      requestId := Succ(requestId);
      system := Apply(system, ServerRead);
    }

    /** The continuation of request j: it stores its response and sends what can be sent. */
    method OnResponse(j: nat, resp: Response, inside: Inside) returns (ghost events: seq<Event>)
      requires Valid() && j in futures
      modifies `responses, `lastWrittenId, `written, `futures, `system
      ensures Valid() && IsRun(old(system), events) && system == After(old(system), events)
      ensures system.depth == old(system.depth) && requests == old(requests) && |written| >= |old(written)|
      ensures old(system.depth) > 0 ==> written == old(written)
      decreases 1 - system.depth, 1
    {
      hide Inv, Scan, IsRun, After, ReadyToScan, Id;
      BufferedIsReady(system, j, resp);
      ghost var before := system;
      responses := responses[futures[j] := resp];
      futures := futures - {j};
      system := Buffered(system, j, resp);
      OneStep(before, Complete(j, resp));
      ghost var more := SendResponses(inside);
      RunsCompose(before, [Complete(j, resp)], more);
      events := [Complete(j, resp)] + more;
    }

    /**
     `sendResponses`: it writes every consecutive response, those that complete
     inside its own writes included; called from inside a write it finds nothing.
     */
    method SendResponses(inside: Inside) returns (ghost events: seq<Event>)
      requires Tied() && ReadyToScan(system)
      modifies `responses, `lastWrittenId, `written, `futures, `system
      ensures Valid() && IsRun(Scan(old(system)), events) && system == After(Scan(old(system)), events)
      ensures system.depth == old(system.depth) && requests == old(requests) && |written| >= |old(written)|
      ensures old(system.depth) > 0 ==> written == old(written)
      decreases 1 - system.depth, 0
    {
      hide Inv, Scan, IsRun, After, ReadyToScan;
      events := [];
      ghost var start := Scan(system);
      EmptyRun(start);
      while Succ(lastWrittenId) in responses
        invariant Tied() && ReadyToScan(system) && system.depth == old(system.depth) && requests == old(requests)
        invariant |written| >= |old(written)| && (old(system.depth) > 0 ==> written == old(written))
        invariant IsRun(start, events) && After(start, events) == Scan(system)
        decreases requests - |written|
      {
        ScanFinds(system);
        ghost var more := WriteNext(inside);
        RunsCompose(start, events, more);
        events := events + more;
      }
      ScanMisses(system);
    }

    /** One turn of the loop: erase, write, advance. */
    method WriteNext(inside: Inside) returns (ghost events: seq<Event>)
      requires Tied() && ReadyToScan(system) && Succ(lastWrittenId) in responses && system.depth == 0
      modifies `responses, `lastWrittenId, `written, `futures, `system
      ensures Tied() && ReadyToScan(system) && system.depth == 0 && requests == old(requests)
      ensures |written| == |old(written)| + 1
      ensures IsRun(Scan(old(system)), events) && After(Scan(old(system)), events) == Scan(system)
      decreases 0, 3
    {
      hide Inv, Scan, IsRun, After, ReadyToScan;
      ScanFinds(system);
      var next := Succ(lastWrittenId);
      var resp := responses[next];
      responses := responses - {next};
      written := written + [resp];
      system := Scan(system);
      ghost var start := system;
      events := FireWrite(inside, |written| - 1);
      AppendStep(start, events, ReturnFromWrite);
      events := events + [ReturnFromWrite];
      AfterWriteIsReady(system);
      lastWrittenId := Succ(lastWrittenId);
      system := AfterWrite(system);
    }

    /** What happens inside the write of response k: some futures complete. */
    method FireWrite(inside: Inside, k: nat) returns (ghost events: seq<Event>)
      requires Valid() && system.depth == 1
      modifies `responses, `lastWrittenId, `written, `futures, `system
      ensures Valid() && IsRun(old(system), events) && system == After(old(system), events)
      ensures system.depth == 1 && requests == old(requests) && written == old(written)
      decreases 0, 2
    {
      hide Inv, Scan, IsRun, After;
      events := [];
      EmptyRun(system);
      for i := 0 to |inside(k)|
        invariant Valid() && IsRun(old(system), events) && system == After(old(system), events)
        invariant system.depth == 1 && requests == old(requests) && written == old(written)
      {
        var (j, resp) := inside(k)[i];
        if j in futures {
          ghost var more := OnResponse(j, resp, inside);
          RunsCompose(old(system), events, more);
          events := events + more;
        }
      }
    }
  }

  class PipelinedClientDispatcher {
    var issued: nat
    var promises: seq<nat>
    var settled: seq<(nat, Response)>

    /** Promises are settled in the order they were made, each once. */
    ghost predicate Valid()
      reads this
    {
      && |settled| + |promises| == issued
      && (forall i | 0 <= i < |settled| :: settled[i].0 == i)
      && (forall i | 0 <= i < |promises| :: promises[i] == |settled| + i)
    }

    constructor ()
      ensures Valid() && issued == 0
    {
      issued, promises, settled := 0, [], [];
    }

    /** `operator()`: the promise behind the returned future. */
    method Call() returns (p: nat)
      requires Valid()
      modifies `issued, `promises
      ensures Valid() && p == old(issued) && promises == old(promises) + [p]
    {
      p := issued;
      promises := promises + [p];
      issued := issued + 1;
    }

    method Read(resp: Response)
      requires Valid() && promises != []
      modifies `promises, `settled
      ensures Valid() && settled == old(settled) + [(|old(settled)|, resp)]
      ensures [|old(settled)|] + promises == old(promises)
    {
      var p := promises[0];
      promises := promises[1..];
      settled := settled + [(p, resp)];
    }
  }
}
