/**
 * The head controller's message handlers: heartbeats register workers,
 * tasks are routed to a worker and tracked, and results and worker errors
 * are matched back to the pending request and forwarded to its client.
 * Sends are appended to an outbox instead of going out on a socket.
 */
module Head {
  import opened Wrappers
  import opened BigEndian
  import opened DcfCommon
  import opened PyInt
  import opened Registry
  import opened Requests

  /** The error codes the head itself sends to clients. */
  datatype ErrorCode = NoWorkers | WorkerBusy

  /**
   * What the head sends. `Task`, `Result` and `Error` stand for the
   * messages `DCFMessage.task`, `DCFMessage.result` and `DCFMessage.error`
   * build; `Relay` is a worker's own message passed on unchanged.
   */
  datatype Outgoing =
    | Task(sequence: int, payload: seq<Byte>)
    | Result(sequence: int, payload: seq<Byte>)
    | Error(sequence: int, code: ErrorCode, text: string)
    | Relay(msg: Message)

  /** The client-facing socket and the worker bus. */
  datatype Socket = ClientSocket | WorkerSocket

  /** One datagram handed to a socket, with its destination. */
  datatype Send = Send(via: Socket, to: Addr, out: Outgoing)

  const NO_WORKERS_TEXT: string := "No workers available"
  const AT_CAPACITY_TEXT: string := "Server at capacity"

  /** The worker address a heartbeat announces: the sender's host and the port in its payload. */
  function HeartbeatAddr(msg: Message, src: Addr): (r: Option<Addr>)
    ensures r.Some? <==> ParseInt(msg.payload).Some?
    ensures r.Some? ==> r.value.host == src.host && r.value.port == ParseInt(msg.payload).value
  {
    match ParseInt(msg.payload)
    case None => None
    case Some(port) => Some(Addr(src.host, port))
  }

  /** `HeadController`: the registry, the tracker, and what has been sent so far. */
  class HeadController {
    const registry: WorkerRegistry
    const tracker: RequestTracker
    var sent: seq<Send>

    ghost predicate Valid()
      reads this, registry, tracker
    {
      registry.Valid() && tracker.Valid()
    }

    constructor (workerTimeout: real, requestTimeout: real, maxPending: int)
      ensures Valid()
      ensures fresh(registry) && fresh(tracker)
      ensures registry.workers == map[] && registry.order == [] && registry.rrIndex == 0
      ensures registry.timeout == workerTimeout
      ensures tracker.requests == map[] && tracker.maxPending == maxPending && tracker.timeout == requestTimeout
      ensures sent == []
    {
      registry := new WorkerRegistry(workerTimeout);
      tracker := new RequestTracker(maxPending, requestTimeout);
      sent := [];
    }

    /**
     * `_handle_heartbeat`: a payload that parses as an integer registers
     * (or refreshes) the worker at the sender's host and that port; any
     * other payload is ignored.
     */
    method HandleHeartbeat(msg: Message, src: Addr, now: real)
      requires Valid()
      modifies registry`workers, registry`order
      ensures Valid()
      ensures HeartbeatAddr(msg, src).None? ==>
        registry.workers == old(registry.workers) && registry.order == old(registry.order)
      ensures HeartbeatAddr(msg, src).Some? ==>
        var a := HeartbeatAddr(msg, src).value;
        registry.workers == Refreshed(old(registry.workers), a, now)
        && registry.order == Enrolled(old(registry.order), a)
    {
      match HeartbeatAddr(msg, src)
      case None =>
      case Some(a) =>
        var _ := registry.Register(a, now);
    }

    /**
     * `_handle_task`: picks a worker preferring idle ones. With none
     * healthy the client gets a NO_WORKERS error; with the tracker full it
     * gets WORKER_BUSY and no worker is marked; otherwise the request is
     * tracked, the worker marked busy with the sequence, and the task
     * forwarded to it.
     */
    method HandleTask(msg: Message, client: Addr, now: real)
      requires Valid()
      modifies registry`rrIndex, registry`workers, tracker`requests, this`sent
      ensures Valid()
      ensures registry.order == old(registry.order)
      ensures var c := Pick(old(registry.order), old(registry.workers), old(registry.rrIndex), true, now, registry.timeout);
        && registry.rrIndex == c.rrIndex
        && (c.worker.None? ==>
              && sent == old(sent) + [Send(ClientSocket, client, Error(msg.sequence, NoWorkers, NO_WORKERS_TEXT))]
              && tracker.requests == old(tracker.requests)
              && registry.workers == old(registry.workers))
        && (c.worker.Some? && |old(tracker.requests)| >= tracker.maxPending ==>
              && sent == old(sent) + [Send(ClientSocket, client, Error(msg.sequence, WorkerBusy, AT_CAPACITY_TEXT))]
              && tracker.requests == old(tracker.requests)
              && registry.workers == old(registry.workers))
        && (c.worker.Some? && |old(tracker.requests)| < tracker.maxPending ==>
              var w := c.worker.value;
              && sent == old(sent) + [Send(WorkerSocket, w, Task(msg.sequence, msg.payload))]
              && tracker.requests == old(tracker.requests)[msg.sequence := PendingRequest(client, Some(w), now, |msg.payload|)]
              && registry.workers == Assigned(old(registry.workers), w, msg.sequence))
    {
      var worker := registry.GetWorker(true, now);
      if worker.None? {
        sent := sent + [Send(ClientSocket, client, Error(msg.sequence, NoWorkers, NO_WORKERS_TEXT))];
        return;
      }
      var w := worker.value;
      var added := tracker.Add(msg.sequence, client, Some(w), |msg.payload|, now);
      if !added {
        sent := sent + [Send(ClientSocket, client, Error(msg.sequence, WorkerBusy, AT_CAPACITY_TEXT))];
        return;
      }
      registry.AssignTask(w, msg.sequence);
      sent := sent + [Send(WorkerSocket, w, Task(msg.sequence, msg.payload))];
    }

    /**
     * `_handle_result`: the pending request under the result's sequence is
     * removed; its worker is freed and credited, and the payload goes to
     * its client. A result with no pending request is dropped. The sender
     * is not checked against the worker the task went to.
     */
    method HandleResult(msg: Message, src: Addr)
      requires Valid()
      modifies registry`workers, tracker`requests, this`sent
      ensures Valid()
      ensures tracker.requests == old(tracker.requests) - {msg.sequence}
      ensures msg.sequence !in old(tracker.requests) ==>
        registry.workers == old(registry.workers) && sent == old(sent)
      ensures msg.sequence in old(tracker.requests) ==>
        var r := old(tracker.requests)[msg.sequence];
        && registry.workers == (if r.workerAddr.Some? then Completed(old(registry.workers), r.workerAddr.value, true)
                                else old(registry.workers))
        && sent == old(sent) + [Send(ClientSocket, r.clientAddr, Result(msg.sequence, msg.payload))]
    {
      var request := tracker.Complete(msg.sequence);
      if request.None? {
        return;
      }
      var r := request.value;
      if r.workerAddr.Some? {
        registry.CompleteTask(r.workerAddr.value, true);
      }
      sent := sent + [Send(ClientSocket, r.clientAddr, Result(msg.sequence, msg.payload))];
    }

    /**
     * `_handle_worker_error`: like a result, but the worker's failure count
     * goes up and the worker's own ERROR message is relayed to the client.
     */
    method HandleWorkerError(msg: Message, src: Addr)
      requires Valid()
      modifies registry`workers, tracker`requests, this`sent
      ensures Valid()
      ensures tracker.requests == old(tracker.requests) - {msg.sequence}
      ensures msg.sequence !in old(tracker.requests) ==>
        registry.workers == old(registry.workers) && sent == old(sent)
      ensures msg.sequence in old(tracker.requests) ==>
        var r := old(tracker.requests)[msg.sequence];
        && registry.workers == (if r.workerAddr.Some? then Completed(old(registry.workers), r.workerAddr.value, false)
                                else old(registry.workers))
        && sent == old(sent) + [Send(ClientSocket, r.clientAddr, Relay(msg))]
    {
      var request := tracker.Complete(msg.sequence);
      if request.None? {
        return;
      }
      var r := request.value;
      if r.workerAddr.Some? {
        registry.CompleteTask(r.workerAddr.value, false);
      }
      sent := sent + [Send(ClientSocket, r.clientAddr, Relay(msg))];
    }

    /**
     * One pass of the maintenance loop: prune stale workers, then drop
     * expired requests. Nobody is told about a dropped request, and a
     * pruned worker's request stays pending until it expires.
     */
    method Maintain(now: real) returns (prunedWorkers: nat, expiredRequests: nat)
      requires Valid()
      modifies registry`workers, registry`order, tracker`requests
      ensures Valid()
      ensures registry.workers == Pruned(old(registry.workers), now, registry.timeout)
      ensures registry.order == Matching(old(registry.order), old(registry.workers), Healthy(now, registry.timeout))
      ensures tracker.requests == Unexpired(old(tracker.requests), now, tracker.timeout)
      ensures prunedWorkers == |old(registry.workers)| - |registry.workers|
      ensures expiredRequests == |old(tracker.requests)| - |tracker.requests|
    {
      prunedWorkers := registry.PruneStale(now);
      expiredRequests := tracker.CleanupExpired(now);
    }
  }
}
