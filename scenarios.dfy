/**
 * Short message sequences through a fresh head controller, each showing
 * one routing rule end to end: the normal path, no workers, a full
 * tracker, a busy worker handed a second task, two clients reusing a
 * sequence number, and a result that arrives after its request expired.
 */
module Scenarios {
  import opened Wrappers
  import opened BigEndian
  import opened DcfCommon
  import opened PyInt
  import opened Registry
  import opened Requests
  import opened Head

  const WORKER_HOST: string := "10.0.0.5"
  const WORKER_PORT: nat := 9000
  /** The address the worker announces: its host and the port in its heartbeat. */
  const W: Addr := Addr(WORKER_HOST, WORKER_PORT)
  /** The ephemeral port the worker's heartbeat happens to come from. */
  const W_SRC: Addr := Addr(WORKER_HOST, 50123)
  const C1: Addr := Addr("192.168.1.20", 40001)
  const C2: Addr := Addr("192.168.1.21", 40002)

  const WORKER_TIMEOUT: real := 10.0
  const REQUEST_TIMEOUT: real := 30.0

  /** A controller that has heard one heartbeat from `W` at time 1. */
  method OneWorker(maxPending: int) returns (h: HeadController)
    ensures fresh(h) && fresh(h.registry) && fresh(h.tracker)
    ensures h.Valid()
    ensures h.registry.order == [W] && W in h.registry.workers
    ensures h.registry.workers[W] == NewWorker(W, 1.0)
    ensures h.registry.timeout == WORKER_TIMEOUT && h.registry.rrIndex == 0
    ensures h.tracker.requests == map[] && h.tracker.maxPending == maxPending
    ensures h.tracker.timeout == REQUEST_TIMEOUT
    ensures h.sent == []
  {
    h := new HeadController(WORKER_TIMEOUT, REQUEST_TIMEOUT, maxPending);
    PortText(WORKER_PORT);
    h.HandleHeartbeat(Message(MSG_HEARTBEAT, 0, 0, DecimalText(WORKER_PORT)), W_SRC, 1.0);
  }

  /** `OneWorker`, then one task from `client` at time 2, which goes to `W`. */
  method FirstTask(maxPending: int, sequence: int, payload: seq<Byte>, client: Addr) returns (h: HeadController)
    requires maxPending > 0
    ensures fresh(h) && fresh(h.registry) && fresh(h.tracker)
    ensures h.Valid()
    ensures h.registry.order == [W]
    ensures h.registry.workers == map[W := WorkerInfo(W, 1.0, 0, 0, Some(sequence))]
    ensures h.registry.timeout == WORKER_TIMEOUT && h.registry.rrIndex == 0
    ensures h.tracker.requests == map[sequence := PendingRequest(client, Some(W), 2.0, |payload|)]
    ensures h.tracker.maxPending == maxPending && h.tracker.timeout == REQUEST_TIMEOUT
    ensures h.sent == [Send(WorkerSocket, W, Task(sequence, payload))]
  {
    h := OneWorker(maxPending);
    PickPrefersFirstIdle(h.registry.order, h.registry.workers, 0, 2.0, WORKER_TIMEOUT);
    h.HandleTask(Message(MSG_TASK, sequence, 0, payload), client, 2.0);
  }

  /** `FirstTask`, then a second task from `client` at time 3: `W` is busy but the only choice. */
  method SecondTask(maxPending: int, first: int, sequence: int, payload: seq<Byte>, client: Addr)
    returns (h: HeadController)
    requires maxPending > 0
    ensures fresh(h) && fresh(h.registry) && fresh(h.tracker)
    ensures h.Valid()
    ensures h.registry.order == [W] && h.registry.rrIndex == 0 && h.registry.timeout == WORKER_TIMEOUT
    ensures h.tracker.maxPending == maxPending && h.tracker.timeout == REQUEST_TIMEOUT
    ensures maxPending == 1 ==>
      && h.registry.workers == map[W := WorkerInfo(W, 1.0, 0, 0, Some(first))]
      && h.tracker.requests == map[first := PendingRequest(C1, Some(W), 2.0, 0)]
      && h.sent == [Send(WorkerSocket, W, Task(first, [])),
                    Send(ClientSocket, client, Error(sequence, WorkerBusy, AT_CAPACITY_TEXT))]
    ensures maxPending > 1 ==>
      && h.registry.workers == map[W := WorkerInfo(W, 1.0, 0, 0, Some(sequence))]
      && h.tracker.requests == map[first := PendingRequest(C1, Some(W), 2.0, 0)]
                                  [sequence := PendingRequest(client, Some(W), 3.0, |payload|)]
      && h.sent == [Send(WorkerSocket, W, Task(first, [])), Send(WorkerSocket, W, Task(sequence, payload))]
  {
    h := FirstTask(maxPending, first, [], C1);
    PickMayChooseBusy(h.registry.order, h.registry.workers, 0, 3.0, WORKER_TIMEOUT);
    assert Matching([W], h.registry.workers, Healthy(3.0, WORKER_TIMEOUT)) == [W] by {
      MatchingSnoc([], W, h.registry.workers, Healthy(3.0, WORKER_TIMEOUT));
      assert [] + [W] == [W];
    }
    h.HandleTask(Message(MSG_TASK, sequence, 0, payload), client, 3.0);
  }

  /** A task goes to the only worker; its result comes back to the client and frees the worker. */
  method NormalPath() returns (sent: seq<Send>, completed: nat, busy: bool, pending: nat)
    ensures sent == [Send(WorkerSocket, W, Task(7, [1, 2])), Send(ClientSocket, C1, Result(7, [9]))]
    ensures completed == 1 && !busy && pending == 0
  {
    var h := FirstTask(10, 7, [1, 2], C1);
    h.HandleResult(Message(MSG_RESULT, 7, 0, [9]), W_SRC);
    sent := h.sent;
    completed := h.registry.workers[W].tasksCompleted;
    busy := IsBusy(h.registry.workers[W]);
    pending := |h.tracker.requests|;
  }

  /** With no worker registered the client gets NO_WORKERS and nothing is tracked. */
  method NoWorkersAvailable() returns (sent: seq<Send>, pending: nat)
    ensures sent == [Send(ClientSocket, C1, Error(3, NoWorkers, "No workers available"))]
    ensures pending == 0
  {
    var h := new HeadController(WORKER_TIMEOUT, REQUEST_TIMEOUT, 10);
    h.HandleTask(Message(MSG_TASK, 3, 0, []), C1, 2.0);
    sent := h.sent;
    pending := |h.tracker.requests|;
  }

  /** With the tracker full the client gets WORKER_BUSY and the worker keeps its first task. */
  method AtCapacity() returns (sent: seq<Send>, task: Option<int>)
    ensures sent == [Send(WorkerSocket, W, Task(1, [])), Send(ClientSocket, C2, Error(2, WorkerBusy, "Server at capacity"))]
    ensures task == Some(1)
  {
    var h := SecondTask(1, 1, 2, [], C2);
    sent := h.sent;
    task := h.registry.workers[W].currentTask;
  }

  /**
   * The round-robin fallback hands the busy worker a second task, which
   * overwrites its current task; the first task's result then marks the
   * worker idle although the second is still pending.
   */
  method BusyWorkerSecondTask() returns (sent: seq<Send>, busy: bool, pending: set<int>)
    ensures sent == [Send(WorkerSocket, W, Task(1, [])), Send(WorkerSocket, W, Task(2, [])),
                     Send(ClientSocket, C1, Result(1, [5]))]
    ensures !busy && pending == {2}
  {
    var h := SecondTask(10, 1, 2, [], C2);
    h.HandleResult(Message(MSG_RESULT, 1, 0, [5]), W_SRC);
    sent := h.sent;
    busy := IsBusy(h.registry.workers[W]);
    pending := h.tracker.requests.Keys;
  }

  /**
   * Two clients using the same sequence number: the second request
   * replaces the first, so the single result goes to the second client and
   * the first never hears back.
   */
  method SequenceCollision() returns (sent: seq<Send>, pending: nat)
    ensures sent == [Send(WorkerSocket, W, Task(5, [])), Send(WorkerSocket, W, Task(5, [2])),
                     Send(ClientSocket, C2, Result(5, [8]))]
    ensures pending == 0
  {
    var h := SecondTask(10, 5, 5, [2], C2);
    assert h.tracker.requests == map[5 := PendingRequest(C2, Some(W), 3.0, 1)];
    h.HandleResult(Message(MSG_RESULT, 5, 0, [8]), W_SRC);
    sent := h.sent;
    pending := |h.tracker.requests|;
  }

  /** `FirstTask` for sequence 4, then a fresh heartbeat from `W` at time 39. */
  method KeptAlive() returns (h: HeadController)
    ensures fresh(h) && fresh(h.registry) && fresh(h.tracker)
    ensures h.Valid()
    ensures h.registry.order == [W] && h.registry.timeout == WORKER_TIMEOUT
    ensures h.registry.workers == map[W := WorkerInfo(W, 39.0, 0, 0, Some(4))]
    ensures h.tracker.requests == map[4 := PendingRequest(C1, Some(W), 2.0, 0)]
    ensures h.tracker.timeout == REQUEST_TIMEOUT
    ensures h.sent == [Send(WorkerSocket, W, Task(4, []))]
  {
    h := FirstTask(10, 4, [], C1);
    PortText(WORKER_PORT);
    h.HandleHeartbeat(Message(MSG_HEARTBEAT, 0, 0, DecimalText(WORKER_PORT)), W_SRC, 39.0);
  }

  /** `KeptAlive`, then a maintenance pass at time 40: the worker survives, the request expires. */
  method Swept() returns (h: HeadController, expired: nat)
    ensures fresh(h) && fresh(h.registry) && fresh(h.tracker)
    ensures h.Valid()
    ensures h.registry.workers == map[W := WorkerInfo(W, 39.0, 0, 0, Some(4))]
    ensures h.tracker.requests == map[] && expired == 1
    ensures h.sent == [Send(WorkerSocket, W, Task(4, []))]
  {
    h := KeptAlive();
    var pruned;
    pruned, expired := h.Maintain(40.0);
    assert IsExpired(PendingRequest(C1, Some(W), 2.0, 0), 40.0, REQUEST_TIMEOUT);
    assert h.tracker.requests.Keys == {};
  }

  /**
   * A request that expires is dropped without telling its client; the late
   * result is then ignored, and the worker stays marked busy.
   */
  method ExpiredRequestDropsResult() returns (sent: seq<Send>, expired: nat, busy: bool)
    ensures sent == [Send(WorkerSocket, W, Task(4, []))]
    ensures expired == 1 && busy
  {
    var h;
    h, expired := Swept();
    h.HandleResult(Message(MSG_RESULT, 4, 0, [6]), W_SRC);
    sent := h.sent;
    busy := IsBusy(h.registry.workers[W]);
  }
}
