/**
 * The head's worker registry: a dictionary from worker address to its
 * liveness and load, kept in registration order, with heartbeat-age health,
 * idle-first selection with a round-robin fallback, task bookkeeping and
 * pruning of stale workers.
 */
module Registry {
  import opened Wrappers
  import opened DcfCommon
  import opened ModArith

  /** What the registry knows of one worker; `addr` is also its key. */
  datatype WorkerInfo = WorkerInfo(
    addr: Addr,
    lastHeartbeat: real,
    tasksCompleted: nat,
    tasksFailed: nat,
    currentTask: Option<int>)

  /** A worker seen for the first time at `now`. */
  function NewWorker(addr: Addr, now: real): WorkerInfo
  {
    WorkerInfo(addr, now, 0, 0, None)
  }

  /** A worker is healthy while its last heartbeat is younger than `timeout`. */
  predicate IsHealthy(w: WorkerInfo, now: real, timeout: real)
  {
    now - w.lastHeartbeat < timeout
  }

  /** A worker is busy while it has a current task. */
  predicate IsBusy(w: WorkerInfo)
  {
    w.currentTask.Some?
  }

  /** The tests the registry's list comprehensions apply to workers. */
  datatype Test =
    | Healthy(now: real, timeout: real)
    | Stale(now: real, timeout: real)
    | Idle
    | Busy
    | Both(first: Test, second: Test)

  predicate Passes(w: WorkerInfo, t: Test)
  {
    match t
    case Healthy(now, timeout) => IsHealthy(w, now, timeout)
    case Stale(now, timeout) => !IsHealthy(w, now, timeout)
    case Idle => !IsBusy(w)
    case Busy => IsBusy(w)
    case Both(first, second) => Passes(w, first) && Passes(w, second)
  }

  predicate Registered(s: seq<Addr>, ws: map<Addr, WorkerInfo>)
  {
    forall a :: a in s ==> a in ws
  }

  ghost predicate NoDup<T>(s: seq<T>)
  {
    forall i, j :: 0 <= i < j < |s| ==> s[i] != s[j]
  }

  ghost function Elems<T>(s: seq<T>): set<T>
  {
    set x | x in s
  }

  /** The addresses of `s` whose workers pass `t`, in the order of `s`. */
  function Matching(s: seq<Addr>, ws: map<Addr, WorkerInfo>, t: Test): (r: seq<Addr>)
    requires Registered(s, ws)
    ensures |r| <= |s|
    ensures forall a :: a in r ==> a in s
    decreases |s|
  {
    if s == [] then []
    else
      var a := s[|s| - 1];
      Matching(s[..|s| - 1], ws, t) + (if Passes(ws[a], t) then [a] else [])
  }

  /** `s` with every element of `gone` removed, order kept. */
  function Without(s: seq<Addr>, gone: set<Addr>): seq<Addr>
    decreases |s|
  {
    if s == [] then []
    else
      var a := s[|s| - 1];
      Without(s[..|s| - 1], gone) + (if a in gone then [] else [a])
  }

  lemma MatchingSnoc(s: seq<Addr>, x: Addr, ws: map<Addr, WorkerInfo>, t: Test)
    requires Registered(s + [x], ws)
    ensures Registered(s, ws)
    ensures Matching(s + [x], ws, t) == Matching(s, ws, t) + (if Passes(ws[x], t) then [x] else [])
  {
    assert (s + [x])[..|s|] == s;
    assert forall a :: a in s ==> a in s + [x];
  }

  /** One element further along `s`. */
  lemma MatchingStep(s: seq<Addr>, ws: map<Addr, WorkerInfo>, t: Test, i: nat)
    requires Registered(s, ws) && i < |s|
    ensures Registered(s[..i], ws) && Registered(s[..i + 1], ws)
    ensures Matching(s[..i + 1], ws, t) == Matching(s[..i], ws, t) + (if Passes(ws[s[i]], t) then [s[i]] else [])
  {
    assert forall a :: a in s[..i + 1] ==> a in s;
    assert s[..i + 1] == s[..i] + [s[i]];
    MatchingSnoc(s[..i], s[i], ws, t);
  }

  /** The loop step of a list comprehension over `s`. */
  lemma CollectStep(s: seq<Addr>, ws: map<Addr, WorkerInfo>, t: Test, i: nat, r: seq<Addr>)
    requires Registered(s, ws) && i < |s|
    requires Registered(s[..i], ws) && r == Matching(s[..i], ws, t)
    ensures Registered(s[..i + 1], ws)
    ensures (if Passes(ws[s[i]], t) then r + [s[i]] else r) == Matching(s[..i + 1], ws, t)
  {
    MatchingStep(s, ws, t, i);
  }

  /** The filter keeps exactly the members of `s` that pass `t`. */
  lemma {:induction false} MatchingMembers(s: seq<Addr>, ws: map<Addr, WorkerInfo>, t: Test)
    requires Registered(s, ws)
    ensures forall a :: a in Matching(s, ws, t) <==> a in s && Passes(ws[a], t)
    decreases |s|
  {
    if s != [] {
      var init, x := s[..|s| - 1], s[|s| - 1];
      assert s == init + [x];
      MatchingSnoc(init, x, ws, t);
      MatchingMembers(init, ws, t);
    }
  }

  lemma WithoutSnoc(s: seq<Addr>, x: Addr, gone: set<Addr>)
    ensures Without(s + [x], gone) == Without(s, gone) + (if x in gone then [] else [x])
  {
    assert (s + [x])[..|s|] == s;
  }

  lemma {:induction false} MatchingNoDup(s: seq<Addr>, ws: map<Addr, WorkerInfo>, t: Test)
    requires Registered(s, ws) && NoDup(s)
    ensures NoDup(Matching(s, ws, t))
    decreases |s|
  {
    if s != [] {
      var init, x := s[..|s| - 1], s[|s| - 1];
      assert s == init + [x];
      MatchingSnoc(init, x, ws, t);
      assert NoDup(init);
      MatchingNoDup(init, ws, t);
      assert x !in init;
    }
  }

  /** Filtering twice is filtering once by both tests. */
  lemma {:induction false} MatchingTwice(s: seq<Addr>, ws: map<Addr, WorkerInfo>, t1: Test, t2: Test)
    requires Registered(s, ws)
    ensures Matching(Matching(s, ws, t1), ws, t2) == Matching(s, ws, Both(t1, t2))
    decreases |s|
  {
    if s != [] {
      var init, x := s[..|s| - 1], s[|s| - 1];
      assert s == init + [x];
      MatchingSnoc(init, x, ws, t1);
      MatchingSnoc(init, x, ws, Both(t1, t2));
      MatchingTwice(init, ws, t1, t2);
      var both := Matching(init, ws, Both(t1, t2));
      if Passes(ws[x], t1) {
        MatchingSnoc(Matching(init, ws, t1), x, ws, t2);
      } else {
        assert Matching(s, ws, t1) == Matching(init, ws, t1) + [];
        assert Matching(init, ws, t1) + [] == Matching(init, ws, t1);
        assert !Passes(ws[x], Both(t1, t2));
        assert both + [] == both;
      }
    }
  }

  /** Healthy and stale are complementary: every entry is exactly one of the two. */
  lemma {:induction false} HealthyPlusStale(s: seq<Addr>, ws: map<Addr, WorkerInfo>, now: real, timeout: real)
    requires Registered(s, ws)
    ensures |Matching(s, ws, Healthy(now, timeout))| + |Matching(s, ws, Stale(now, timeout))| == |s|
    decreases |s|
  {
    if s != [] {
      var init, x := s[..|s| - 1], s[|s| - 1];
      assert s == init + [x];
      MatchingSnoc(init, x, ws, Healthy(now, timeout));
      MatchingSnoc(init, x, ws, Stale(now, timeout));
      HealthyPlusStale(init, ws, now, timeout);
    }
  }

  /** The first match is the earliest element of `s` that passes the test; `i` is its position. */
  lemma {:induction false} FirstMatch(s: seq<Addr>, ws: map<Addr, WorkerInfo>, t: Test) returns (i: nat)
    requires Registered(s, ws)
    requires Matching(s, ws, t) != []
    ensures i < |s| && s[i] == Matching(s, ws, t)[0] && Passes(ws[s[i]], t)
    ensures forall j :: 0 <= j < i ==> !Passes(ws[s[j]], t)
    decreases |s|
  {
    var init, x := s[..|s| - 1], s[|s| - 1];
    assert s == init + [x];
    MatchingSnoc(init, x, ws, t);
    if Matching(init, ws, t) != [] {
      i := FirstMatch(init, ws, t);
      assert forall j :: 0 <= j <= i ==> s[j] == init[j];
    } else {
      i := |s| - 1;
      MatchingMembers(init, ws, t);
      forall j | 0 <= j < i
        ensures !Passes(ws[s[j]], t)
      {
        assert s[j] == init[j] && init[j] in init;
      }
    }
  }

  lemma {:induction false} CardOfNoDup<T>(s: seq<T>)
    requires NoDup(s)
    ensures |Elems(s)| == |s|
    decreases |s|
  {
    if s != [] {
      var init, x := s[..|s| - 1], s[|s| - 1];
      assert NoDup(init);
      CardOfNoDup(init);
      assert x !in Elems(init);
      assert Elems(s) == Elems(init) + {x} by {
        assert s == init + [x];
      }
    }
  }

  /** How many registered workers pass `t`. */
  ghost function Count(ws: map<Addr, WorkerInfo>, t: Test): nat
  {
    |set a | a in ws && Passes(ws[a], t)|
  }

  /** Over an order that lists every registered worker once, the filter's length is the count. */
  lemma CountMatching(s: seq<Addr>, ws: map<Addr, WorkerInfo>, t: Test)
    requires forall a :: a in s <==> a in ws
    requires NoDup(s)
    ensures |Matching(s, ws, t)| == Count(ws, t)
  {
    var m := Matching(s, ws, t);
    MatchingMembers(s, ws, t);
    MatchingNoDup(s, ws, t);
    CardOfNoDup(m);
    assert Elems(m) == set a | a in ws && Passes(ws[a], t);
  }

  lemma {:induction false} WithoutMore(s: seq<Addr>, gone: set<Addr>, a: Addr)
    ensures Without(Without(s, gone), {a}) == Without(s, gone + {a})
    decreases |s|
  {
    if s != [] {
      var init, x := s[..|s| - 1], s[|s| - 1];
      assert s == init + [x];
      WithoutSnoc(init, x, gone);
      WithoutSnoc(init, x, gone + {a});
      WithoutMore(init, gone, a);
      var w := Without(init, gone);
      if x !in gone {
        WithoutSnoc(w, x, {a});
      } else {
        assert w + [] == w;
        assert Without(init, gone + {a}) + [] == Without(init, gone + {a});
      }
    }
  }

  lemma {:induction false} WithoutNothing(s: seq<Addr>)
    ensures Without(s, {}) == s
    decreases |s|
  {
    if s != [] {
      var init, x := s[..|s| - 1], s[|s| - 1];
      assert s == init + [x];
      WithoutSnoc(init, x, {});
      WithoutNothing(init);
    }
  }

  lemma ElemsPrefix<T>(s: seq<T>, j: nat)
    requires j < |s|
    ensures Elems(s[..j + 1]) == Elems(s[..j]) + {s[j]}
  {
    assert s[..j + 1] == s[..j] + [s[j]];
  }

  lemma DeleteOne(ws: map<Addr, WorkerInfo>, gone: set<Addr>, a: Addr)
    ensures (ws - gone) - {a} == ws - (gone + {a})
  {
  }

  /** Removing exactly the stale entries leaves exactly the healthy ones, in order. */
  lemma {:induction false} WithoutStale(s: seq<Addr>, ws: map<Addr, WorkerInfo>, now: real, timeout: real, gone: set<Addr>)
    requires Registered(s, ws)
    requires forall a :: a in s ==> (a in gone <==> !IsHealthy(ws[a], now, timeout))
    ensures Without(s, gone) == Matching(s, ws, Healthy(now, timeout))
    decreases |s|
  {
    if s != [] {
      var init, x := s[..|s| - 1], s[|s| - 1];
      assert s == init + [x];
      WithoutSnoc(init, x, gone);
      MatchingSnoc(init, x, ws, Healthy(now, timeout));
      WithoutStale(init, ws, now, timeout, gone);
    }
  }

  /** A registry whose order lists each key once has as many entries as its order. */
  lemma SizeOfRegistry(order: seq<Addr>, ws: map<Addr, WorkerInfo>)
    requires forall a :: a in order <==> a in ws
    requires NoDup(order)
    ensures |ws| == |order|
  {
    CardOfNoDup(order);
    assert ws.Keys == Elems(order);
  }

  /** The worker `get_worker` returns, and the round-robin cursor afterwards. */
  datatype Choice = Choice(worker: Option<Addr>, rrIndex: nat)

  /**
   * Selection: among the healthy workers, in registration order, the first
   * idle one when `preferIdle`; otherwise, or when none is idle, the next one
   * after the cursor, round-robin, whether busy or not.
   */
  function Pick(order: seq<Addr>, ws: map<Addr, WorkerInfo>, rrIndex: nat, preferIdle: bool,
                now: real, timeout: real): (c: Choice)
    requires Registered(order, ws)
    ensures c.worker.None? <==> forall a :: a in order ==> !IsHealthy(ws[a], now, timeout)
    ensures c.worker.Some? ==> c.worker.value in order && IsHealthy(ws[c.worker.value], now, timeout)
    ensures c.worker.None? ==> c.rrIndex == rrIndex
  {
    var healthy := Matching(order, ws, Healthy(now, timeout));
    MatchingMembers(order, ws, Healthy(now, timeout));
    if healthy == [] then Choice(None, rrIndex)
    else
      var idle := Matching(healthy, ws, Idle);
      if preferIdle && idle != [] then Choice(Some(idle[0]), rrIndex)
      else
        var next := (rrIndex + 1) % |healthy|;
        Choice(Some(healthy[next]), next)
  }

  /**
   * Idle preference: when some healthy worker is idle, the pick is the first
   * healthy idle worker in registration order and the cursor does not move.
   */
  lemma PickPrefersFirstIdle(order: seq<Addr>, ws: map<Addr, WorkerInfo>, rrIndex: nat, now: real, timeout: real)
    requires Registered(order, ws)
    requires exists a :: a in order && IsHealthy(ws[a], now, timeout) && !IsBusy(ws[a])
    ensures var c := Pick(order, ws, rrIndex, true, now, timeout);
      && c.rrIndex == rrIndex
      && c.worker.Some?
      && exists i :: 0 <= i < |order| && order[i] == c.worker.value
                     && IsHealthy(ws[order[i]], now, timeout) && !IsBusy(ws[order[i]])
                     && forall j :: 0 <= j < i ==> !(IsHealthy(ws[order[j]], now, timeout) && !IsBusy(ws[order[j]]))
  {
    var t := Both(Healthy(now, timeout), Idle);
    var a :| a in order && IsHealthy(ws[a], now, timeout) && !IsBusy(ws[a]);
    HealthyIdle(ws[a], now, timeout);
    MatchingMembers(order, ws, t);
    var i := FirstMatch(order, ws, t);
    PickIdle(order, ws, rrIndex, now, timeout);
    forall j | 0 <= j < i
      ensures !(IsHealthy(ws[order[j]], now, timeout) && !IsBusy(ws[order[j]]))
    {
      HealthyIdle(ws[order[j]], now, timeout);
    }
    HealthyIdle(ws[order[i]], now, timeout);
  }

  lemma HealthyIdle(w: WorkerInfo, now: real, timeout: real)
    ensures Passes(w, Both(Healthy(now, timeout), Idle)) <==> IsHealthy(w, now, timeout) && !IsBusy(w)
  {
  }

  /** With idle preference on and a healthy idle worker, the pick is the first of them. */
  lemma PickIdle(order: seq<Addr>, ws: map<Addr, WorkerInfo>, rrIndex: nat, now: real, timeout: real)
    requires Registered(order, ws)
    requires Matching(order, ws, Both(Healthy(now, timeout), Idle)) != []
    ensures Pick(order, ws, rrIndex, true, now, timeout)
            == Choice(Some(Matching(order, ws, Both(Healthy(now, timeout), Idle))[0]), rrIndex)
  {
    MatchingTwice(order, ws, Healthy(now, timeout), Idle);
  }

  /**
   * The fallback hands out busy workers: with idle preference on, if every
   * healthy worker is busy the pick is a busy worker.
   */
  lemma PickMayChooseBusy(order: seq<Addr>, ws: map<Addr, WorkerInfo>, rrIndex: nat, now: real, timeout: real)
    requires Registered(order, ws)
    requires exists a :: a in order && IsHealthy(ws[a], now, timeout)
    requires forall a :: a in order && IsHealthy(ws[a], now, timeout) ==> IsBusy(ws[a])
    ensures var c := Pick(order, ws, rrIndex, true, now, timeout);
      c.worker.Some? && IsBusy(ws[c.worker.value])
      && c.rrIndex == (rrIndex + 1) % |Matching(order, ws, Healthy(now, timeout))|
  {
    var healthy := Matching(order, ws, Healthy(now, timeout));
    var idle := Matching(healthy, ws, Idle);
    MatchingMembers(order, ws, Healthy(now, timeout));
    MatchingMembers(healthy, ws, Idle);
    if idle != [] {
      assert idle[0] in idle;
    }
  }

  /** The workers handed out by `k` successive selections on an unchanged registry. */
  function Picks(order: seq<Addr>, ws: map<Addr, WorkerInfo>, rrIndex: nat, preferIdle: bool,
                 now: real, timeout: real, k: nat): (r: seq<Option<Addr>>)
    requires Registered(order, ws)
    ensures |r| == k
    decreases k
  {
    if k == 0 then []
    else
      var c := Pick(order, ws, rrIndex, preferIdle, now, timeout);
      [c.worker] + Picks(order, ws, c.rrIndex, preferIdle, now, timeout, k - 1)
  }

  /** When no healthy worker is idle, the j-th pick is the worker j+1 places after the cursor. */
  lemma {:induction false} PicksRotate(order: seq<Addr>, ws: map<Addr, WorkerInfo>, rrIndex: nat, preferIdle: bool,
                                       now: real, timeout: real, k: nat, j: nat)
    requires Registered(order, ws)
    requires Matching(order, ws, Healthy(now, timeout)) != []
    requires preferIdle ==> forall a :: a in order && IsHealthy(ws[a], now, timeout) ==> IsBusy(ws[a])
    requires j < k
    ensures var healthy := Matching(order, ws, Healthy(now, timeout));
      Picks(order, ws, rrIndex, preferIdle, now, timeout, k)[j] == Some(healthy[(rrIndex + 1 + j) % |healthy|])
    decreases k
  {
    var healthy := Matching(order, ws, Healthy(now, timeout));
    PickAdvances(order, ws, rrIndex, preferIdle, now, timeout);
    var c := Pick(order, ws, rrIndex, preferIdle, now, timeout);
    if j > 0 {
      PicksRotate(order, ws, c.rrIndex, preferIdle, now, timeout, k - 1, j - 1);
      ModStep(rrIndex + 1, j - 1, |healthy|);
    }
  }

  /** One round-robin step: the worker after the cursor is handed out and becomes the cursor. */
  lemma PickAdvances(order: seq<Addr>, ws: map<Addr, WorkerInfo>, rrIndex: nat, preferIdle: bool,
                     now: real, timeout: real)
    requires Registered(order, ws)
    requires Matching(order, ws, Healthy(now, timeout)) != []
    requires preferIdle ==> forall a :: a in order && IsHealthy(ws[a], now, timeout) ==> IsBusy(ws[a])
    ensures var healthy := Matching(order, ws, Healthy(now, timeout));
      var next := (rrIndex + 1) % |healthy|;
      Pick(order, ws, rrIndex, preferIdle, now, timeout) == Choice(Some(healthy[next]), next)
  {
    var healthy := Matching(order, ws, Healthy(now, timeout));
    var idle := Matching(healthy, ws, Idle);
    if preferIdle && idle != [] {
      MatchingMembers(order, ws, Healthy(now, timeout));
      MatchingMembers(healthy, ws, Idle);
      assert idle[0] in idle;
    }
  }

  /**
   * No healthy worker starves under the round-robin fallback: on an
   * unchanged registry where no healthy worker is idle (or idle preference
   * is off), as many successive selections as there are healthy workers
   * hand out every one of them.
   */
  lemma RoundRobinReachesEveryone(order: seq<Addr>, ws: map<Addr, WorkerInfo>, rrIndex: nat, preferIdle: bool,
                                  now: real, timeout: real)
    requires Registered(order, ws)
    requires preferIdle ==> forall a :: a in order && IsHealthy(ws[a], now, timeout) ==> IsBusy(ws[a])
    ensures var n := |Matching(order, ws, Healthy(now, timeout))|;
      forall a :: a in order && IsHealthy(ws[a], now, timeout) ==>
        Some(a) in Picks(order, ws, rrIndex, preferIdle, now, timeout, n)
  {
    var healthy := Matching(order, ws, Healthy(now, timeout));
    var n := |healthy|;
    MatchingMembers(order, ws, Healthy(now, timeout));
    forall a | a in order && IsHealthy(ws[a], now, timeout)
      ensures Some(a) in Picks(order, ws, rrIndex, preferIdle, now, timeout, n)
    {
      assert a in healthy;
      var i :| 0 <= i < n && healthy[i] == a;
      var j := StepsToReach(i, rrIndex, n);
      PicksRotate(order, ws, rrIndex, preferIdle, now, timeout, n, j);
    }
  }

  /** Health by heartbeat age only decays: a worker stale at `t` is stale at every later time. */
  lemma StaleStaysStale(w: WorkerInfo, t: real, later: real, timeout: real)
    requires !IsHealthy(w, t, timeout) && t <= later
    ensures !IsHealthy(w, later, timeout)
  {
  }

  /** The entries after a heartbeat from `addr` at `now`: added if new, otherwise only its heartbeat time changes. */
  function Refreshed(ws: map<Addr, WorkerInfo>, addr: Addr, now: real): (r: map<Addr, WorkerInfo>)
    ensures r.Keys == ws.Keys + {addr}
    ensures r[addr].addr == (if addr in ws then ws[addr].addr else addr)
    ensures r[addr].lastHeartbeat == now
    ensures addr in ws ==> r[addr] == ws[addr].(lastHeartbeat := now)
    ensures addr !in ws ==> r[addr].tasksCompleted == 0 && r[addr].tasksFailed == 0 && !IsBusy(r[addr])
    ensures forall b :: b in ws && b != addr ==> r[b] == ws[b]
  {
    ws[addr := if addr in ws then ws[addr].(lastHeartbeat := now) else NewWorker(addr, now)]
  }

  /** The registration order after a heartbeat: a new address goes last. */
  function Enrolled(order: seq<Addr>, addr: Addr): (r: seq<Addr>)
    ensures addr in r
    ensures forall a :: a in r <==> a in order || a == addr
    ensures addr !in order ==> |r| == |order| + 1 && r[..|order|] == order
    ensures addr in order ==> r == order
  {
    if addr in order then order else order + [addr]
  }

  /** The entries after `assign_task(addr, sequence)`: only that worker's current task changes. */
  function Assigned(ws: map<Addr, WorkerInfo>, addr: Addr, sequence: int): (r: map<Addr, WorkerInfo>)
    ensures r.Keys == ws.Keys
    ensures addr !in ws ==> r == ws
    ensures addr in ws ==> IsBusy(r[addr]) && r[addr].currentTask == Some(sequence)
                           && r[addr] == ws[addr].(currentTask := r[addr].currentTask)
    ensures forall b :: b in ws && b != addr ==> r[b] == ws[b]
  {
    if addr in ws then ws[addr := ws[addr].(currentTask := Some(sequence))] else ws
  }

  /**
   * The entries after `complete_task(addr, success)`: that worker is idle
   * again and exactly one of its two counters goes up.
   */
  function Completed(ws: map<Addr, WorkerInfo>, addr: Addr, success: bool): (r: map<Addr, WorkerInfo>)
    ensures r.Keys == ws.Keys
    ensures addr !in ws ==> r == ws
    ensures addr in ws ==>
      && !IsBusy(r[addr])
      && r[addr].addr == ws[addr].addr
      && r[addr].lastHeartbeat == ws[addr].lastHeartbeat
      && r[addr].tasksCompleted == ws[addr].tasksCompleted + (if success then 1 else 0)
      && r[addr].tasksFailed == ws[addr].tasksFailed + (if success then 0 else 1)
    ensures forall b :: b in ws && b != addr ==> r[b] == ws[b]
  {
    if addr !in ws then ws
    else
      var w := ws[addr];
      if success then ws[addr := w.(currentTask := None, tasksCompleted := w.tasksCompleted + 1)]
      else ws[addr := w.(currentTask := None, tasksFailed := w.tasksFailed + 1)]
  }

  /**
   * The registry's invariant: the order lists every registered address
   * exactly once, and each worker is stored under its own address.
   */
  ghost predicate WellFormed(order: seq<Addr>, ws: map<Addr, WorkerInfo>)
  {
    && (forall a :: a in order <==> a in ws)
    && NoDup(order)
    && (forall a :: a in ws ==> ws[a].addr == a)
  }

  /** The entries a prune at `now` keeps: the healthy workers, untouched. */
  function Pruned(ws: map<Addr, WorkerInfo>, now: real, timeout: real): (r: map<Addr, WorkerInfo>)
    ensures forall a :: a in r <==> a in ws && IsHealthy(ws[a], now, timeout)
    ensures forall a :: a in r ==> r[a] == ws[a]
  {
    map a | a in ws && IsHealthy(ws[a], now, timeout) :: ws[a]
  }

  /**
   * A prune run between `get_worker` and `assign_task` leaves the same
   * workers as one run after `assign_task`: marking a worker busy does not
   * change its health.
   */
  lemma PruneCommutesWithAssign(ws: map<Addr, WorkerInfo>, addr: Addr, sequence: int, now: real, timeout: real)
    ensures Assigned(Pruned(ws, now, timeout), addr, sequence) == Pruned(Assigned(ws, addr, sequence), now, timeout)
  {
    var l, r := Assigned(Pruned(ws, now, timeout), addr, sequence), Pruned(Assigned(ws, addr, sequence), now, timeout);
    assert forall a :: a in l <==> a in r;
    assert forall a :: a in l ==> l[a] == r[a];
  }

  /**
   * Likewise a prune run between a request's removal and `complete_task`:
   * freeing a worker and counting its outcome does not change its health.
   */
  lemma PruneCommutesWithComplete(ws: map<Addr, WorkerInfo>, addr: Addr, success: bool, now: real, timeout: real)
    ensures Completed(Pruned(ws, now, timeout), addr, success) == Pruned(Completed(ws, addr, success), now, timeout)
  {
    var l, r := Completed(Pruned(ws, now, timeout), addr, success), Pruned(Completed(ws, addr, success), now, timeout);
    assert forall a :: a in l <==> a in r;
    assert forall a :: a in l ==> l[a] == r[a];
  }

  /** The workers left once the stale ones are deleted are exactly the healthy ones, untouched. */
  lemma PrunedWorkers(order: seq<Addr>, ws: map<Addr, WorkerInfo>, now: real, timeout: real, stale: seq<Addr>)
    requires WellFormed(order, ws)
    requires stale == Matching(order, ws, Stale(now, timeout))
    ensures ws - Elems(stale) == Pruned(ws, now, timeout)
  {
    var rest := ws - Elems(stale);
    var kept := Pruned(ws, now, timeout);
    MatchingMembers(order, ws, Stale(now, timeout));
    assert forall a :: a in rest <==> a in kept;
    assert forall a :: a in rest ==> rest[a] == kept[a];
  }

  /**
   * Deleting the stale workers one by one, from the dictionary and from its
   * order, leaves the registry well formed, its order the healthy workers in
   * registration order, and one entry fewer per stale worker.
   */
  lemma PrunedState(order: seq<Addr>, ws: map<Addr, WorkerInfo>, now: real, timeout: real, stale: seq<Addr>)
    requires WellFormed(order, ws)
    requires stale == Matching(order, ws, Stale(now, timeout))
    ensures Without(order, Elems(stale)) == Matching(order, ws, Healthy(now, timeout))
    ensures WellFormed(Matching(order, ws, Healthy(now, timeout)), ws - Elems(stale))
    ensures |stale| == |ws| - |ws - Elems(stale)|
  {
    var healthy := Matching(order, ws, Healthy(now, timeout));
    var rest := ws - Elems(stale);
    MatchingMembers(order, ws, Stale(now, timeout));
    MatchingMembers(order, ws, Healthy(now, timeout));
    WithoutStale(order, ws, now, timeout, Elems(stale));
    MatchingNoDup(order, ws, Healthy(now, timeout));
    assert forall a :: a in healthy <==> a in rest;
    SizeOfRegistry(healthy, rest);
    HealthyPlusStale(order, ws, now, timeout);
    SizeOfRegistry(order, ws);
  }

  /** `WorkerRegistry`: the dictionary, its insertion order and the round-robin cursor. */
  class WorkerRegistry {
    var workers: map<Addr, WorkerInfo>
    var order: seq<Addr>
    var rrIndex: nat
    const timeout: real

    ghost predicate Valid()
      reads this
    {
      WellFormed(order, workers)
    }

    constructor (timeout: real)
      ensures Valid()
      ensures workers == map[] && order == [] && rrIndex == 0 && this.timeout == timeout
    {
      workers := map[];
      order := [];
      rrIndex := 0;
      this.timeout := timeout;
    }

    /** A list comprehension over `s`: the addresses whose workers pass `t`. */
    method Collect(s: seq<Addr>, t: Test) returns (r: seq<Addr>)
      requires Registered(s, workers)
      ensures r == Matching(s, workers, t)
    {
      var ws := workers;
      r := [];
      var i := 0;
      while i < |s|
        invariant 0 <= i <= |s|
        invariant Registered(s[..i], ws) && r == Matching(s[..i], ws, t)
      {
        CollectStep(s, ws, t, i, r);
        if Passes(ws[s[i]], t) {
          r := r + [s[i]];
        }
        i := i + 1;
      }
      assert s[..i] == s;
    }

    /** `register`: true iff `addr` was not registered; the worker is present with a fresh heartbeat. */
    method Register(addr: Addr, now: real) returns (isNew: bool)
      requires Valid()
      modifies this`workers, this`order
      ensures Valid()
      ensures isNew <==> addr !in old(workers)
      ensures workers == Refreshed(old(workers), addr, now)
      ensures order == Enrolled(old(order), addr)
    {
      isNew := addr !in workers;
      if isNew {
        workers := workers[addr := NewWorker(addr, now)];
        order := order + [addr];
      } else {
        workers := workers[addr := workers[addr].(lastHeartbeat := now)];
      }
    }

    /** `get_worker`: the selection `Pick` describes, moving the cursor only on the round-robin path. */
    method GetWorker(preferIdle: bool, now: real) returns (worker: Option<Addr>)
      requires Valid()
      modifies this`rrIndex
      ensures Valid()
      ensures Choice(worker, rrIndex) == Pick(order, workers, old(rrIndex), preferIdle, now, timeout)
    {
      var healthy := Collect(order, Healthy(now, timeout));
      if healthy == [] {
        return None;
      }
      if preferIdle {
        var idle := Collect(healthy, Idle);
        if idle != [] {
          return Some(idle[0]);
        }
      }
      rrIndex := (rrIndex + 1) % |healthy|;
      worker := Some(healthy[rrIndex]);
    }

    /** `assign_task`: marks a registered worker busy with `sequence`, overwriting any current task. */
    method AssignTask(addr: Addr, sequence: int)
      requires Valid()
      modifies this`workers
      ensures Valid()
      ensures workers == Assigned(old(workers), addr, sequence)
    {
      if addr in workers {
        workers := workers[addr := workers[addr].(currentTask := Some(sequence))];
      }
    }

    /** `complete_task`: frees a registered worker and counts the outcome. */
    method CompleteTask(addr: Addr, success: bool)
      requires Valid()
      modifies this`workers
      ensures Valid()
      ensures workers == Completed(old(workers), addr, success)
    {
      if addr in workers {
        var w := workers[addr];
        if success {
          workers := workers[addr := w.(currentTask := None, tasksCompleted := w.tasksCompleted + 1)];
        } else {
          workers := workers[addr := w.(currentTask := None, tasksFailed := w.tasksFailed + 1)];
        }
      }
    }

    /** The deletion loop of `prune_stale`: `del` of each address, which also drops it from the order. */
    method DeleteAll(stale: seq<Addr>)
      modifies this`workers, this`order
      ensures workers == old(workers) - Elems(stale)
      ensures order == Without(old(order), Elems(stale))
    {
      ghost var gone: set<Addr> := {};
      WithoutNothing(order);
      assert workers == old(workers) - gone;
      var j := 0;
      while j < |stale|
        invariant 0 <= j <= |stale|
        invariant gone == Elems(stale[..j])
        invariant workers == old(workers) - gone
        invariant order == Without(old(order), gone)
      {
        DeleteOne(old(workers), gone, stale[j]);
        WithoutMore(old(order), gone, stale[j]);
        ElemsPrefix(stale, j);
        workers := workers - {stale[j]};
        order := Without(order, {stale[j]});
        gone := gone + {stale[j]};
        j := j + 1;
      }
      assert stale[..j] == stale;
    }

    /**
     * `prune_stale`: removes exactly the unhealthy workers, keeps the
     * healthy ones untouched and in order, and returns how many went.
     */
    method PruneStale(now: real) returns (removed: nat)
      requires Valid()
      modifies this`workers, this`order
      ensures Valid()
      ensures workers == Pruned(old(workers), now, timeout)
      ensures order == Matching(old(order), old(workers), Healthy(now, timeout))
      ensures removed == |old(workers)| - |workers|
    {
      var stale := Collect(order, Stale(now, timeout));
      ghost var workers0, order0 := workers, order;
      DeleteAll(stale);
      PrunedState(order0, workers0, now, timeout, stale);
      PrunedWorkers(order0, workers0, now, timeout, stale);
      removed := |stale|;
    }

    /** `get_stats`, counts only: all workers, the healthy ones, and the healthy ones that are busy. */
    method GetStats(now: real) returns (total: nat, healthy: nat, busy: nat)
      requires Valid()
      ensures total == |workers|
      ensures healthy == Count(workers, Healthy(now, timeout))
      ensures busy == Count(workers, Both(Healthy(now, timeout), Busy))
      ensures busy <= healthy <= total
    {
      var healthyList := Collect(order, Healthy(now, timeout));
      var busyList := Collect(healthyList, Busy);
      total, healthy, busy := |workers|, |healthyList|, |busyList|;
      SizeOfRegistry(order, workers);
      CountMatching(order, workers, Healthy(now, timeout));
      MatchingTwice(order, workers, Healthy(now, timeout), Busy);
      CountMatching(order, workers, Both(Healthy(now, timeout), Busy));
    }
  }
}
