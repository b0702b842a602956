/**
 * The head's request tracker: a bounded dictionary from the task's sequence
 * number to the client and worker it concerns, with expiry by age. Keys are
 * bare sequence numbers, not scoped by client.
 */
module Requests {
  import opened Wrappers
  import opened DcfCommon

  /** An in-flight request. */
  datatype PendingRequest = PendingRequest(
    clientAddr: Addr,
    workerAddr: Option<Addr>,
    createdAt: real,
    payloadSize: nat)

  /** A request expires once it is strictly older than `timeout`. */
  predicate IsExpired(r: PendingRequest, now: real, timeout: real)
  {
    now - r.createdAt > timeout
  }

  /** The requests that survive an expiry sweep at `now`, untouched. */
  function Unexpired(rs: map<int, PendingRequest>, now: real, timeout: real): (r: map<int, PendingRequest>)
    ensures forall s :: s in r <==> s in rs && !IsExpired(rs[s], now, timeout)
    ensures forall s :: s in r ==> r[s] == rs[s]
  {
    map s | s in rs && !IsExpired(rs[s], now, timeout) :: rs[s]
  }

  /** Requests only age: one expired at `t` is expired at every later time. */
  /**
   * A sweep run between a request's removal and the rest of its handler
   * leaves the same requests as one run after it.
   */
  lemma SweepCommutesWithComplete(rs: map<int, PendingRequest>, sequence: int, now: real, timeout: real)
    ensures Unexpired(rs - {sequence}, now, timeout) == Unexpired(rs, now, timeout) - {sequence}
  {
    var l, r := Unexpired(rs - {sequence}, now, timeout), Unexpired(rs, now, timeout) - {sequence};
    assert forall k :: k in l <==> k in r;
    assert forall k :: k in l ==> l[k] == r[k];
  }

  /**
   * A sweep before a successful `add` of a request that is not yet expired
   * leaves the same requests as one after it.
   */
  lemma SweepCommutesWithAdd(rs: map<int, PendingRequest>, sequence: int, r: PendingRequest, now: real, timeout: real)
    requires !IsExpired(r, now, timeout)
    ensures Unexpired(rs[sequence := r], now, timeout) == Unexpired(rs, now, timeout)[sequence := r]
  {
    var a, b := Unexpired(rs[sequence := r], now, timeout), Unexpired(rs, now, timeout)[sequence := r];
    assert forall k :: k in a <==> k in b;
    assert forall k :: k in a ==> a[k] == b[k];
  }

  lemma ExpiredStaysExpired(r: PendingRequest, t: real, later: real, timeout: real)
    requires IsExpired(r, t, timeout) && t <= later
    ensures IsExpired(r, later, timeout)
  {
  }

  /**
   * A sweep keeps exactly the requests younger than the timeout and its
   * result is already swept: sweeping again at the same time removes nothing.
   */
  lemma SweepIdempotent(rs: map<int, PendingRequest>, now: real, timeout: real)
    ensures Unexpired(Unexpired(rs, now, timeout), now, timeout) == Unexpired(rs, now, timeout)
  {
    var once := Unexpired(rs, now, timeout);
    assert forall s :: s in Unexpired(once, now, timeout) <==> s in once;
  }

  lemma CardDifference<T>(a: set<T>, b: set<T>)
    requires b <= a
    ensures |a - b| == |a| - |b|
  {
    assert a == (a - b) + b;
    assert (a - b) * b == {};
  }

  /** One more deletion in the sweep's loop. */
  lemma DropOne(rs: map<int, PendingRequest>, expired: set<int>, left: set<int>, k: int)
    requires k in left && left <= expired
    ensures (rs - (expired - left)) - {k} == rs - (expired - (left - {k}))
  {
    assert expired - (left - {k}) == (expired - left) + {k};
  }

  /** Deleting every expired key leaves the unexpired requests. */
  lemma SweptIsUnexpired(rs: map<int, PendingRequest>, now: real, timeout: real, expired: set<int>)
    requires expired == set s | s in rs && IsExpired(rs[s], now, timeout)
    ensures rs - expired == Unexpired(rs, now, timeout)
  {
    var u := Unexpired(rs, now, timeout);
    assert forall s :: s in rs - expired <==> s in u;
  }

  /** `RequestTracker`: the dictionary and its capacity. */
  class RequestTracker {
    var requests: map<int, PendingRequest>
    const maxPending: int
    const timeout: real

    /** The tracker never holds more than `maxPending` requests. */
    ghost predicate Valid()
      reads this
    {
      |requests| == 0 || |requests| <= maxPending
    }

    constructor (maxPending: int, timeout: real)
      ensures Valid()
      ensures requests == map[] && this.maxPending == maxPending && this.timeout == timeout
    {
      requests := map[];
      this.maxPending := maxPending;
      this.timeout := timeout;
    }

    /**
     * `add`: refused, changing nothing, when the tracker is full; otherwise
     * records the request under `sequence`, replacing any request already
     * there whoever its client was.
     */
    method Add(sequence: int, clientAddr: Addr, workerAddr: Option<Addr>, payloadSize: nat, now: real)
      returns (added: bool)
      requires Valid()
      modifies this`requests
      ensures Valid()
      ensures added <==> |old(requests)| < maxPending
      ensures requests == if added then old(requests)[sequence := PendingRequest(clientAddr, workerAddr, now, payloadSize)]
                          else old(requests)
    {
      if |requests| >= maxPending {
        return false;
      }
      requests := requests[sequence := PendingRequest(clientAddr, workerAddr, now, payloadSize)];
      added := true;
    }

    /** `complete`: removes the request under `sequence` and returns it, or `None` if there is none. */
    method Complete(sequence: int) returns (request: Option<PendingRequest>)
      requires Valid()
      modifies this`requests
      ensures Valid()
      ensures request == if sequence in old(requests) then Some(old(requests)[sequence]) else None
      ensures requests == old(requests) - {sequence}
    {
      if sequence in requests {
        request := Some(requests[sequence]);
        requests := requests - {sequence};
      } else {
        request := None;
      }
    }

    /** `cleanup_expired`: removes exactly the expired requests and returns how many went. */
    method CleanupExpired(now: real) returns (removed: nat)
      requires Valid()
      modifies this`requests
      ensures Valid()
      ensures requests == Unexpired(old(requests), now, timeout)
      ensures removed == |old(requests)| - |requests|
    {
      var expired := set s | s in requests && IsExpired(requests[s], now, timeout);
      var left := expired;
      while left != {}
        invariant left <= expired
        invariant requests == old(requests) - (expired - left)
        decreases left
      {
        if forall q :: q !in left {
          assert false;
        }
        var sequence :| sequence in left;
        DropOne(old(requests), expired, left, sequence);
        requests := requests - {sequence};
        left := left - {sequence};
      }
      SweptIsUnexpired(old(requests), now, timeout, expired);
      CardDifference(old(requests).Keys, expired);
      removed := |expired|;
    }
  }
}
