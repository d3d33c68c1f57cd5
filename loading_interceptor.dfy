/**
 * The client's loading interceptor: a module-wide count of requests in
 * progress, and the `loading` class on the document body that is present
 * while the count is positive.
 */
module LoadingInterceptor {

  datatype LoadingEvent = Started | Finalized

  /** Requests started minus requests finalised. */
  function Net(events: seq<LoadingEvent>): int {
    if events == [] then 0
    else Net(events[..|events| - 1]) + (if events[|events| - 1] == Started then 1 else -1)
  }

  /** Starting from `count` open requests, no finalisation comes without an open request. */
  predicate Matched(count: int, events: seq<LoadingEvent>) {
    forall k :: 0 <= k <= |events| ==> count + Net(events[..k]) >= 0
  }

  class LoadingTracker {
    /** `activeRequests`. */
    var activeRequests: int
    /** Whether `document.body` carries the `loading` class. */
    var loading: bool

    ghost predicate Valid()
      reads this
    {
      activeRequests >= 0 && (loading <==> activeRequests > 0)
    }

    constructor ()
      ensures Valid() && activeRequests == 0 && !loading
    {
      activeRequests := 0;
      loading := false;
    }

    /** A request goes out: one more is active, and the class is added when it is the first. */
    method Start()
      requires Valid()
      modifies this
      ensures Valid()
      ensures activeRequests == old(activeRequests) + 1
      ensures loading
      ensures !old(loading) ==> activeRequests == 1
    {
      activeRequests := activeRequests + 1;
      if activeRequests == 1 {
        loading := true;
      }
    }

    /** A request completes, fails or is cancelled: one fewer is active, and the last one removes the class. */
    method Finalize()
      requires Valid() && activeRequests > 0
      modifies this
      ensures Valid()
      ensures activeRequests == old(activeRequests) - 1
      ensures loading <==> activeRequests > 0
    {
      activeRequests := activeRequests - 1;
      if activeRequests == 0 {
        loading := false;
      }
    }

    /** Replays a sequence of starts and finalisations, each finalisation matched to an earlier start. */
    method Replay(events: seq<LoadingEvent>)
      requires Valid() && Matched(activeRequests, events)
      modifies this
      ensures Valid()
      ensures activeRequests == old(activeRequests) + Net(events)
    {
      var i := 0;
      while i < |events|
        invariant 0 <= i <= |events|
        invariant Valid()
        invariant activeRequests == old(activeRequests) + Net(events[..i])
      {
        assert events[..i + 1][..i] == events[..i];
        if events[i] == Started {
          Start();
        } else {
          assert old(activeRequests) + Net(events[..i + 1]) >= 0;
          Finalize();
        }
        i := i + 1;
      }
      assert events[..i] == events;
    }
  }

  /** Net count of a concatenation. */
  lemma {:induction false} NetAppend(a: seq<LoadingEvent>, b: seq<LoadingEvent>)
    ensures Net(a + b) == Net(a) + Net(b)
    decreases |b|
  {
    if b != [] {
      assert (a + b)[..|a + b| - 1] == a + b[..|b| - 1];
      NetAppend(a, b[..|b| - 1]);
    } else {
      assert a + b == a;
    }
  }

  /** One start and its finalisation, around any matched run, leave the count where it was. */
  lemma PairedRequestsCancel(inner: seq<LoadingEvent>)
    requires Net(inner) == 0
    ensures Net([Started] + inner + [Finalized]) == 0
  {
    NetAppend([Started] + inner, [Finalized]);
    NetAppend([Started], inner);
  }

  /** Once every started request has finalised, the count is back to 0 and the class is gone. */
  method AllFinishedClearsLoading(events: seq<LoadingEvent>) returns (count: int, loading: bool)
    requires Matched(0, events) && Net(events) == 0
    ensures count == 0 && !loading
  {
    var t := new LoadingTracker();
    t.Replay(events);
    count := t.activeRequests;
    loading := t.loading;
  }
}
