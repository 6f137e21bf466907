/**
 * The background transport of the client (clients/python/src/smello/transport.py),
 * run sequentially.  The module globals `_queue`, `_server_url` and `_started`
 * become the fields of one Transport object; the queue's internal
 * `unfinished_tasks` counter and the record the worker holds between
 * `_queue.get()` and `_queue.task_done()` are spelled out as fields.  The
 * network is seen only through the log of POST requests the worker made and
 * whether each succeeded; the success or failure of a delivery is an input.
 *
 * The functions on TransportState are the specification of each operation;
 * the methods of class Transport are proved to follow them.
 */
module Transport {
  import opened Wrappers
  import opened Capture

  /** `queue.Queue(maxsize=1000)`. */
  const MAX_QUEUE: nat := 1000
  const CAPTURE_PATH: string := "/api/capture"
  const CONTENT_TYPE: string := "application/json"

  /** One POST request the worker sent to the collector, and whether it went through. */
  datatype Post = Post(
    url: string, httpMethod: string, contentType: string,
    payload: CaptureRecord, delivered: bool)

  datatype TransportState = TransportState(
    queue: seq<CaptureRecord>,       // records waiting, oldest first
    unfinished: nat,                 // `_queue.unfinished_tasks`
    inFlight: Option<CaptureRecord>, // taken by the worker, not yet marked done
    serverUrl: string,               // `_server_url`
    started: bool,                   // `_started`
    workers: nat,                    // worker threads launched so far
    posts: seq<Post>)                // what the worker sent, in order

  function InFlightSeq(s: TransportState): seq<CaptureRecord> {
    if s.inFlight.Some? then [s.inFlight.value] else []
  }

  /**
   * The bookkeeping the queue keeps: bounded, one count per record not yet
   * marked done, one worker at most and only once started.
   */
  predicate Inv(s: TransportState) {
    && |s.queue| <= MAX_QUEUE
    && s.unfinished == |s.queue| + |InFlightSeq(s)|
    && s.workers == (if s.started then 1 else 0)
    && (s.inFlight.Some? ==> s.started)
  }

  /** The state at import time. */
  function Initial(): (s: TransportState)
    ensures Inv(s) && s.unfinished == 0 && !s.started && s.posts == []
  {
    TransportState([], 0, None, "", false, 0, [])
  }

  /** The POST `_send_to_server` makes for one record. */
  function PostFor(serverUrl: string, payload: CaptureRecord, delivered: bool): (p: Post)
    ensures p.url == serverUrl + "/api/capture"
    ensures p.httpMethod == "POST" && p.contentType == "application/json"
    ensures p.payload == payload && p.delivered == delivered
  {
    Post(serverUrl + CAPTURE_PATH, "POST", CONTENT_TYPE, payload, delivered)
  }

  /** `start_worker`: record the URL; launch a worker only the first time. */
  function Start(s: TransportState, serverUrl: string): (r: TransportState)
    requires Inv(s)
    ensures Inv(r) && r.started && r.workers == 1 && r.serverUrl == serverUrl
    ensures s.started ==> r.workers == s.workers
    ensures r.queue == s.queue && r.unfinished == s.unfinished
    ensures r.inFlight == s.inFlight && r.posts == s.posts
  {
    if s.started then s.(serverUrl := serverUrl)
    else s.(serverUrl := serverUrl, started := true, workers := s.workers + 1)
  }

  /** `send`: `put_nowait`, with the record dropped when the queue is full. */
  function Enqueue(s: TransportState, payload: CaptureRecord): (r: TransportState)
    requires Inv(s)
    ensures Inv(r)
    ensures |s.queue| == MAX_QUEUE ==> r == s
    ensures |s.queue| < MAX_QUEUE ==>
              r == s.(queue := s.queue + [payload], unfinished := s.unfinished + 1)
  {
    if |s.queue| < MAX_QUEUE then
      s.(queue := s.queue + [payload], unfinished := s.unfinished + 1)
    else
      s
  }

  /** The worker can take a record: it runs, holds nothing, and the queue is not empty. */
  predicate CanTake(s: TransportState) {
    s.started && s.inFlight.None? && s.queue != []
  }

  /** `_queue.get()` in the worker loop: the oldest record leaves the queue. */
  function Take(s: TransportState): (r: TransportState)
    requires Inv(s) && CanTake(s)
    ensures Inv(r) && r.inFlight == Some(s.queue[0]) && r.queue == s.queue[1..]
    ensures r.unfinished == s.unfinished && r.posts == s.posts
  {
    s.(queue := s.queue[1..], inFlight := Some(s.queue[0]))
  }

  /** `_send_to_server` with the given outcome, then `task_done()` whatever the outcome. */
  function Finish(s: TransportState, delivered: bool): (r: TransportState)
    requires Inv(s) && s.inFlight.Some?
    ensures Inv(r) && r.inFlight.None? && r.queue == s.queue
    ensures r.unfinished == s.unfinished - 1
    ensures r.posts == s.posts + [PostFor(s.serverUrl, s.inFlight.value, delivered)]
  {
    s.(inFlight := None, unfinished := s.unfinished - 1,
       posts := s.posts + [PostFor(s.serverUrl, s.inFlight.value, delivered)])
  }

  /** The worker has something to do: a record in hand, or one to take. */
  predicate CanProgress(s: TransportState) {
    s.inFlight.Some? || CanTake(s)
  }

  /** One turn of the `while True` loop of `_worker`, completing the record in hand first. */
  function Iterate(s: TransportState, delivered: bool): (r: TransportState)
    requires Inv(s) && CanProgress(s)
    ensures Inv(r) && r.inFlight.None? && r.unfinished == s.unfinished - 1
    ensures r.started == s.started && r.workers == s.workers && r.serverUrl == s.serverUrl
  {
    if s.inFlight.Some? then Finish(s, delivered) else Finish(Take(s), delivered)
  }

  /**
   * The worker running while time passes: one loop turn per delivery outcome,
   * until the outcomes run out or the worker blocks on an empty queue
   * (or was never started).
   */
  function Drain(s: TransportState, outcomes: seq<bool>): (r: TransportState)
    requires Inv(s)
    ensures Inv(r) && r.unfinished <= s.unfinished
    ensures r.started == s.started && r.workers == s.workers && r.serverUrl == s.serverUrl
    decreases |outcomes|
  {
    if outcomes == [] || !CanProgress(s) then s
    else Drain(Iterate(s, outcomes[0]), outcomes[1..])
  }

  /** One turn of the worker, then the rest of the outcomes. */
  lemma DrainStep(s: TransportState, outcomes: seq<bool>)
    requires Inv(s) && outcomes != [] && CanProgress(s)
    ensures Drain(s, outcomes) == Drain(Iterate(s, outcomes[0]), outcomes[1..])
  {
  }

  /** What `flush` reports: whether every accepted record has been marked done. */
  predicate Flushed(s: TransportState)
    ensures Inv(s) ==> (Flushed(s) <==> s.queue == [] && s.inFlight.None?)
  {
    s.unfinished == 0
  }

  // ---------------------------------------------------------------------------
  // Properties of the specification

  /** Every record accepted so far, in acceptance order: sent, in hand, or waiting. */
  function Accepted(s: TransportState): seq<CaptureRecord> {
    Payloads(s.posts) + InFlightSeq(s) + s.queue
  }

  function Payloads(posts: seq<Post>): (r: seq<CaptureRecord>)
    ensures |r| == |posts|
    ensures forall i :: 0 <= i < |posts| ==> r[i] == posts[i].payload
  {
    if posts == [] then [] else Payloads(posts[..|posts| - 1]) + [posts[|posts| - 1].payload]
  }

  /**
   * Records are neither lost nor duplicated nor reordered: a send that is
   * accepted appends its record to the accepted sequence, a dropped send and
   * every worker step leave it as it is.
   */
  lemma EnqueueAccepts(s: TransportState, payload: CaptureRecord)
    requires Inv(s)
    ensures Accepted(Enqueue(s, payload)) ==
              if |s.queue| < MAX_QUEUE then Accepted(s) + [payload] else Accepted(s)
  {
  }

  lemma IterateKeepsAccepted(s: TransportState, delivered: bool)
    requires Inv(s) && CanProgress(s)
    ensures Accepted(Iterate(s, delivered)) == Accepted(s)
  {
    if s.inFlight.Some? {
      FinishKeepsAccepted(s, delivered);
    } else {
      TakeKeepsAccepted(s);
      FinishKeepsAccepted(Take(s), delivered);
    }
  }

  /** Taking a record moves it from the front of the queue into the worker's hand. */
  lemma TakeKeepsAccepted(s: TransportState)
    requires Inv(s) && CanTake(s)
    ensures Accepted(Take(s)) == Accepted(s)
  {
    assert s.queue == [s.queue[0]] + s.queue[1..];
  }

  /** Finishing a record moves it from the worker's hand to the end of the POST log. */
  lemma FinishKeepsAccepted(s: TransportState, delivered: bool)
    requires Inv(s) && s.inFlight.Some?
    ensures Accepted(Finish(s, delivered)) == Accepted(s)
  {
    var r := Finish(s, delivered);
    assert Payloads(r.posts) == Payloads(s.posts) + [s.inFlight.value];
  }

  lemma {:induction false} WorkerKeepsAccepted(s: TransportState, outcomes: seq<bool>)
    requires Inv(s)
    ensures Accepted(Drain(s, outcomes)) == Accepted(s)
    decreases |outcomes|
  {
    if outcomes != [] && CanProgress(s) {
      IterateKeepsAccepted(s, outcomes[0]);
      WorkerKeepsAccepted(Iterate(s, outcomes[0]), outcomes[1..]);
    }
  }

  /** The POSTs for records `rs` with the given outcomes, in order. */
  function PostsFor(serverUrl: string, rs: seq<CaptureRecord>, outcomes: seq<bool>): (r: seq<Post>)
    requires |rs| == |outcomes|
    ensures |r| == |rs|
    ensures forall i :: 0 <= i < |rs| ==> r[i] == PostFor(serverUrl, rs[i], outcomes[i])
  {
    if rs == [] then []
    else [PostFor(serverUrl, rs[0], outcomes[0])] + PostsFor(serverUrl, rs[1..], outcomes[1..])
  }

  /**
   * FIFO delivery: a running worker with nothing in hand POSTs the oldest
   * records in queue order, one per outcome, delivered or not, and no record
   * goes back to the queue.
   */
  lemma {:induction false} DrainIsFifo(s: TransportState, outcomes: seq<bool>)
    requires Inv(s) && s.started && s.inFlight.None?
    requires |outcomes| <= |s.queue|
    ensures var r := Drain(s, outcomes);
            && r.posts == s.posts + PostsFor(s.serverUrl, s.queue[..|outcomes|], outcomes)
            && r.queue == s.queue[|outcomes|..]
            && r.unfinished == s.unfinished - |outcomes|
            && r.inFlight.None?
    decreases |outcomes|
  {
    if outcomes != [] {
      var n := |outcomes|;
      var u := Iterate(s, outcomes[0]);
      assert u == Finish(Take(s), outcomes[0]);
      assert Drain(s, outcomes) == Drain(u, outcomes[1..]);
      assert u.queue == s.queue[1..] && u.serverUrl == s.serverUrl;
      assert u.posts == s.posts + [PostFor(s.serverUrl, s.queue[0], outcomes[0])];
      DrainIsFifo(u, outcomes[1..]);
      assert u.queue[..n - 1] == s.queue[1..n];
      assert PostsFor(s.serverUrl, s.queue[..n], outcomes)
          == [PostFor(s.serverUrl, s.queue[0], outcomes[0])]
             + PostsFor(s.serverUrl, s.queue[1..n], outcomes[1..]) by {
        assert s.queue[..n][1..] == s.queue[1..n];
      }
      assert u.queue[n - 1..] == s.queue[n..];
    }
  }

  /**
   * Draining is not delivering: once started, the worker marks every record
   * done after one attempt each, so enough loop turns bring the unfinished
   * count to zero even when every delivery fails.
   */
  lemma {:induction false} DrainCompletes(s: TransportState, outcomes: seq<bool>)
    requires Inv(s) && s.started
    requires |outcomes| >= s.unfinished
    ensures Flushed(Drain(s, outcomes))
    decreases |outcomes|
  {
    if outcomes != [] && CanProgress(s) {
      DrainCompletes(Iterate(s, outcomes[0]), outcomes[1..]);
    }
  }

  /**
   * `shutdown` closes nothing: once it has drained the queue, a later `send`
   * is still queued and the worker, still running, can take it.
   */
  lemma SendAfterShutdownIsQueued(s: TransportState, progress: seq<bool>, payload: CaptureRecord)
    requires Inv(s) && s.started && |progress| >= s.unfinished
    ensures var t := Enqueue(Drain(s, progress), payload);
            t.queue == [payload] && t.unfinished == 1 && CanTake(t)
  {
    DrainCompletes(s, progress);
  }

  /** Without a worker nothing drains: queued records stay unfinished. */
  lemma NoWorkerNoDrain(s: TransportState, outcomes: seq<bool>)
    requires Inv(s) && !s.started
    ensures Drain(s, outcomes) == s
    ensures Flushed(Drain(s, outcomes)) <==> s.queue == []
  {
  }

  /** Starting again changes the URL that later POSTs use, and nothing else. */
  lemma StartIsIdempotent(s: TransportState, url1: string, url2: string)
    requires Inv(s)
    ensures Start(Start(s, url1), url2) == Start(s, url2)
  {
  }

  // ---------------------------------------------------------------------------
  // The transport object

  class Transport {
    var queue: seq<CaptureRecord>
    var unfinished: nat
    var inFlight: Option<CaptureRecord>
    var serverUrl: string
    var started: bool
    var workers: nat
    var posts: seq<Post>

    function Snapshot(): TransportState
      reads this
    {
      TransportState(queue, unfinished, inFlight, serverUrl, started, workers, posts)
    }

    ghost predicate Valid()
      reads this
    {
      Inv(Snapshot())
    }

    constructor ()
      ensures Valid() && Snapshot() == Initial()
    {
      queue, unfinished, inFlight := [], 0, None;
      serverUrl, started, workers := "", false, 0;
      posts := [];
    }

    /** `start_worker(server_url)`. */
    method StartWorker(url: string)
      requires Valid()
      modifies this
      ensures Valid() && Snapshot() == Start(old(Snapshot()), url)
    {
      serverUrl := url;
      if started {
        return;
      }
      started := true;
      workers := workers + 1;
    }

    /** `send(payload)`: never blocks, never fails; drops the record when full. */
    method Send(payload: CaptureRecord)
      requires Valid()
      modifies this
      ensures Valid() && Snapshot() == Enqueue(old(Snapshot()), payload)
    {
      if |queue| < MAX_QUEUE {
        queue := queue + [payload];
        unfinished := unfinished + 1;
      }
    }

    /** `_queue.get()` in the worker: false when the worker would block (or does not exist). */
    method WorkerGet() returns (got: bool)
      requires Valid() && inFlight.None?
      modifies this
      ensures Valid()
      ensures got == CanTake(old(Snapshot()))
      ensures Snapshot() == if got then Take(old(Snapshot())) else old(Snapshot())
    {
      got := started && queue != [];
      if got {
        inFlight := Some(queue[0]);
        queue := queue[1..];
      }
    }

    /** `_send_to_server` with outcome `delivered`, its failure swallowed, then `task_done()`. */
    method WorkerFinish(delivered: bool)
      requires Valid() && inFlight.Some?
      modifies this
      ensures Valid() && Snapshot() == Finish(old(Snapshot()), delivered)
    {
      posts := posts + [PostFor(serverUrl, inFlight.value, delivered)];
      inFlight := None;
      unfinished := unfinished - 1;
    }

    /** The `while True` loop of `_worker`, one turn per outcome until it would block. */
    method RunWorker(outcomes: seq<bool>)
      requires Valid()
      modifies this
      ensures Valid() && Snapshot() == Drain(old(Snapshot()), outcomes)
    {
      var i := 0;
      while i < |outcomes|
        invariant 0 <= i <= |outcomes|
        invariant Valid()
        invariant Drain(Snapshot(), outcomes[i..]) == Drain(old(Snapshot()), outcomes)
        decreases |outcomes| - i
      {
        ghost var before := Snapshot();
        if inFlight.None? {
          var got := WorkerGet();
          if !got {
            assert !CanProgress(before);
            return;
          }
        }
        WorkerFinish(outcomes[i]);
        assert Snapshot() == Iterate(before, outcomes[i]);
        DrainStep(before, outcomes[i..]);
        assert outcomes[i..][1..] == outcomes[i + 1..];
        i := i + 1;
      }
      assert outcomes[i..] == [];
    }

    /**
     * `flush(timeout)`: when something is unfinished, wait while the worker
     * gets through `progress` (the turns it completes before the timeout),
     * then report whether the unfinished count reached zero.
     */
    method Flush(progress: seq<bool>) returns (drained: bool)
      requires Valid()
      modifies this
      ensures Valid()
      ensures old(unfinished) == 0 ==> Snapshot() == old(Snapshot()) && drained
      ensures old(unfinished) > 0 ==> Snapshot() == Drain(old(Snapshot()), progress)
      ensures drained <==> Flushed(Snapshot())
    {
      if unfinished > 0 {
        RunWorker(progress);
      }
      drained := unfinished == 0;
    }

    /**
     * `shutdown(timeout)`: the same wait as `flush`; the worker is left
     * running and `send` keeps accepting records afterwards.
     */
    method Shutdown(progress: seq<bool>) returns (drained: bool)
      requires Valid()
      modifies this
      ensures Valid() && started == old(started) && workers == old(workers)
      ensures old(unfinished) == 0 ==> Snapshot() == old(Snapshot()) && drained
      ensures old(unfinished) > 0 ==> Snapshot() == Drain(old(Snapshot()), progress)
      ensures drained <==> Flushed(Snapshot())
    {
      drained := Flush(progress);
    }
  }
}
