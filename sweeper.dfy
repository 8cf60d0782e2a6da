/**
 * The PortSweeper object: the shared address queue, the scan thread's pending
 * HANDLE_SCAN messages, the callback handler's pending messages and the
 * fields that handler updates. The threads are replaced by explicit steps:
 * RunNextScan runs the scan thread's next message, DeliverNext the callback
 * handler's, and the workers of a scan poll the queue one after another.
 */
module Sweeper {
  import opened JavaInts
  import opened Wrappers
  import opened AddressSequencer
  import opened Observer

  /** What a worker's probe of one address reports (Worker.Callback.onReachable / onUnreachable). */
  datatype ProbeResult = Reached(hostname: string, responseCode: int32) | Failed

  /** The callback-handler message a worker sends for one probe result (lines 186-198). */
  function ResultEvent(p: ProbeResult): (e: Event)
    ensures IsResult(e)
    ensures e.Reachable? <==> p.Reached?
    ensures e.Reachable? ==> e.hostname == p.hostname && e.responseCode == p.responseCode
  {
    match p
    case Reached(h, c) => Reachable(h, c)
    case Failed => Unreachable
  }

  /** The messages the workers send for the addresses `addrs`, probed in order. */
  function ProbeEvents(addrs: seq<Address>, probe: Address -> ProbeResult): (es: seq<Event>)
    ensures |es| == |addrs|
    ensures forall i :: 0 <= i < |es| ==> es[i] == ResultEvent(probe(addrs[i]))
  {
    seq(|addrs|, i requires 0 <= i < |addrs| => ResultEvent(probe(addrs[i])))
  }

  /** Probing one more address sends one more message, at the end. */
  lemma ProbeEventsSnoc(addrs: seq<Address>, a: Address, probe: Address -> ProbeResult)
    ensures ProbeEvents(addrs + [a], probe) == ProbeEvents(addrs, probe) + [ResultEvent(probe(a))]
  {
    assert forall i :: 0 <= i < |addrs| ==> (addrs + [a])[i] == addrs[i];
  }

  /**
   * The onHostFound call each reachable address should cause, in probe order:
   * an account of the hosts found written over the probe results directly.
   */
  function ReachedHosts(addrs: seq<Address>, probe: Address -> ProbeResult): seq<Notice>
  {
    if addrs == [] then []
    else
      (match probe(addrs[0])
       case Reached(h, c) => [HostFound(h, c)]
       case Failed => []) + ReachedHosts(addrs[1..], probe)
  }

  /** The REACHABLE messages the workers send ask for exactly the hosts their probes reached. */
  lemma {:induction false} ProbeEventsHosts(addrs: seq<Address>, probe: Address -> ProbeResult)
    ensures HostsIn(ProbeEvents(addrs, probe)) == ReachedHosts(addrs, probe)
  {
    if addrs != [] {
      var es := ProbeEvents(addrs, probe);
      assert es[1..] == ProbeEvents(addrs[1..], probe);
      ProbeEventsHosts(addrs[1..], probe);
    }
  }

  /**
   * The messages handleScan sends for `origin` when `queued` is already in the
   * address queue: START with the scan list's length, one result per address
   * the workers take (none without workers), then COMPLETE.
   */
  function ScanMessages(origin: Address, queued: seq<Address>, workers: nat, probe: Address -> ProbeResult): (r: seq<Event>)
    requires |origin| > 0
    ensures |r| == 2 + (if workers > 0 then |queued| + |ScanList(origin)| else 0)
    ensures r[0] == Start(0, |ScanList(origin)|) && r[|r| - 1] == Complete
    ensures forall i :: 0 < i < |r| - 1 ==> IsResult(r[i])
  {
    [Start(0, |ScanList(origin)|)] +
    (if workers > 0 then ProbeEvents(queued + ScanList(origin), probe) else []) +
    [Complete]
  }

  /**
   * Whatever the observer's state before, the messages of one scan started on
   * an empty queue leave it complete with progress = max = the START count,
   * call onHostFound once per reachable address in scan order (none without
   * workers), and call onProgress once per message, last with (count, count).
   */
  lemma ScanMessagesObserved(s: State, origin: Address, workers: nat, probe: Address -> ProbeResult)
    requires |origin| > 0
    ensures var o := Run(s, ScanMessages(origin, [], workers, probe));
            var n := |ScanList(origin)|;
            o.state == State(n, n, true) &&
            HostsOf(o.notices) == (if workers > 0 then ReachedHosts(ScanList(origin), probe) else []) &&
            ProgressCount(o.notices) == (if workers > 0 then n else 0) + 2 &&
            o.notices != [] && o.notices[|o.notices| - 1] == Progress(n, n)
  {
    var list := ScanList(origin);
    var n := |list|;
    assert [] + list == list;
    var results := if workers > 0 then ProbeEvents(list, probe) else [];
    var msgs := ScanMessages(origin, [], workers, probe);
    assert msgs == [Start(0, n)] + results + [Complete];
    ScanObserved(s, n, results);
    if workers > 0 {
      ProbeEventsHosts(list, probe);
    } else {
      assert HostsIn(results) == [];
    }
  }

  class PortSweeper {
    /** mWorkerCount. */
    const workerCount: nat
    /** mAddressQueue, head first. */
    var addressQueue: seq<Address>
    /** The HANDLE_SCAN messages waiting in mScanHandler, oldest first. */
    var pendingScans: seq<Address>
    /** The scan thread's looper has quit (destory). */
    var destroyed: bool
    /** The messages waiting in mCallbackHandler, oldest first. */
    var channel: seq<Event>
    /** mProgress, mMax and mComplete. */
    var progress: int32
    var max: int32
    var complete: bool
    /** The calls made so far on mCallback, in order. */
    var notices: seq<Notice>

    /** Once the scan looper has quit, it holds no scans. */
    ghost predicate Valid()
      reads this
    {
      destroyed ==> pendingScans == []
    }

    /** The three fields of the callback handler, as one value. */
    function ObserverState(): State
      reads this
    {
      State(progress, max, complete)
    }

    constructor (threadCount: nat)
      ensures Valid()
      ensures workerCount == threadCount
      ensures addressQueue == [] && pendingScans == [] && channel == [] && notices == []
      ensures !destroyed && ObserverState() == Initial
    {
      workerCount := threadCount;
      addressQueue, pendingScans, channel, notices := [], [], [], [];
      destroyed := false;
      progress, max, complete := 0, 0, false;
    }

    /** Drop the pending scans and the queued addresses; a second abort changes nothing. */
    method Abort()
      requires Valid()
      modifies this
      ensures Valid()
      ensures addressQueue == [] && pendingScans == []
      ensures destroyed == old(destroyed) && channel == old(channel)
      ensures ObserverState() == old(ObserverState()) && notices == old(notices)
      ensures old(addressQueue) == [] && old(pendingScans) == [] ==> unchanged(this)
    {
      pendingScans := [];
      addressQueue := [];
    }

    /** Abort, then schedule one scan of `ipAddress`; a quit looper drops it. */
    method Sweep(ipAddress: Address)
      requires Valid()
      modifies this
      ensures Valid()
      ensures addressQueue == []
      ensures pendingScans == if destroyed then [] else [ipAddress]
      ensures destroyed == old(destroyed) && channel == old(channel)
      ensures ObserverState() == old(ObserverState()) && notices == old(notices)
    {
      Abort();
      if !destroyed {
        pendingScans := pendingScans + [ipAddress];
      }
    }

    /** Abort and stop the scan thread for good. */
    method Destroy()
      requires Valid()
      modifies this
      ensures Valid()
      ensures addressQueue == [] && pendingScans == [] && destroyed
      ensures channel == old(channel)
      ensures ObserverState() == old(ObserverState()) && notices == old(notices)
    {
      Abort();
      destroyed := true;
    }

    /** pollIpAddress: remove and return the head of the queue, or None when it is empty. */
    method Poll() returns (a: Option<Address>)
      modifies this`addressQueue
      ensures old(addressQueue) == [] ==> a == None && addressQueue == []
      ensures old(addressQueue) != [] ==> a == Some(old(addressQueue)[0]) && addressQueue == old(addressQueue)[1..]
    {
      if addressQueue == [] {
        a := None;
      } else {
        a := Some(addressQueue[0]);
        addressQueue := addressQueue[1..];
      }
    }

    /** The loops of handleScan: append the scan list of `origin` to the queue and count it. */
    method EnqueueScanList(origin: Address) returns (count: int)
      requires |origin| > 0
      modifies this`addressQueue
      ensures addressQueue == old(addressQueue) + ScanList(origin)
      ensures count == |ScanList(origin)|
    {
      count := 0;
      var last := origin[|origin| - 1];
      ghost var emitted: seq<byte> := [];
      var delta := 1;
      while delta < 128
        invariant 1 <= delta <= 128
        invariant emitted == LastBytesBelow(last, delta)
        invariant addressQueue == old(addressQueue) + Retarget(origin, emitted)
        invariant count == |emitted|
      {
        var sign := -1;
        while sign <= 1
          invariant sign == -1 || sign == 1 || sign == 3
          invariant emitted == LastBytesBelow(last, delta) + PairUpTo(last, delta, sign)
          invariant addressQueue == old(addressQueue) + Retarget(origin, emitted)
          invariant count == |emitted|
        {
          // (256 + start + sign * delta) % 256, with start the signed last byte
          var b := SourceCandidate(last, delta, sign);
          SourceCandidateIsCandidate(last, delta, sign);
          if b != 0 {
            var ipAddress := origin[..|origin| - 1] + [b];
            addressQueue := addressQueue + [ipAddress];
            count := count + 1;
            RetargetSnoc(origin, emitted, b);
            emitted := emitted + [b];
          }
          sign := sign + 2;
        }
        assert LastBytesBelow(last, delta + 1) == LastBytesBelow(last, delta) + Pair(last, delta);
        delta := delta + 1;
      }
      assert emitted == LastBytes(last);
    }

    /**
     * One iteration of a worker: poll an address and, if there was one, send
     * the message for its probe result. Each queued address is handed out once.
     */
    method WorkerStep(probe: Address -> ProbeResult) returns (polled: bool)
      modifies this`addressQueue, this`channel
      ensures polled <==> old(addressQueue) != []
      ensures !polled ==> addressQueue == [] && channel == old(channel)
      ensures polled ==>
                addressQueue == old(addressQueue)[1..] &&
                channel == old(channel) + [ResultEvent(probe(old(addressQueue)[0]))]
    {
      var next := Poll();
      polled := next.Some?;
      if polled {
        channel := channel + [ResultEvent(probe(next.value))];
      }
    }

    /** The workers of one scan, one after another: poll and probe until the queue is empty. */
    method DrainQueue(probe: Address -> ProbeResult)
      modifies this`addressQueue, this`channel
      ensures addressQueue == []
      ensures channel == old(channel) + ProbeEvents(old(addressQueue), probe)
    {
      ghost var done: seq<Address> := [];
      ghost var rest := addressQueue;
      var more := WorkerStep(probe);
      while more
        invariant more ==> rest != [] && addressQueue == rest[1..] && old(addressQueue) == done + [rest[0]] + addressQueue
        invariant !more ==> old(addressQueue) == done && addressQueue == []
        invariant channel == old(channel) + ProbeEvents(done + (if more then [rest[0]] else []), probe)
        decreases |addressQueue| + (if more then 1 else 0)
      {
        done := done + [rest[0]];
        rest := addressQueue;
        more := WorkerStep(probe);
      }
    }

    /** The first half of handleScan: queue the scan list and send START(0, count). */
    method BeginScan(interfaceAddress: Address) returns (crashed: bool)
      modifies this`addressQueue, this`channel
      ensures crashed <==> |interfaceAddress| == 0
      ensures crashed ==> addressQueue == old(addressQueue) && channel == old(channel)
      ensures !crashed ==>
                addressQueue == old(addressQueue) + ScanList(interfaceAddress) &&
                channel == old(channel) + [Start(0, |ScanList(interfaceAddress)|)]
    {
      if |interfaceAddress| == 0 {
        // interfaceAddress[interfaceAddress.length - 1] throws
        return true;
      }
      crashed := false;
      var count := EnqueueScanList(interfaceAddress);
      channel := channel + [Start(0, count)];
    }

    /** The `finally` of handleScan: once every worker has stopped, send COMPLETE. */
    method FinishScan()
      modifies this`channel
      ensures channel == old(channel) + [Complete]
    {
      channel := channel + [Complete];
    }

    /**
     * handleScan: queue the scan list and send START with its length, let the
     * workers drain the queue, then send COMPLETE. An empty address makes line
     * 131 throw before anything happens.
     */
    method HandleScan(interfaceAddress: Address, probe: Address -> ProbeResult) returns (crashed: bool)
      requires Valid()
      modifies this
      ensures Valid()
      ensures crashed <==> |interfaceAddress| == 0
      ensures crashed ==> unchanged(this)
      ensures !crashed ==>
                channel == old(channel) + ScanMessages(interfaceAddress, old(addressQueue), workerCount, probe)
      ensures !crashed ==>
                addressQueue == if workerCount > 0 then [] else old(addressQueue) + ScanList(interfaceAddress)
      ensures pendingScans == old(pendingScans) && destroyed == old(destroyed)
      ensures ObserverState() == old(ObserverState()) && notices == old(notices)
    {
      crashed := BeginScan(interfaceAddress);
      if crashed {
        return;
      }
      if workerCount > 0 {
        DrainQueue(probe);
      }
      FinishScan();
    }

    /** The scan thread's looper takes its oldest HANDLE_SCAN message, if any. */
    method TakeNextScan() returns (job: Option<Address>)
      requires Valid()
      modifies this`pendingScans
      ensures Valid()
      ensures old(pendingScans) == [] ==> job == None && pendingScans == []
      ensures old(pendingScans) != [] ==> job == Some(old(pendingScans)[0]) && pendingScans == old(pendingScans)[1..]
    {
      if pendingScans == [] {
        job := None;
      } else {
        job := Some(pendingScans[0]);
        pendingScans := pendingScans[1..];
      }
    }

    /** The scan thread handles its oldest HANDLE_SCAN message, if any (MyScanHandlerCallback). */
    method RunNextScan(probe: Address -> ProbeResult) returns (ran: bool)
      requires Valid()
      modifies this
      ensures Valid()
      ensures ran <==> old(pendingScans) != []
      ensures !ran ==> unchanged(this)
      ensures ran ==> pendingScans == old(pendingScans)[1..]
      ensures old(destroyed) ==> !ran
      ensures ran && |old(pendingScans)[0]| > 0 ==>
                channel == old(channel) + ScanMessages(old(pendingScans)[0], old(addressQueue), workerCount, probe)
      ensures ran && |old(pendingScans)[0]| > 0 ==>
                addressQueue == if workerCount > 0 then [] else old(addressQueue) + ScanList(old(pendingScans)[0])
      ensures ran && |old(pendingScans)[0]| == 0 ==> channel == old(channel) && addressQueue == old(addressQueue)
      ensures destroyed == old(destroyed)
      ensures ObserverState() == old(ObserverState()) && notices == old(notices)
    {
      var job := TakeNextScan();
      ran := job.Some?;
      if ran {
        var _ := HandleScan(job.value, probe);
      }
    }

    /** handleMessage: update the three fields and call the Callback as Step says. */
    method HandleMessage(e: Event)
      modifies this`progress, this`max, this`complete, this`notices
      ensures ObserverState() == Step(old(ObserverState()), e).state
      ensures notices == old(notices) + Step(old(ObserverState()), e).notices
    {
      if complete && !e.Start? {
        // unexpected callback: dropped before the `finally`
        return;
      }
      match e {
        case Start(a1, a2) =>
          complete := false;
          progress := a1;
          max := a2;
        case Reachable(hostname, responseCode) =>
          notices := notices + [HostFound(hostname, responseCode)];
          progress := Inc32(progress);
        case Unreachable =>
          progress := Inc32(progress);
        case Complete =>
          complete := true;
          progress := max;
      }
      notices := notices + [Progress(progress, max)];
    }

    /** The callback handler handles its oldest message, if any. */
    method DeliverNext() returns (delivered: bool)
      modifies this`channel, this`progress, this`max, this`complete, this`notices
      ensures delivered <==> old(channel) != []
      ensures !delivered ==> unchanged(this)
      ensures delivered ==>
                channel == old(channel)[1..] &&
                ObserverState() == Step(old(ObserverState()), old(channel)[0]).state &&
                notices == old(notices) + Step(old(ObserverState()), old(channel)[0]).notices
    {
      if channel == [] {
        return false;
      }
      delivered := true;
      var e := channel[0];
      channel := channel[1..];
      HandleMessage(e);
    }

    /** The callback handler handles every waiting message, in order. */
    method DeliverAll()
      modifies this`channel, this`progress, this`max, this`complete, this`notices
      ensures channel == []
      ensures ObserverState() == Run(old(ObserverState()), old(channel)).state
      ensures notices == old(notices) + Run(old(ObserverState()), old(channel)).notices
    {
      ghost var s0 := ObserverState();
      ghost var done: seq<Event> := [];
      while channel != []
        invariant old(channel) == done + channel
        invariant ObserverState() == Run(s0, done).state
        invariant notices == old(notices) + Run(s0, done).notices
        decreases |channel|
      {
        ghost var e := channel[0];
        ghost var mid := Run(s0, done);
        var _ := DeliverNext();
        RunAppend(s0, done, [e]);
        RunSingle(mid.state, e);
        assert old(channel) == (done + [e]) + channel;
        done := done + [e];
      }
      assert done == old(channel);
    }
  }

  /** The first `sign` steps of the inner loop at `delta`: nothing, the -1 candidate, or both. */
  function PairUpTo(u: byte, delta: int, sign: int): seq<byte>
  {
    if sign <= -1 then [] else if sign <= 1 then Emit(Candidate(u, delta, -1)) else Pair(u, delta)
  }

  /** Retargeting one more byte appends one more address. */
  lemma RetargetSnoc(origin: Address, bs: seq<byte>, b: byte)
    requires |origin| > 0
    ensures Retarget(origin, bs + [b]) == Retarget(origin, bs) + [WithLast(origin, b)]
  {
    assert forall i :: 0 <= i < |bs| ==> (bs + [b])[i] == bs[i];
  }
}
