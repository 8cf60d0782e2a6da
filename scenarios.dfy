/**
 * Whole sweeps driven through a fresh PortSweeper: the scan thread's steps,
 * the workers' polls and the callback handler's deliveries in one order.
 */
module Scenarios {
  import opened JavaInts
  import opened Wrappers
  import opened AddressSequencer
  import opened Observer
  import opened Sweeper

  /**
   * sweep(origin) on a new sweeper, then the scan, then every message
   * delivered: START carries the number of queued addresses, each of them is
   * probed once in scan order (when there is a worker), and the observer ends
   * complete with progress = max = that number. An empty origin makes the scan
   * throw, so nothing is sent.
   */
  method SweepAndObserve(threadCount: nat, origin: Address, probe: Address -> ProbeResult)
    returns (sent: seq<Event>, final: State, calls: seq<Notice>)
    ensures |origin| == 0 ==> sent == [] && final == Initial && calls == []
    ensures |origin| > 0 ==> sent == ScanMessages(origin, [], threadCount, probe)
    ensures |origin| > 0 ==> final == State(|ScanList(origin)|, |ScanList(origin)|, true)
    ensures |origin| > 0 ==>
              HostsOf(calls) == (if threadCount > 0 then ReachedHosts(ScanList(origin), probe) else [])
    ensures |origin| > 0 ==>
              ProgressCount(calls) == (if threadCount > 0 then |ScanList(origin)| else 0) + 2
    ensures |origin| > 0 ==>
              calls != [] && calls[|calls| - 1] == Progress(|ScanList(origin)|, |ScanList(origin)|)
  {
    var sweeper := SweepOnce(threadCount, origin, probe);
    sent := sweeper.channel;
    final, calls := DeliverFromStart(sweeper);
    if |origin| > 0 {
      ScanMessagesObserved(Initial, origin, threadCount, probe);
    } else {
      assert Run(Initial, sent) == Outcome(Initial, []);
    }
  }

  /** A sweeper whose observer has not been touched yet delivers every waiting message. */
  method DeliverFromStart(sweeper: PortSweeper) returns (final: State, calls: seq<Notice>)
    requires sweeper.ObserverState() == Initial && sweeper.notices == []
    modifies sweeper
    ensures final == Run(Initial, old(sweeper.channel)).state
    ensures calls == Run(Initial, old(sweeper.channel)).notices
  {
    sweeper.DeliverAll();
    final := sweeper.ObserverState();
    calls := sweeper.notices;
    assert calls == [] + Run(Initial, old(sweeper.channel)).notices;
  }

  /** sweep(origin) on a new sweeper, and the scan thread's one handleScan. */
  method SweepOnce(threadCount: nat, origin: Address, probe: Address -> ProbeResult) returns (sweeper: PortSweeper)
    ensures fresh(sweeper) && sweeper.Valid()
    ensures sweeper.workerCount == threadCount && !sweeper.destroyed && sweeper.pendingScans == []
    ensures sweeper.addressQueue == if |origin| > 0 && threadCount == 0 then ScanList(origin) else []
    ensures sweeper.channel == if |origin| > 0 then ScanMessages(origin, [], threadCount, probe) else []
    ensures sweeper.ObserverState() == Initial && sweeper.notices == []
  {
    sweeper := new PortSweeper(threadCount);
    sweeper.Sweep(origin);
    assert sweeper.pendingScans == [origin] && sweeper.addressQueue == [] && sweeper.channel == [];
    var ran := sweeper.RunNextScan(probe);
    if |origin| > 0 {
      assert [] + ScanList(origin) == ScanList(origin);
    }
  }

  /**
   * sweep(a) immediately followed by sweep(b): only b's scan is left to run,
   * so every message the observer can receive belongs to b.
   */
  method RestartKeepsLatest(a: Address, b: Address, probe: Address -> ProbeResult)
    returns (sent: seq<Event>, second: bool)
    ensures !second
    ensures |b| > 0 ==> sent == ScanMessages(b, [], 1, probe)
    ensures |b| == 0 ==> sent == []
  {
    var sweeper := new PortSweeper(1);
    sweeper.Sweep(a);
    sweeper.Sweep(b);
    var first := sweeper.RunNextScan(probe);
    second := sweeper.RunNextScan(probe);
    sent := sweeper.channel;
  }

  /** sweep(origin) on a new one-worker sweeper, and the scan thread's handleScan up to START. */
  method BeginSweep(origin: Address) returns (sweeper: PortSweeper)
    requires |origin| > 0
    ensures fresh(sweeper) && sweeper.Valid() && sweeper.workerCount == 1
    ensures sweeper.addressQueue == ScanList(origin) && sweeper.pendingScans == []
    ensures sweeper.channel == [Start(0, |ScanList(origin)|)]
    ensures sweeper.ObserverState() == Initial && sweeper.notices == []
  {
    sweeper := new PortSweeper(1);
    sweeper.Sweep(origin);
    var job := sweeper.TakeNextScan();
    assert job == Some(origin) && sweeper.addressQueue == [] && sweeper.channel == [];
    var crashed := sweeper.BeginScan(origin);
    assert [] + ScanList(origin) == ScanList(origin);
  }

  /** A worker takes and probes the first k queued addresses, one WorkerStep each. */
  method WorkerTakes(sweeper: PortSweeper, probe: Address -> ProbeResult, k: nat)
    requires sweeper.Valid() && k <= |sweeper.addressQueue|
    modifies sweeper
    ensures sweeper.Valid()
    ensures sweeper.addressQueue == old(sweeper.addressQueue)[k..]
    ensures sweeper.channel == old(sweeper.channel) + ProbeEvents(old(sweeper.addressQueue)[..k], probe)
    ensures sweeper.pendingScans == old(sweeper.pendingScans) && sweeper.destroyed == old(sweeper.destroyed)
    ensures sweeper.ObserverState() == old(sweeper.ObserverState()) && sweeper.notices == old(sweeper.notices)
  {
    ghost var list := sweeper.addressQueue;
    ghost var c0 := sweeper.channel;
    assert list[0..] == list && list[..0] == [];
    var i := 0;
    while i < k
      invariant 0 <= i <= k
      invariant sweeper.addressQueue == list[i..]
      invariant sweeper.channel == c0 + ProbeEvents(list[..i], probe)
      invariant sweeper.pendingScans == old(sweeper.pendingScans) && sweeper.destroyed == old(sweeper.destroyed)
      invariant sweeper.ObserverState() == old(sweeper.ObserverState()) && sweeper.notices == old(sweeper.notices)
    {
      var polled := sweeper.WorkerStep(probe);
      assert list[i..][1..] == list[i + 1..];
      assert list[..i + 1] == list[..i] + [list[i]];
      ProbeEventsSnoc(list[..i], list[i], probe);
      i := i + 1;
    }
  }

  /**
   * abort() while a scan of `origin` is running, after the workers have
   * taken the first k addresses: the rest are never probed, COMPLETE is still
   * sent once, and handling it sets progress to max (the START count), not k.
   */
  method AbortMidScan(origin: Address, probe: Address -> ProbeResult, k: nat)
    returns (sent: seq<Event>, final: State, calls: seq<Notice>)
    requires |origin| > 0 && k <= |ScanList(origin)|
    ensures sent == [Start(0, |ScanList(origin)|)] + ProbeEvents(ScanList(origin)[..k], probe) + [Complete]
    ensures final == State(|ScanList(origin)|, |ScanList(origin)|, true)
    ensures HostsOf(calls) == ReachedHosts(ScanList(origin)[..k], probe)
    ensures ProgressCount(calls) == k + 2
  {
    var sweeper := BeginSweep(origin);
    var list := ScanList(origin);
    var n := |list|;
    WorkerTakes(sweeper, probe, k);
    ghost var taken := sweeper.channel;
    sweeper.Abort();
    sweeper.DrainQueue(probe);
    assert sweeper.channel == taken + [];
    sweeper.FinishScan();
    sent := sweeper.channel;
    final, calls := DeliverFromStart(sweeper);
    ScanObserved(Initial, n, ProbeEvents(list[..k], probe));
    ProbeEventsHosts(list[..k], probe);
  }

  /**
   * destory() and then sweep(origin): the scan thread's looper has quit, so
   * the scan never runs, nothing is queued and the observer hears nothing.
   */
  method SweepAfterDestroy(threadCount: nat, origin: Address, probe: Address -> ProbeResult)
    returns (ran: bool, queued: seq<Address>, sent: seq<Event>)
    ensures !ran && queued == [] && sent == []
  {
    var sweeper := new PortSweeper(threadCount);
    sweeper.Destroy();
    sweeper.Sweep(origin);
    ran := sweeper.RunNextScan(probe);
    queued := sweeper.addressQueue;
    sent := sweeper.channel;
  }
}
