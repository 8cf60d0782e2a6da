# PortSweeper, modelled in Dafny

This project models the sequential core of `PortSweeper`, the class that sweeps the
addresses around a device's own IP address for an open port. It covers three parts:

- **Address sequencer.** `handleScan` builds the list of addresses to probe. It walks
  outward from the origin's last byte by ±1, ±2, …, ±127 (minus first, modulo 256) and
  skips a last byte of 0. It appends each address to the shared address queue and
  sends their number in the START message (module `AddressSequencer`, method
  `Sweeper.PortSweeper.EnqueueScanList`).
- **Observer state machine.** The callback handler's `handleMessage` updates
  `mProgress`, `mMax` and `mComplete` for START, REACHABLE, UNREACHABLE and COMPLETE.
  It calls `onHostFound` and `onProgress`, and it drops stray messages once complete
  (module `Observer`, method `Sweeper.PortSweeper.HandleMessage`).
- **Queue and scheduling rules.** `sweep`, `abort`, `destory` and `pollIpAddress` act
  on the address queue and on the scan thread's pending HANDLE_SCAN messages (class
  `Sweeper.PortSweeper`).

The Android threads are replaced by explicit sequential steps:

- `RunNextScan` makes the scan thread handle its next HANDLE_SCAN message.
- `WorkerStep` is one poll-and-probe iteration of a worker.
- `DeliverNext` makes the callback handler take its next message.

Callback calls are recorded in the field `notices`. Messages in flight to the callback
handler are kept in the field `channel`. The network probe is a function parameter
`probe: Address -> ProbeResult`, an oracle standing in for the `Worker` class's
connection attempt.

Java's fixed-width arithmetic is written out in module `JavaInts`:

- the signed `byte` read at line 131;
- the truncating `%` at line 134;
- the wrapping `mProgress++` at lines 221 and 226.

A byte is modelled by its bit pattern, 0..255. `ToSigned` gives the value Java computes with.

Three consequences of the code that are easy to miss:

- An origin whose last byte is 10 gets 253 addresses. Delta 10 with sign -1 gives
  the last byte 0, which line 135 skips. Every last byte other than 0 and 128 loses
  exactly one candidate this way (`LastBytesCount`, `ExampleLastByteTen`).
- When a scan is aborted midway, COMPLETE still sets `mProgress = mMax` (line 230).
  The final progress is the START count, not the number of addresses actually
  probed (`Scenarios.AbortMidScan`).
- START resets the state even after COMPLETE. The guard at line 206 exempts START,
  so a new scan always restarts the observer (`StartAlwaysResets`).

## Model

| member | source | states |
|---|---|---|
| `JavaInts.ToSigned` | src/org/peterbaldwin/client/android/portsweep/PortSweeper.java:131 | the signed value of a byte is in -128..127 and congruent to its bits mod 256 |
| `JavaInts.JavaRem256` | src/org/peterbaldwin/client/android/portsweep/PortSweeper.java:134 | Java's `% 256`: magnitude below 256, congruent to the operand, sign of the operand |
| `JavaInts.Inc32` | src/org/peterbaldwin/client/android/portsweep/PortSweeper.java:221-226 | `mProgress++` is +1 modulo 2^32 and exactly +1 below the largest int |
| `AddressSequencer.SourceCandidateIsCandidate` | src/org/peterbaldwin/client/android/portsweep/PortSweeper.java:131-134 | for delta 1..127 and sign ±1 the signed-byte expression equals (u + sign·delta) mod 256 |
| `AddressSequencer.CandidateDist` | src/org/peterbaldwin/client/android/portsweep/PortSweeper.java:132-134 | the candidate for delta lies exactly delta away from the origin's last byte on the ring |
| `AddressSequencer.PairDistinct` | src/org/peterbaldwin/client/android/portsweep/PortSweeper.java:133-134 | the sign = -1 and sign = +1 candidates of one delta differ |
| `AddressSequencer.PairLength` | src/org/peterbaldwin/client/android/portsweep/PortSweeper.java:133-142 | one delta yields 2 addresses, except the single delta whose candidate is the skipped 0, which yields 1 |
| `AddressSequencer.PairMembers` | src/org/peterbaldwin/client/android/portsweep/PortSweeper.java:133-137 | every byte one delta contributes is non-zero and exactly that delta away from the origin byte |
| `AddressSequencer.PairOrdered` | src/org/peterbaldwin/client/android/portsweep/PortSweeper.java:133 | when a delta keeps both candidates, the sign -1 one comes first |
| `AddressSequencer.BelowPrefix` | src/org/peterbaldwin/client/android/portsweep/PortSweeper.java:132-144 | the addresses emitted for smaller deltas are a prefix of those emitted for larger ones |
| `AddressSequencer.BelowInRange` | src/org/peterbaldwin/client/android/portsweep/PortSweeper.java:132-144 | every byte emitted for deltas below d is non-zero and 1..d-1 away from the origin byte |
| `AddressSequencer.BelowOrdered` | src/org/peterbaldwin/client/android/portsweep/PortSweeper.java:132-134 | emission order: a later byte is never closer, and at equal distance the -1 candidate precedes the +1 |
| `AddressSequencer.BelowLength` | src/org/peterbaldwin/client/android/portsweep/PortSweeper.java:132-139 | exact count of bytes emitted for deltas below d: 2(d-1) minus the one skipped delta if reached |
| `AddressSequencer.LastBytesExcluded` | src/org/peterbaldwin/client/android/portsweep/PortSweeper.java:132-138 | no emitted byte is 0, the origin byte u, or (u + 128) mod 256 |
| `AddressSequencer.LastBytesDistinct` | src/org/peterbaldwin/client/android/portsweep/PortSweeper.java:132-138 | the emitted last bytes are pairwise distinct |
| `AddressSequencer.LastBytesComplete` | src/org/peterbaldwin/client/android/portsweep/PortSweeper.java:132-138 | a byte is emitted if and only if it is not 0, u or (u + 128) mod 256 |
| `AddressSequencer.LastBytesStart` | src/org/peterbaldwin/client/android/portsweep/PortSweeper.java:132-134 | the scan starts with the delta-1 candidates, minus then plus |
| `AddressSequencer.BelowStart` | src/org/peterbaldwin/client/android/portsweep/PortSweeper.java:132-134 | every run over at least delta 1 starts with delta 1's candidates |
| `AddressSequencer.LastBytesCount` | src/org/peterbaldwin/client/android/portsweep/PortSweeper.java:132-144 | 254 last bytes when u is 0 or 128, otherwise 253 |
| `AddressSequencer.ScanList` | src/org/peterbaldwin/client/android/portsweep/PortSweeper.java:132-139 | at most 254 addresses are queued by one scan |
| `AddressSequencer.ScanListShape` | src/org/peterbaldwin/client/android/portsweep/PortSweeper.java:131-138 | each queued address has the origin's length, equals it except in the last byte, and its last byte is the matching emitted byte, never 0 |
| `AddressSequencer.ScanListDistinct` | src/org/peterbaldwin/client/android/portsweep/PortSweeper.java:132-138 | the queued addresses are pairwise distinct and none is the origin |
| `AddressSequencer.ScanListOutward` | src/org/peterbaldwin/client/android/portsweep/PortSweeper.java:129-134 | no queued address is closer to the origin than one queued before it |
| `AddressSequencer.ScanListCount` | src/org/peterbaldwin/client/android/portsweep/PortSweeper.java:132-144 | the number of queued addresses is 254 for a last byte of 0 or 128 and 253 otherwise |
| `AddressSequencer.ExampleLastByteTen` | src/org/peterbaldwin/client/android/portsweep/PortSweeper.java:131-139 | for an origin ending in 10: 253 addresses, first the one ending in 9, then the one ending in 11 |
| `AddressSequencer.FirstBytesAroundTen` | src/org/peterbaldwin/client/android/portsweep/PortSweeper.java:132-134 | around last byte 10 the emitted bytes start 9, 11 |
| `Observer.Step` | src/org/peterbaldwin/client/android/portsweep/PortSweeper.java:205-238 | handleMessage on one message: afterwards complete exactly when it was COMPLETE or dropped as stray; only START changes max; START sets all three fields from its arguments |
| `Observer.StepReports` | src/org/peterbaldwin/client/android/portsweep/PortSweeper.java:205-238 | a discarded message changes nothing and makes no call; any other makes exactly one onProgress with the new state, last, and onHostFound only for REACHABLE |
| `Observer.ResultAdvances` | src/org/peterbaldwin/client/android/portsweep/PortSweeper.java:217-227 | when not complete, REACHABLE and UNREACHABLE advance progress by one and keep max and complete |
| `Observer.CompleteFinalises` | src/org/peterbaldwin/client/android/portsweep/PortSweeper.java:228-231 | COMPLETE sets complete and progress = max |
| `Observer.Run` | src/org/peterbaldwin/client/android/portsweep/PortSweeper.java:205-238 | messages handled in delivery order: without a START max never changes; a final COMPLETE leaves the handler complete; a final START leaves exactly its arguments, not complete |
| `Observer.RunAppend` | src/org/peterbaldwin/client/android/portsweep/PortSweeper.java:205-238 | handling messages one after another composes: a + b is a, then b from a's state |
| `Observer.RunSingle` | src/org/peterbaldwin/client/android/portsweep/PortSweeper.java:205-238 | handling a one-message sequence is handling the message |
| `Observer.StartAlwaysResets` | src/org/peterbaldwin/client/android/portsweep/PortSweeper.java:206-216 | after any history, START leaves (arg1, arg2, not complete) and reports onProgress(arg1, arg2) |
| `Observer.StrayMessagesIgnored` | src/org/peterbaldwin/client/android/portsweep/PortSweeper.java:206-209 | once complete, any run of non-START messages leaves the state unchanged and makes no call |
| `Observer.ResultsAdvance` | src/org/peterbaldwin/client/android/portsweep/PortSweeper.java:217-227 | k worker results advance progress by k, keep max, make k onProgress calls and one onHostFound per REACHABLE in order |
| `Observer.ScanObserved` | src/org/peterbaldwin/client/android/portsweep/PortSweeper.java:205-238 | START(0, n), results, COMPLETE leave (n, n, complete), end with onProgress(n, n), one onProgress per message, one onHostFound per REACHABLE |
| `Observer.HostsOfAppend` | src/org/peterbaldwin/client/android/portsweep/PortSweeper.java:220 | the onHostFound calls of concatenated traces concatenate |
| `Observer.ProgressCountAppend` | src/org/peterbaldwin/client/android/portsweep/PortSweeper.java:236 | onProgress counts of concatenated traces add |
| `Observer.HostsInAppend` | src/org/peterbaldwin/client/android/portsweep/PortSweeper.java:217-220 | the host notifications asked for by concatenated message lists concatenate |
| `Sweeper.ProbeEventsSnoc` | src/org/peterbaldwin/client/android/portsweep/PortSweeper.java:181-198 | probing one more address appends exactly its result message |
| `Sweeper.ProbeEventsHosts` | src/org/peterbaldwin/client/android/portsweep/PortSweeper.java:186-191 | the REACHABLE messages of the probed addresses ask for exactly the hosts the probes reached (ReachedHosts), in probe order |
| `Sweeper.ScanMessages` | src/org/peterbaldwin/client/android/portsweep/PortSweeper.java:145-158 | handleScan's messages: START(0, count) first, COMPLETE last, only worker results between, one per address taken (none without workers) |
| `Sweeper.ScanMessagesObserved` | src/org/peterbaldwin/client/android/portsweep/PortSweeper.java:120-160 | a scan's messages leave the observer at (count, count, complete); onHostFound is called for exactly the reachable addresses (ReachedHosts), in scan order; onProgress once per message, last (count, count) |
| `Sweeper.RetargetSnoc` | src/org/peterbaldwin/client/android/portsweep/PortSweeper.java:136-138 | queuing one more last byte appends exactly its address |
| `Sweeper.PortSweeper.constructor` | src/org/peterbaldwin/client/android/portsweep/PortSweeper.java:72-92 | empty queue, no pending scan, no message, no call, progress = max = 0, not complete |
| `Sweeper.PortSweeper.Abort` | src/org/peterbaldwin/client/android/portsweep/PortSweeper.java:106-112 | empties the queue and the pending scans, changes nothing else, and is a no-op when both are already empty |
| `Sweeper.PortSweeper.Sweep` | src/org/peterbaldwin/client/android/portsweep/PortSweeper.java:98-104 | after sweep(a) the queue is empty and the pending scans are exactly [a] (none once destroyed) |
| `Sweeper.PortSweeper.Destroy` | src/org/peterbaldwin/client/android/portsweep/PortSweeper.java:114-118 | aborts and marks the scan thread stopped for good |
| `Sweeper.PortSweeper.Poll` | src/org/peterbaldwin/client/android/portsweep/PortSweeper.java:181-183 | returns and removes the head, or None and no change on an empty queue |
| `Sweeper.PortSweeper.EnqueueScanList` | src/org/peterbaldwin/client/android/portsweep/PortSweeper.java:127-144 | the nested loops append exactly ScanList(origin) to the queue, in order, and count them |
| `Sweeper.PortSweeper.WorkerStep` | src/org/peterbaldwin/client/android/portsweep/PortSweeper.java:181-198 | one poll hands out the head once and sends its result message, or reports the queue empty |
| `Sweeper.PortSweeper.DrainQueue` | src/org/peterbaldwin/client/android/portsweep/PortSweeper.java:146-154 | polling until empty sends one result per queued address, in queue order, and empties the queue |
| `Sweeper.PortSweeper.BeginScan` | src/org/peterbaldwin/client/android/portsweep/PortSweeper.java:120-145 | queues ScanList(origin) and sends START(0, its length); an empty address throws and changes nothing |
| `Sweeper.PortSweeper.FinishScan` | src/org/peterbaldwin/client/android/portsweep/PortSweeper.java:157-158 | sends COMPLETE |
| `Sweeper.PortSweeper.HandleScan` | src/org/peterbaldwin/client/android/portsweep/PortSweeper.java:120-160 | sends START(0, count), the workers' results for the whole queue (none without workers), then COMPLETE |
| `Sweeper.PortSweeper.TakeNextScan` | src/org/peterbaldwin/client/android/portsweep/PortSweeper.java:162-168 | the scan looper takes its oldest pending scan, if any |
| `Sweeper.PortSweeper.RunNextScan` | src/org/peterbaldwin/client/android/portsweep/PortSweeper.java:162-176 | runs handleScan on the oldest pending scan and removes it, giving the new messages and address queue; nothing happens when none is pending, and nothing ever runs once destroyed |
| `Sweeper.PortSweeper.HandleMessage` | src/org/peterbaldwin/client/android/portsweep/PortSweeper.java:205-238 | the fields and the call trace change exactly as Observer.Step says |
| `Sweeper.PortSweeper.DeliverNext` | src/org/peterbaldwin/client/android/portsweep/PortSweeper.java:205-238 | the oldest message in flight is handled, and the others keep their order |
| `Sweeper.PortSweeper.DeliverAll` | src/org/peterbaldwin/client/android/portsweep/PortSweeper.java:205-238 | handling every message in flight, in order, gives Observer.Run of them |
| `Scenarios.SweepAndObserve` | src/org/peterbaldwin/client/android/portsweep/PortSweeper.java:98-160 | one sweep on a fresh sweeper: START carries the queued count, results follow in scan order, COMPLETE ends at (count, count), onHostFound exactly for the reachable addresses in scan order |
| `Scenarios.SweepOnce` | src/org/peterbaldwin/client/android/portsweep/PortSweeper.java:98-104 | sweep then one scan on a fresh sweeper: exactly that scan's messages are sent, no scan is left pending, and the queue is empty unless there are no workers |
| `Scenarios.DeliverFromStart` | src/org/peterbaldwin/client/android/portsweep/PortSweeper.java:205-238 | delivery from the initial state gives Observer.Run from Initial |
| `Scenarios.RestartKeepsLatest` | src/org/peterbaldwin/client/android/portsweep/PortSweeper.java:98-112 | sweep(a) then sweep(b): only b's scan runs and every message sent is b's |
| `Scenarios.BeginSweep` | src/org/peterbaldwin/client/android/portsweep/PortSweeper.java:98-145 | after sweep and the start of its scan, the queue is the scan list and START has been sent |
| `Scenarios.WorkerTakes` | src/org/peterbaldwin/client/android/portsweep/PortSweeper.java:181-198 | k polls take the first k queued addresses and send their results in order |
| `Scenarios.AbortMidScan` | src/org/peterbaldwin/client/android/portsweep/PortSweeper.java:106-112 | abort after k polls: only those k are probed, onHostFound only for the reached ones among them, COMPLETE still arrives once, and progress ends at max, not k |
| `Scenarios.SweepAfterDestroy` | src/org/peterbaldwin/client/android/portsweep/PortSweeper.java:114-118 | after destory, a sweep never runs: nothing is queued and no message is sent |

## Left out

- Android `HandlerThread`, `Looper`, `Handler` and `Message` (lines 25-28, 83-91): they are replaced by the sequences `pendingScans` and `channel` and by explicit steps. Cross-thread delivery is framework behaviour.
- `Worker` threads (construction, priority, `start`, `join`, lines 121-126 and 146-154): the `Worker` class is not part of this model. Workers are one sequential "poll until empty" loop with the probe as an oracle function. The model fixes one interleaving of the workers' polls. It does not cover concurrent ones or their message order.
- `DrainQueue`: with several workers, the real order of result messages follows network timing. The model sends them in queue order.
- `Scenarios.AbortMidScan`: in the model, abort happens between two worker polls. A real abort races with the workers from the caller's thread.
- The `InterruptedException` path (lines 155-159): COMPLETE is always sent after the workers. An interrupt is thread behaviour.
- `InetAddress`, the `IOException` payload and `Log` calls: a hostname is an opaque string, UNREACHABLE carries nothing, and logging is dropped.
- `destory`'s `looper.quit()` (line 117): modelled only as the `destroyed` flag. A scan scheduled afterwards is dropped.
- `setCallback` (line 94): a field swap. The model records calls on one callback.
- The `default` branches of both `handleMessage` methods (lines 170-171, 232-233): only this class posts to its handlers, and the message codes it posts are the four modelled ones.
- `Sweeper.PortSweeper.HandleScan`: an empty address throws at line 131. The model returns `crashed` with nothing changed. What the uncaught exception then does to the scan thread is not modelled.
- A negative `threadCount` makes `new Worker[mWorkerCount]` throw. The model takes a `nat` worker count.
- `ipAddress` arrays are aliased in Java: the queue holds a clone, but the HANDLE_SCAN message holds the caller's array. The model uses values, so a caller mutating its array after `sweep` is not captured.
