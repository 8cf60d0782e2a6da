/**
 * What the callback handler does with each message it receives
 * (PortSweeper.MyCallbackHandlerCallback.handleMessage), as a function of the
 * fields mProgress, mMax and mComplete, and the Callback calls it makes.
 */
module Observer {
  import opened JavaInts

  /** A message delivered to the callback handler. */
  datatype Event =
    | Start(arg1: int32, arg2: int32)               // HANDLE_START: arg1 = progress, arg2 = max
    | Reachable(hostname: string, responseCode: int32) // HANDLE_REACHABLE
    | Unreachable                                   // HANDLE_UNREACHABLE: the IOException only goes to the log
    | Complete                                      // HANDLE_COMPLETE

  /** A call made on the sweeper's Callback. */
  datatype Notice =
    | HostFound(hostname: string, responseCode: int32)
    | Progress(progress: int32, max: int32)

  /** The fields mProgress, mMax and mComplete. */
  datatype State = State(progress: int32, max: int32, complete: bool)

  /** The state after some messages, and the Callback calls they caused, in order. */
  datatype Outcome = Outcome(state: State, notices: seq<Notice>)

  /** Java's initial values of the three fields. */
  const Initial := State(0, 0, false)

  /** No message in `es` is a START. */
  predicate NoStart(es: seq<Event>)
  {
    forall i :: 0 <= i < |es| ==> !es[i].Start?
  }

  /** A worker's report about one address. */
  predicate IsResult(e: Event)
  {
    e.Reachable? || e.Unreachable?
  }

  /** The stray-message guard: once complete, everything but a START is dropped. */
  predicate Discards(s: State, e: Event)
  {
    s.complete && !e.Start?
  }

  /** Finish handling a message: the `finally` reports the new progress. */
  function Report(s: State, before: seq<Notice>): Outcome
  {
    Outcome(s, before + [Progress(s.progress, s.max)])
  }

  /**
   * Handling one message. Afterwards the handler is complete exactly when the
   * message was COMPLETE or was dropped as stray; only START changes max, and
   * START sets all three fields from its arguments.
   */
  function Step(s: State, e: Event): (o: Outcome)
    ensures o.state.complete <==> e.Complete? || Discards(s, e)
    ensures !e.Start? ==> o.state.max == s.max
    ensures e.Start? ==> o.state == State(e.arg1, e.arg2, false)
  {
    if Discards(s, e) then Outcome(s, [])
    else
      match e
      case Start(a1, a2) => Report(State(a1, a2, false), [])
      case Reachable(h, c) => Report(s.(progress := Inc32(s.progress)), [HostFound(h, c)])
      case Unreachable => Report(s.(progress := Inc32(s.progress)), [])
      case Complete => Report(State(s.max, s.max, true), [])
  }

  /**
   * Handling a sequence of messages in delivery order. Without a START, max
   * never changes; after a final COMPLETE the handler is complete; after a
   * final START the fields are that START's arguments, not complete.
   */
  function Run(s: State, es: seq<Event>): (o: Outcome)
    ensures NoStart(es) ==> o.state.max == s.max
    ensures |es| > 0 && es[|es| - 1].Complete? ==> o.state.complete
    ensures |es| > 0 && es[|es| - 1].Start? ==> o.state == State(es[|es| - 1].arg1, es[|es| - 1].arg2, false)
    decreases |es|
  {
    if es == [] then Outcome(s, [])
    else
      var first := Step(s, es[0]);
      var rest := Run(first.state, es[1..]);
      Outcome(rest.state, first.notices + rest.notices)
  }

  /** The host notifications among some Callback calls, in order. */
  function HostsOf(ns: seq<Notice>): seq<Notice>
  {
    if ns == [] then []
    else (if ns[0].HostFound? then [ns[0]] else []) + HostsOf(ns[1..])
  }

  /** The number of progress notifications among some Callback calls. */
  function ProgressCount(ns: seq<Notice>): nat
  {
    if ns == [] then 0
    else (if ns[0].Progress? then 1 else 0) + ProgressCount(ns[1..])
  }

  /** The host notification each REACHABLE message in `es` asks for, in order. */
  function HostsIn(es: seq<Event>): seq<Notice>
  {
    if es == [] then []
    else (if es[0].Reachable? then [HostFound(es[0].hostname, es[0].responseCode)] else []) + HostsIn(es[1..])
  }

  // ---------------------------------------------------------------------------
  // Counting over concatenations

  lemma {:induction false} HostsOfAppend(a: seq<Notice>, b: seq<Notice>)
    ensures HostsOf(a + b) == HostsOf(a) + HostsOf(b)
  {
    if a != [] {
      assert (a + b)[0] == a[0] && (a + b)[1..] == a[1..] + b;
      HostsOfAppend(a[1..], b);
    } else {
      assert a + b == b;
    }
  }

  lemma {:induction false} ProgressCountAppend(a: seq<Notice>, b: seq<Notice>)
    ensures ProgressCount(a + b) == ProgressCount(a) + ProgressCount(b)
  {
    if a != [] {
      assert (a + b)[0] == a[0] && (a + b)[1..] == a[1..] + b;
      ProgressCountAppend(a[1..], b);
    } else {
      assert a + b == b;
    }
  }

  lemma {:induction false} HostsInAppend(a: seq<Event>, b: seq<Event>)
    ensures HostsIn(a + b) == HostsIn(a) + HostsIn(b)
  {
    if a != [] {
      assert (a + b)[0] == a[0] && (a + b)[1..] == a[1..] + b;
      HostsInAppend(a[1..], b);
    } else {
      assert a + b == b;
    }
  }

  // ---------------------------------------------------------------------------
  // One message

  /**
   * A discarded message changes nothing and calls nothing; every other message
   * ends with exactly one progress call carrying the new state, and only a
   * REACHABLE message calls onHostFound (once, before the progress call).
   */
  lemma StepReports(s: State, e: Event)
    ensures Discards(s, e) ==> Step(s, e) == Outcome(s, [])
    ensures !Discards(s, e) ==>
              var o := Step(s, e);
              o.notices != [] &&
              o.notices[|o.notices| - 1] == Progress(o.state.progress, o.state.max) &&
              ProgressCount(o.notices) == 1 &&
              HostsOf(o.notices) == HostsIn([e])
  {
    if !Discards(s, e) {
      var o := Step(s, e);
      assert HostsIn([e]) == (if e.Reachable? then [HostFound(e.hostname, e.responseCode)] else []) + HostsIn([]);
      if e.Reachable? {
        assert o.notices == [HostFound(e.hostname, e.responseCode)] + [Progress(o.state.progress, o.state.max)];
        HostsOfAppend([HostFound(e.hostname, e.responseCode)], [Progress(o.state.progress, o.state.max)]);
        ProgressCountAppend([HostFound(e.hostname, e.responseCode)], [Progress(o.state.progress, o.state.max)]);
      }
    }
  }

  /** A worker result that is not discarded advances progress by one and leaves max and complete alone. */
  lemma ResultAdvances(s: State, e: Event)
    requires IsResult(e) && !s.complete
    ensures Step(s, e).state == State(Inc32(s.progress), s.max, false)
  {
  }

  /** COMPLETE finalises the state to (max, max, true). */
  lemma CompleteFinalises(s: State)
    requires !s.complete
    ensures Step(s, Complete).state == State(s.max, s.max, true)
  {
  }

  // ---------------------------------------------------------------------------
  // Sequences of messages

  /** Handling `a` and then `b` is handling `a + b`. */
  lemma {:induction false} RunAppend(s: State, a: seq<Event>, b: seq<Event>)
    ensures Run(s, a + b).state == Run(Run(s, a).state, b).state
    ensures Run(s, a + b).notices == Run(s, a).notices + Run(Run(s, a).state, b).notices
    decreases |a|
  {
    if a != [] {
      var ab := a + b;
      assert ab[0] == a[0] && ab[1..] == a[1..] + b;
      var first := Step(s, a[0]);
      RunAppend(first.state, a[1..], b);
      RunCons(s, ab);
      RunCons(s, a);
    } else {
      assert a + b == b;
    }
  }

  /** Handling a non-empty sequence is handling its first message, then the rest. */
  lemma RunCons(s: State, es: seq<Event>)
    requires es != []
    ensures Run(s, es) ==
              var first := Step(s, es[0]);
              var rest := Run(first.state, es[1..]);
              Outcome(rest.state, first.notices + rest.notices)
  {
  }

  /** Handling a one-message sequence is handling that message. */
  lemma RunSingle(s: State, e: Event)
    ensures Run(s, [e]) == Step(s, e)
  {
    assert [e][1..] == [];
    assert Run(Step(s, e).state, []) == Outcome(Step(s, e).state, []);
    assert Step(s, e).notices + [] == Step(s, e).notices;
  }

  /** START resets the state, whatever came before it, even after COMPLETE. */
  lemma StartAlwaysResets(s: State, history: seq<Event>, a1: int32, a2: int32)
    ensures Run(s, history + [Start(a1, a2)]).state == State(a1, a2, false)
    ensures var ns := Run(s, history + [Start(a1, a2)]).notices;
            ns != [] && ns[|ns| - 1] == Progress(a1, a2)
  {
    RunAppend(s, history, [Start(a1, a2)]);
  }

  /** Once complete, any run of messages without a START changes nothing and calls nothing. */
  lemma {:induction false} StrayMessagesIgnored(s: State, es: seq<Event>)
    requires s.complete
    requires forall i :: 0 <= i < |es| ==> !es[i].Start?
    ensures Run(s, es) == Outcome(s, [])
    decreases |es|
  {
    if es != [] {
      StrayMessagesIgnored(s, es[1..]);
    }
  }

  /**
   * While not complete, k worker results advance progress by k (when that does
   * not overflow), leave max alone, call onProgress k times and onHostFound
   * once per REACHABLE, in delivery order.
   */
  lemma {:induction false} ResultsAdvance(s: State, ws: seq<Event>)
    requires !s.complete
    requires forall i :: 0 <= i < |ws| ==> IsResult(ws[i])
    requires s.progress + |ws| <= MaxInt32
    ensures Run(s, ws).state == State(s.progress + |ws|, s.max, false)
    ensures ProgressCount(Run(s, ws).notices) == |ws|
    ensures HostsOf(Run(s, ws).notices) == HostsIn(ws)
    decreases |ws|
  {
    if ws != [] {
      var first := Step(s, ws[0]);
      StepReports(s, ws[0]);
      ResultsAdvance(first.state, ws[1..]);
      var rest := Run(first.state, ws[1..]);
      ProgressCountAppend(first.notices, rest.notices);
      HostsOfAppend(first.notices, rest.notices);
      assert ws == [ws[0]] + ws[1..];
      HostsInAppend([ws[0]], ws[1..]);
    }
  }

  /**
   * The messages of one scan, START(0, n), the worker results and COMPLETE,
   * leave (n, n, complete) whatever the state before, end with onProgress(n, n),
   * call onProgress once per message and onHostFound once per REACHABLE.
   */
  lemma ScanObserved(s: State, n: int32, ws: seq<Event>)
    requires 0 <= n
    requires forall i :: 0 <= i < |ws| ==> IsResult(ws[i])
    requires |ws| <= MaxInt32
    ensures var o := Run(s, [Start(0, n)] + ws + [Complete]);
            o.state == State(n, n, true) &&
            o.notices != [] && o.notices[|o.notices| - 1] == Progress(n, n) &&
            ProgressCount(o.notices) == |ws| + 2 &&
            HostsOf(o.notices) == HostsIn(ws)
  {
    var s1 := State(0, n, false);
    var m1, m3 := [Start(0, n)], [Complete];
    var m12 := m1 + ws;
    RunAppend(s, m1, ws);
    RunAppend(s, m12, m3);
    var o1 := Run(s, m1);
    RunSingle(s, Start(0, n));
    assert o1 == Outcome(s1, [Progress(0, n)]);
    ResultsAdvance(s1, ws);
    var o2 := Run(s1, ws);
    var o3 := Run(o2.state, m3);
    RunSingle(o2.state, Complete);
    assert o3 == Outcome(State(n, n, true), [Progress(n, n)]);
    ProgressCountAppend(o1.notices, o2.notices);
    ProgressCountAppend(o1.notices + o2.notices, o3.notices);
    HostsOfAppend(o1.notices, o2.notices);
    HostsOfAppend(o1.notices + o2.notices, o3.notices);
    assert HostsOf(o3.notices) == [] by {
      assert HostsOf(o3.notices) == HostsOf([]);
    }
  }
}
