/** The goroutine that collects results as they arrive. Its select loop receives two
    kinds of event in whatever order the scheduler delivers them: a result from a
    worker, and once the driver has read all input, the number of lines. */
module Collection {
  import opened Records

  /** One receive of the select loop. */
  datatype Event = Arrive(r: Result) | Total(n: nat)

  /** The collector's variables: the result buffer, `expected` (-1 while the total
      is unknown) and whether the loop has returned. */
  datatype CollectorState = CollectorState(results: seq<Result>, expected: int, done: bool)

  function Start(): CollectorState
  {
    CollectorState([], -1, false)
  }

  /** One turn of the select loop. */
  function Step(st: CollectorState, e: Event): CollectorState
  {
    match e
    case Arrive(r) => CollectorState(st.results + [r], st.expected, |st.results| + 1 == st.expected)
    case Total(n) => CollectorState(st.results, n, |st.results| == n)
  }

  /** The state after the loop has received `events` in order (whether or not it would
      have returned earlier). */
  function Replay(events: seq<Event>): CollectorState
  {
    if events == [] then Start() else Step(Replay(events[..|events| - 1]), events[|events| - 1])
  }

  /** The results among `events`, in arrival order. */
  function Arrivals(events: seq<Event>): seq<Result>
  {
    if events == [] then []
    else
      var last := events[|events| - 1];
      Arrivals(events[..|events| - 1]) + if last.Arrive? then [last.r] else []
  }

  /** The totals among `events`, in arrival order. */
  function Totals(events: seq<Event>): seq<nat>
  {
    if events == [] then []
    else
      var last := events[|events| - 1];
      Totals(events[..|events| - 1]) + if last.Total? then [last.n] else []
  }

  /** The total most recently received, or -1 if none has been. */
  function LastTotal(events: seq<Event>): int
  {
    var ts := Totals(events);
    if ts == [] then -1 else ts[|ts| - 1]
  }

  /** What the pipeline delivers for n lines: n results and the total n, in any order. */
  predicate IsSchedule(events: seq<Event>, n: nat)
  {
    |Arrivals(events)| == n && Totals(events) == [n]
  }

  /** After any sequence of events the buffer holds exactly the results received, in
      arrival order, `expected` is the last total received (-1 before any), and the
      collector is done exactly when the buffer size equals it. */
  lemma {:induction false} ReplayState(events: seq<Event>)
    ensures Replay(events) ==
            CollectorState(Arrivals(events), LastTotal(events), |Arrivals(events)| == LastTotal(events))
  {
    if events != [] {
      ReplayState(events[..|events| - 1]);
    }
  }

  lemma {:induction false} EventsSplit(a: seq<Event>, b: seq<Event>)
    ensures Arrivals(a + b) == Arrivals(a) + Arrivals(b)
    ensures Totals(a + b) == Totals(a) + Totals(b)
  {
    if b == [] {
      assert a + b == a;
    } else {
      assert (a + b)[..|a + b| - 1] == a + b[..|b| - 1];
      assert (a + b)[|a + b| - 1] == b[|b| - 1];
      EventsSplit(a, b[..|b| - 1]);
    }
  }

  /** Every event is either a result or a total. */
  lemma {:induction false} EveryEventCounted(events: seq<Event>)
    ensures |Arrivals(events)| + |Totals(events)| == |events|
  {
    if events != [] {
      EveryEventCounted(events[..|events| - 1]);
    }
  }

  /** No proper prefix of a schedule completes the collector: before the total it is
      unknown, and after it at least one result is still to come. */
  lemma NotDoneBeforeEnd(events: seq<Event>, n: nat, k: nat)
    requires IsSchedule(events, n) && k < |events|
    ensures !Replay(events[..k]).done
  {
    var prefix, rest := events[..k], events[k..];
    assert events == prefix + rest;
    EventsSplit(prefix, rest);
    EveryEventCounted(rest);
    ReplayState(prefix);
    if Totals(prefix) != [] {
      assert Totals(rest) == [] && Totals(prefix) == [n];
      assert |Arrivals(prefix)| < n;
    }
  }

  /** Over every interleaving of n results with the total n, the collector is done
      after the last event and not before: whether the total comes first, last or in
      between, and also for n = 0. */
  lemma CompletesExactlyAtEnd(events: seq<Event>, n: nat)
    requires IsSchedule(events, n)
    ensures Replay(events).done && Replay(events).results == Arrivals(events)
    ensures forall k :: 0 <= k < |events| ==> !Replay(events[..k]).done
  {
    ReplayState(events);
    forall k | 0 <= k < |events|
      ensures !Replay(events[..k]).done
    {
      NotDoneBeforeEnd(events, n, k);
    }
  }

  /** The collector's own variables, updated in place by its select loop. */
  class Collector {
    var results: seq<Result>
    var expected: int
    var done: bool

    /** Done exactly when the buffer has reached a known total. */
    ghost predicate Valid()
      reads this
    {
      expected >= -1 && (done <==> |results| == expected)
    }

    function Snapshot(): CollectorState
      reads this
    {
      CollectorState(results, expected, done)
    }

    constructor ()
      ensures Valid() && Snapshot() == Start()
    {
      results := [];
      expected := -1;
      done := false;
    }

    /** `case r := <-translated`: append the result and return if that reaches the total. */
    method OnResult(r: Result)
      requires Valid() && !done
      modifies this
      ensures Valid()
      ensures results == old(results) + [r] && expected == old(expected)
      ensures done <==> |results| == expected
      ensures old(expected) == -1 ==> !done
      ensures Snapshot() == Step(old(Snapshot()), Arrive(r))
    {
      results := results + [r];
      done := |results| == expected;
    }

    /** `case expected = <-total`: record the total and return if the buffer already holds
        that many results. */
    method OnTotal(n: nat)
      requires Valid() && !done
      modifies this
      ensures Valid()
      ensures results == old(results) && expected == n
      ensures done <==> |old(results)| == n
      ensures Snapshot() == Step(old(Snapshot()), Total(n))
    {
      expected := n;
      done := |results| == expected;
    }
  }

  /** The collecting goroutine: receive `events` in order until done. It returns the
      buffer, how many events it received and whether it finished; a collector that
      has not finished when the events run out would wait forever. */
  method Collect(events: seq<Event>) returns (results: seq<Result>, received: nat, finished: bool)
    ensures received <= |events|
    ensures results == Arrivals(events[..received])
    ensures finished <==> |results| == LastTotal(events[..received])
    ensures forall k :: 0 <= k < received ==> !Replay(events[..k]).done
    ensures !finished ==> received == |events|
    ensures forall n: nat :: IsSchedule(events, n) ==>
              finished && received == |events| && results == Arrivals(events) && |results| == n
  {
    var c := new Collector();
    received := 0;
    while received < |events| && !c.done
      invariant received <= |events|
      invariant c.Valid() && c.Snapshot() == Replay(events[..received])
      invariant forall k :: 0 <= k < received ==> !Replay(events[..k]).done
    {
      assert events[..received + 1][..received] == events[..received];
      match events[received] {
        case Arrive(r) => c.OnResult(r);
        case Total(n) => c.OnTotal(n);
      }
      received := received + 1;
    }
    results, finished := c.results, c.done;
    ReplayState(events[..received]);
    forall n: nat | IsSchedule(events, n)
      ensures finished && received == |events| && results == Arrivals(events) && |results| == n
    {
      CompletesExactlyAtEnd(events, n);
      assert events[..|events|] == events;
    }
  }
}
