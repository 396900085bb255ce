/** Throughput measurement: a window opened and closed by the user, per consumer a
    baseline captured when it opens and live counters updated by each batch. */
module MonitorThroughput {
  import opened Wrappers
  import opened GoInt
  import opened Config
  import opened MonitorSnapshot
  import opened MonitorPoller

  /** One consumer's measurement. `endTime` is None while the window is open. */
  datatype Measurement = Measurement(
    startTime: Instant,
    endTime: Option<Instant>,
    startDelivered: U64,
    startAcked: U64,
    currentDelivered: U64,
    currentAcked: U64)
  {
    /** Delivered messages since the baseline, as uint64 subtraction (mod 2^64). */
    function DeliveredCount(): (r: U64)
      ensures AddU64(startDelivered, r) == currentDelivered
      ensures startDelivered <= currentDelivered ==> r == currentDelivered - startDelivered
    {
      SubU64(currentDelivered, startDelivered)
    }

    /** Acknowledged messages since the baseline, as uint64 subtraction (mod 2^64). */
    function AckedCount(): (r: U64)
      ensures AddU64(startAcked, r) == currentAcked
      ensures startAcked <= currentAcked ==> r == currentAcked - startAcked
    {
      SubU64(currentAcked, startAcked)
    }

    /** How long the window ran: up to `now` while open, up to its end once closed,
        in nanoseconds saturated to time.Duration's range. */
    function Duration(now: Instant): (d: I64)
      ensures endTime.Some? && MIN_I64 <= endTime.value - startTime <= MAX_I64 ==> d == endTime.value - startTime
      ensures endTime.None? && MIN_I64 <= now - startTime <= MAX_I64 ==> d == now - startTime
    {
      if endTime.None? then TimeSub(now, startTime) else TimeSub(endTime.value, startTime)
    }

    /** Messages delivered per second; zero for a window of zero length. */
    function DeliveredRate(now: Instant): (r: real)
      ensures Duration(now) == 0 ==> r == 0.0
      ensures Duration(now) != 0 ==> r * (Duration(now) as real) == (DeliveredCount() as real) * 1_000_000_000.0
    {
      PerSecond(DeliveredCount(), Duration(now))
    }

    /** Messages acknowledged per second; zero for a window of zero length. */
    function AckedRate(now: Instant): (r: real)
      ensures Duration(now) == 0 ==> r == 0.0
      ensures Duration(now) != 0 ==> r * (Duration(now) as real) == (AckedCount() as real) * 1_000_000_000.0
    {
      PerSecond(AckedCount(), Duration(now))
    }
  }

  function PerSecond(count: U64, elapsed: I64): real {
    var seconds := elapsed as real / 1_000_000_000.0;
    if seconds == 0.0 then 0.0 else count as real / seconds
  }

  /** A baseline of 100 and a current value of 140 over exactly two seconds: 40
      messages, 20 per second. */
  lemma {:induction false} TwoSecondWindow(start: Instant, now: Instant)
    ensures var m := Measurement(start, Some(start + 2_000_000_000), 100, 0, 140, 0);
      m.DeliveredCount() == 40 && m.DeliveredRate(now) == 20.0
  {
    var m := Measurement(start, Some(start + 2_000_000_000), 100, 0, 140, 0);
    assert m.Duration(now) == 2_000_000_000;
  }

  /** The measurement a window opens with: baseline and live counters both taken
      from the snapshot. */
  function Baseline(s: Snapshot, now: Instant): Measurement {
    Measurement(now, None, s.deliveredConsumer, s.ackConsumer, s.deliveredConsumer, s.ackConsumer)
  }

  /** The map a window opens with, after the first n states of the batch. */
  function StartedUpTo(states: seq<ConsumerState>, n: nat, now: Instant): map<string, Measurement>
    requires n <= |states|
  {
    if n == 0 then map[]
    else
      var m := StartedUpTo(states, n - 1, now);
      if states[n - 1].error.Some? then m
      else m[Key(states[n - 1].ref) := Baseline(states[n - 1].snapshot, now)]
  }

  /** Closing a window keeps every key, baseline and live counter, and gives every
      measurement the same end time. */
  function Stopped(m: map<string, Measurement>, endTime: Instant): (s: map<string, Measurement>)
    ensures s.Keys == m.Keys
    ensures forall k :: k in s ==>
      && s[k].endTime == Some(endTime)
      && s[k].startTime == m[k].startTime
      && s[k].startDelivered == m[k].startDelivered && s[k].startAcked == m[k].startAcked
      && s[k].currentDelivered == m[k].currentDelivered && s[k].currentAcked == m[k].currentAcked
  {
    map k | k in m :: m[k].(endTime := Some(endTime))
  }

  /** The live counters of existing measurements, after the first n states of a batch. */
  function UpdatedUpTo(m: map<string, Measurement>, states: seq<ConsumerState>, n: nat): map<string, Measurement>
    requires n <= |states|
  {
    if n == 0 then m
    else
      var u := UpdatedUpTo(m, states, n - 1);
      var s := states[n - 1];
      var key := Key(s.ref);
      if s.error.None? && key in u then
        u[key := u[key].(currentDelivered := s.snapshot.deliveredConsumer, currentAcked := s.snapshot.ackConsumer)]
      else u
  }

  /** What Toggle leaves in the map: a closing window stamps every entry, an opening
      one discards them all and starts afresh from the batch. */
  function Toggled(measuring: bool, m: map<string, Measurement>, states: seq<ConsumerState>, now: Instant)
    : map<string, Measurement>
  {
    if measuring then Stopped(m, now) else StartedUpTo(states, |states|, now)
  }

  /** A measurement as a window opens it: started now, not ended, no progress yet. */
  predicate Fresh(m: Measurement, now: Instant) {
    m.startTime == now && m.endTime.None? && m.startDelivered == m.currentDelivered && m.startAcked == m.currentAcked
  }

  /** State i is the last error-free one for its key among the first n. */
  predicate LastFor(states: seq<ConsumerState>, n: nat, i: nat)
    requires n <= |states|
  {
    && i < n
    && states[i].error.None?
    && forall j :: i < j < n && states[j].error.None? ==> Key(states[j].ref) != Key(states[i].ref)
  }

  /** An opening window has exactly one entry per key of an error-free state of the
      batch; entries from before are gone. */
  lemma {:induction false} StartedKeys(states: seq<ConsumerState>, n: nat, now: Instant)
    requires n <= |states|
    ensures StartedUpTo(states, n, now).Keys == (set i | 0 <= i < n && states[i].error.None? :: Key(states[i].ref))
  {
    if n > 0 {
      StartedKeys(states, n - 1, now);
      var before := set i | 0 <= i < n - 1 && states[i].error.None? :: Key(states[i].ref);
      var after := set i | 0 <= i < n && states[i].error.None? :: Key(states[i].ref);
      if states[n - 1].error.None? {
        assert after == before + {Key(states[n - 1].ref)};
      } else {
        assert after == before;
      }
    }
  }

  /** Each entry of an opening window is the baseline of the last error-free state
      for its key. */
  lemma {:induction false} StartedValues(states: seq<ConsumerState>, n: nat, now: Instant)
    requires n <= |states|
    ensures var m := StartedUpTo(states, n, now);
      forall i :: 0 <= i < n && LastFor(states, n, i) ==>
        Key(states[i].ref) in m && m[Key(states[i].ref)] == Baseline(states[i].snapshot, now)
  {
    if n > 0 {
      StartedValues(states, n - 1, now);
      forall i | 0 <= i < n && LastFor(states, n, i)
        ensures Key(states[i].ref) in StartedUpTo(states, n, now)
        ensures StartedUpTo(states, n, now)[Key(states[i].ref)] == Baseline(states[i].snapshot, now)
      {
        if i < n - 1 {
          assert LastFor(states, n - 1, i);
        }
      }
    }
  }

  /** Every entry of an opening window starts now, has no end time, and has its live
      counters equal to its baseline. */
  lemma {:induction false} StartedFresh(states: seq<ConsumerState>, n: nat, now: Instant)
    requires n <= |states|
    ensures forall k :: k in StartedUpTo(states, n, now) ==> Fresh(StartedUpTo(states, n, now)[k], now)
  {
    if n > 0 {
      StartedFresh(states, n - 1, now);
    }
  }

  /** Update adds no key and changes no baseline, and an entry no error-free state of
      the batch names keeps its live counters too. */
  lemma {:induction false} UpdatedFrame(m: map<string, Measurement>, states: seq<ConsumerState>, n: nat)
    requires n <= |states|
    ensures var u := UpdatedUpTo(m, states, n);
      && u.Keys == m.Keys
      && (forall k :: k in u ==>
            && u[k].startTime == m[k].startTime && u[k].endTime == m[k].endTime
            && u[k].startDelivered == m[k].startDelivered && u[k].startAcked == m[k].startAcked)
      && (forall k :: k in u && (forall i :: 0 <= i < n && states[i].error.None? ==> Key(states[i].ref) != k) ==>
            u[k] == m[k])
  {
    if n > 0 {
      UpdatedFrame(m, states, n - 1);
    }
  }

  /** The entry for the key of the last error-free state takes that state's counters. */
  lemma {:induction false} UpdatedLast(m: map<string, Measurement>, states: seq<ConsumerState>, n: nat, i: nat)
    requires n <= |states| && LastFor(states, n, i) && Key(states[i].ref) in m
    ensures var u := UpdatedUpTo(m, states, n);
      && Key(states[i].ref) in u
      && u[Key(states[i].ref)].currentDelivered == states[i].snapshot.deliveredConsumer
      && u[Key(states[i].ref)].currentAcked == states[i].snapshot.ackConsumer
  {
    UpdatedFrame(m, states, n - 1);
    if i < n - 1 {
      assert LastFor(states, n - 1, i);
      UpdatedLast(m, states, n - 1, i);
    }
  }

  /** Update adds no key and changes only live counters: each entry takes the values
      of the last error-free state for its key, or keeps its own when there is none. */
  lemma {:induction false} UpdatedContents(m: map<string, Measurement>, states: seq<ConsumerState>, n: nat)
    requires n <= |states|
    ensures var u := UpdatedUpTo(m, states, n);
      && u.Keys == m.Keys
      && (forall k :: k in u ==>
            && u[k].startTime == m[k].startTime && u[k].endTime == m[k].endTime
            && u[k].startDelivered == m[k].startDelivered && u[k].startAcked == m[k].startAcked)
      && (forall k :: k in u && (forall i :: 0 <= i < n && states[i].error.None? ==> Key(states[i].ref) != k) ==>
            u[k] == m[k])
      && (forall i :: 0 <= i < n && LastFor(states, n, i) && Key(states[i].ref) in m ==>
            && u[Key(states[i].ref)].currentDelivered == states[i].snapshot.deliveredConsumer
            && u[Key(states[i].ref)].currentAcked == states[i].snapshot.ackConsumer)
  {
    UpdatedFrame(m, states, n);
    forall i | 0 <= i < n && LastFor(states, n, i) && Key(states[i].ref) in m
      ensures UpdatedUpTo(m, states, n)[Key(states[i].ref)].currentDelivered == states[i].snapshot.deliveredConsumer
      ensures UpdatedUpTo(m, states, n)[Key(states[i].ref)].currentAcked == states[i].snapshot.ackConsumer
    {
      UpdatedLast(m, states, n, i);
    }
  }

  /** The tracker: whether a window is open, and the measurements by consumer key. */
  class ThroughputTracker {
    var measuring: bool
    var measurements: map<string, Measurement>

    /** NewThroughputTracker: idle, no measurements. */
    constructor ()
      ensures !measuring && measurements == map[]
    {
      measuring := false;
      measurements := map[];
    }

    method IsMeasuring() returns (b: bool)
      ensures b == measuring
    {
      b := measuring;
    }

    /** Toggle: close an open window, or open a new one from the batch; returns
        whether a window is now open. */
    method Toggle(states: seq<ConsumerState>, now: Instant) returns (nowMeasuring: bool)
      modifies this
      ensures nowMeasuring == !old(measuring) && measuring == nowMeasuring
      ensures measurements == Toggled(old(measuring), old(measurements), states, now)
    {
      if measuring {
        measuring := false;
        var endTime := now;
        ghost var before := measurements;
        var pending := measurements.Keys;
        while pending != {}
          invariant !measuring
          invariant pending <= before.Keys && measurements.Keys == before.Keys
          invariant forall k :: k in measurements ==>
            measurements[k] == if k in pending then before[k] else before[k].(endTime := Some(endTime))
          decreases pending
        {
          var k :| k in pending;
          measurements := measurements[k := measurements[k].(endTime := Some(endTime))];
          pending := pending - {k};
        }
        assert measurements == Stopped(before, endTime);
        return false;
      }
      measuring := true;
      measurements := map[];
      var i := 0;
      while i < |states|
        invariant 0 <= i <= |states|
        invariant measuring
        invariant measurements == StartedUpTo(states, i, now)
      {
        var state := states[i];
        if state.error.None? {
          measurements := measurements[Key(state.ref) := Baseline(state.snapshot, now)];
        }
        i := i + 1;
      }
      return true;
    }

    /** Update: while a window is open, refresh the live counters of the consumers
        already measured; otherwise do nothing. */
    method Update(states: seq<ConsumerState>)
      modifies this
      ensures measuring == old(measuring)
      ensures measurements == if measuring then UpdatedUpTo(old(measurements), states, |states|) else old(measurements)
    {
      if !measuring {
        return;
      }
      ghost var before := measurements;
      var i := 0;
      while i < |states|
        invariant 0 <= i <= |states|
        invariant measuring
        invariant measurements == UpdatedUpTo(before, states, i)
      {
        var state := states[i];
        if state.error.None? {
          var key := Key(state.ref);
          if key in measurements {
            var m := measurements[key];
            measurements := measurements[key := m.(currentDelivered := state.snapshot.deliveredConsumer,
                                                    currentAcked := state.snapshot.ackConsumer)];
          }
        }
        i := i + 1;
      }
    }

    /** Get: a copy of the measurement for a consumer, if there is one. */
    method Get(stream: string, consumer: string) returns (m: Option<Measurement>)
      ensures m.Some? <==> Key(ConsumerRef(stream, consumer)) in measurements
      ensures m.Some? ==> m.value == measurements[Key(ConsumerRef(stream, consumer))]
    {
      var key := stream + "/" + consumer;
      assert key == Key(ConsumerRef(stream, consumer));
      if key in measurements {
        return Some(measurements[key]);
      }
      return None;
    }

    /** Clear: back to idle with no measurements, from any state. */
    method Clear()
      modifies this
      ensures !measuring && measurements == map[]
    {
      measuring := false;
      measurements := map[];
    }
  }

  /** Toggle three times from idle with batches a, b, c: measuring, stopped with the
      first window's entries kept and stamped, then measuring again with baselines
      from c alone. */
  method ToggleCycle(a: seq<ConsumerState>, b: seq<ConsumerState>, c: seq<ConsumerState>, t1: Instant, t2: Instant, t3: Instant)
  {
    var tracker := new ThroughputTracker();
    var on := tracker.Toggle(a, t1);
    assert on && tracker.measurements == StartedUpTo(a, |a|, t1);
    var off := tracker.Toggle(b, t2);
    assert !off && tracker.measurements == Stopped(StartedUpTo(a, |a|, t1), t2);
    var again := tracker.Toggle(c, t3);
    assert again && tracker.measurements == StartedUpTo(c, |c|, t3);
    tracker.Clear();
    assert !tracker.measuring && tracker.measurements == map[];
  }
}
