/** The poller: one tick fetches every configured consumer, diffs each success against
    the last known snapshot for its key, and yields one batch in configuration order. */
module MonitorPoller {
  import opened Wrappers
  import opened Nats
  import opened Config
  import opened MonitorSnapshot

  /** The state of one monitored consumer after one poll. */
  datatype ConsumerState = ConsumerState(
    ref: ConsumerRef,
    info: Option<ConsumerInfo>,
    snapshot: Snapshot,
    changed: bool,
    error: Option<string>)

  /** The batch built so far in a tick and the last-known-snapshot map after it. */
  datatype Tick = Tick(batch: seq<ConsumerState>, snapshots: map<string, Snapshot>)

  /** One consumer's step: a failed fetch is reported and leaves the map alone; a
      success is compared with the entry for its key, if any, and then stored. */
  function PollOne(snapshots: map<string, Snapshot>, ref: ConsumerRef, result: FetchResult)
    : (s: (ConsumerState, map<string, Snapshot>))
  {
    match result
    case FetchFailed(reason) =>
      (ConsumerState(ref, None, ZeroSnapshot, false, Some(reason)), snapshots)
    case Fetched(ci) =>
      var current := FromConsumerInfo(ci);
      var key := Key(ref);
      var changed := key in snapshots && !Equal(current, snapshots[key]);
      (ConsumerState(ref, Some(ci), current, changed, None), snapshots[key := current])
  }

  /** The first n steps of a tick, in configuration order. */
  function PollUpTo(snapshots: map<string, Snapshot>, refs: seq<ConsumerRef>, results: seq<FetchResult>, n: nat): Tick
    requires |refs| == |results| && n <= |refs|
  {
    if n == 0 then Tick([], snapshots)
    else
      var t := PollUpTo(snapshots, refs, results, n - 1);
      var (s, m) := PollOne(t.snapshots, refs[n - 1], results[n - 1]);
      Tick(t.batch + [s], m)
  }

  /** One whole tick. */
  function PollAll(snapshots: map<string, Snapshot>, refs: seq<ConsumerRef>, results: seq<FetchResult>): Tick
    requires |refs| == |results|
  {
    PollUpTo(snapshots, refs, results, |refs|)
  }

  /** The map consumer i is compared against: the one left by the steps before it. */
  function SeenBy(snapshots: map<string, Snapshot>, refs: seq<ConsumerRef>, results: seq<FetchResult>, i: nat)
    : map<string, Snapshot>
    requires |refs| == |results| && i <= |refs|
  {
    PollUpTo(snapshots, refs, results, i).snapshots
  }

  /** The batch has one element per step. */
  lemma {:induction false} PollUpToLength(snapshots: map<string, Snapshot>, refs: seq<ConsumerRef>, results: seq<FetchResult>, n: nat)
    requires |refs| == |results| && n <= |refs|
    ensures |PollUpTo(snapshots, refs, results, n).batch| == n
  {
    if n > 0 {
      PollUpToLength(snapshots, refs, results, n - 1);
    }
  }

  /** Element i of the batch after n steps is step i's state. */
  lemma {:induction false} PollUpToAt(snapshots: map<string, Snapshot>, refs: seq<ConsumerRef>, results: seq<FetchResult>, n: nat, i: nat)
    requires |refs| == |results| && i < n <= |refs|
    ensures |PollUpTo(snapshots, refs, results, n).batch| == n
    ensures PollUpTo(snapshots, refs, results, n).batch[i] == PollOne(SeenBy(snapshots, refs, results, i), refs[i], results[i]).0
  {
    PollUpToLength(snapshots, refs, results, n - 1);
    var t := PollUpTo(snapshots, refs, results, n - 1);
    var step := PollOne(t.snapshots, refs[n - 1], results[n - 1]);
    assert PollUpTo(snapshots, refs, results, n).batch == t.batch + [step.0];
    if i < n - 1 {
      PollUpToAt(snapshots, refs, results, n - 1, i);
    }
  }

  /** The batch has one element per step, in order, each being that step's state. */
  lemma {:induction false} PollUpToBatch(snapshots: map<string, Snapshot>, refs: seq<ConsumerRef>, results: seq<FetchResult>, n: nat)
    requires |refs| == |results| && n <= |refs|
    ensures |PollUpTo(snapshots, refs, results, n).batch| == n
    ensures forall i :: 0 <= i < n ==>
      PollUpTo(snapshots, refs, results, n).batch[i] == PollOne(SeenBy(snapshots, refs, results, i), refs[i], results[i]).0
  {
    PollUpToLength(snapshots, refs, results, n);
    forall i | 0 <= i < n
      ensures PollUpTo(snapshots, refs, results, n).batch[i] == PollOne(SeenBy(snapshots, refs, results, i), refs[i], results[i]).0
    {
      PollUpToAt(snapshots, refs, results, n, i);
    }
  }

  /** What a tick reports for each consumer: a batch as long as the configuration,
      element i for consumer i; an error exactly when its fetch failed, and then
      no info, a zero snapshot and no change; otherwise the snapshot of what was
      fetched, marked changed exactly when the map already held an entry for its key
      and that entry differs. In particular the first success for a key never counts
      as a change, and a change is never reported together with an error. */
  lemma {:induction false} PollReports(snapshots: map<string, Snapshot>, refs: seq<ConsumerRef>, results: seq<FetchResult>)
    requires |refs| == |results|
    ensures var t := PollAll(snapshots, refs, results);
      && |t.batch| == |refs|
      && forall i :: 0 <= i < |refs| ==>
        var s := t.batch[i];
        var seen := SeenBy(snapshots, refs, results, i);
        && s.ref == refs[i]
        && (s.error.Some? <==> results[i].FetchFailed?)
        && (results[i].FetchFailed? ==>
              s.error == Some(results[i].reason) && s.info.None? && s.snapshot == ZeroSnapshot && !s.changed)
        && (results[i].Fetched? ==>
              && s.info == Some(results[i].info)
              && s.snapshot == FromConsumerInfo(results[i].info)
              && (s.changed <==> Key(refs[i]) in seen && !Equal(s.snapshot, seen[Key(refs[i])])))
        && (s.changed ==> s.error.None?)
  {
    PollUpToBatch(snapshots, refs, results, |refs|);
  }

  /** Keys are only ever added: the map after n steps holds the old keys plus the key
      of every successful fetch, and a key no success touched keeps its old entry. */
  lemma {:induction false} PollUpToKeys(snapshots: map<string, Snapshot>, refs: seq<ConsumerRef>, results: seq<FetchResult>, n: nat)
    requires |refs| == |results| && n <= |refs|
    ensures var m := PollUpTo(snapshots, refs, results, n).snapshots;
      && m.Keys == snapshots.Keys + (set i | 0 <= i < n && results[i].Fetched? :: Key(refs[i]))
      && forall k :: k in snapshots && (forall i :: 0 <= i < n && results[i].Fetched? ==> Key(refs[i]) != k) ==>
           m[k] == snapshots[k]
  {
    if n > 0 {
      PollUpToKeys(snapshots, refs, results, n - 1);
      var before := set i | 0 <= i < n - 1 && results[i].Fetched? :: Key(refs[i]);
      var after := set i | 0 <= i < n && results[i].Fetched? :: Key(refs[i]);
      if results[n - 1].Fetched? {
        assert after == before + {Key(refs[n - 1])};
      } else {
        assert after == before;
      }
    }
  }

  /** After a successful fetch, the map holds its snapshot under its key until a later
      success for the same key overwrites it; failed fetches never alter it. */
  lemma {:induction false} PollUpToLastWrite(snapshots: map<string, Snapshot>, refs: seq<ConsumerRef>, results: seq<FetchResult>, n: nat, i: nat)
    requires |refs| == |results| && i < n <= |refs|
    requires results[i].Fetched?
    requires forall j :: i < j < n && results[j].Fetched? ==> Key(refs[j]) != Key(refs[i])
    ensures var m := PollUpTo(snapshots, refs, results, n).snapshots;
      Key(refs[i]) in m && m[Key(refs[i])] == FromConsumerInfo(results[i].info)
  {
    if n - 1 > i {
      PollUpToLastWrite(snapshots, refs, results, n - 1, i);
    }
  }

  /** When the configured consumers have pairwise distinct keys, every success is
      compared with the entry the map held before the tick, and ends the tick stored. */
  lemma {:induction false} PollDistinctKeys(snapshots: map<string, Snapshot>, refs: seq<ConsumerRef>, results: seq<FetchResult>)
    requires |refs| == |results|
    requires forall i, j :: 0 <= i < j < |refs| ==> Key(refs[i]) != Key(refs[j])
    ensures var t := PollAll(snapshots, refs, results);
      |t.batch| == |refs| &&
      forall i :: 0 <= i < |refs| && results[i].Fetched? ==>
        var key := Key(refs[i]);
        && (t.batch[i].changed <==> key in snapshots && !Equal(t.batch[i].snapshot, snapshots[key]))
        && key in t.snapshots && t.snapshots[key] == t.batch[i].snapshot
  {
    PollReports(snapshots, refs, results);
    forall i | 0 <= i < |refs| && results[i].Fetched?
      ensures var seen := SeenBy(snapshots, refs, results, i);
        (Key(refs[i]) in seen <==> Key(refs[i]) in snapshots)
        && (Key(refs[i]) in snapshots ==> seen[Key(refs[i])] == snapshots[Key(refs[i])])
      ensures var m := PollAll(snapshots, refs, results).snapshots;
        Key(refs[i]) in m && m[Key(refs[i])] == FromConsumerInfo(results[i].info)
    {
      PollUpToKeys(snapshots, refs, results, i);
      PollUpToLastWrite(snapshots, refs, results, |refs|, i);
    }
  }

  /** A failed fetch of a consumer whose key no other consumer shares leaves its entry
      as it was, so the next tick compares with the last success before the failure. */
  lemma {:induction false} PollErrorKeepsHistory(snapshots: map<string, Snapshot>, refs: seq<ConsumerRef>, results: seq<FetchResult>, i: nat)
    requires |refs| == |results| && i < |refs|
    requires results[i].FetchFailed?
    requires forall j :: 0 <= j < |refs| && j != i ==> Key(refs[j]) != Key(refs[i])
    ensures var m := PollAll(snapshots, refs, results).snapshots;
      (Key(refs[i]) in m <==> Key(refs[i]) in snapshots)
      && (Key(refs[i]) in snapshots ==> m[Key(refs[i])] == snapshots[Key(refs[i])])
  {
    PollUpToKeys(snapshots, refs, results, |refs|);
  }

  /** Two ticks over consumers A, B and C: A and C succeed and B fails in the first;
      in the second A repeats its snapshot, B succeeds for the first time and C changes.
      Only C is reported as changed, and only in the second tick. */
  lemma {:induction false} TwoTickScenario(s1: ConsumerInfo, s2: ConsumerInfo, reason: string)
    requires FromConsumerInfo(s1) != FromConsumerInfo(s2)
    ensures var refs := [ConsumerRef("S", "A"), ConsumerRef("S", "B"), ConsumerRef("S", "C")];
      var t1 := PollAll(map[], refs, [Fetched(s1), FetchFailed(reason), Fetched(s1)]);
      var t2 := PollAll(t1.snapshots, refs, [Fetched(s1), Fetched(s2), Fetched(s2)]);
      && |t1.batch| == 3 && |t2.batch| == 3
      && !t1.batch[0].changed && t1.batch[1].error == Some(reason) && !t1.batch[2].changed
      && !t2.batch[0].changed && !t2.batch[1].changed && t2.batch[2].changed
  {
    var refs := [ConsumerRef("S", "A"), ConsumerRef("S", "B"), ConsumerRef("S", "C")];
    var r1 := [Fetched(s1), FetchFailed(reason), Fetched(s1)];
    var r2 := [Fetched(s1), Fetched(s2), Fetched(s2)];
    assert Key(refs[0]) == "S/A" && Key(refs[1]) == "S/B" && Key(refs[2]) == "S/C";
    var t1 := PollAll(map[], refs, r1);
    PollReports(map[], refs, r1);
    PollDistinctKeys(map[], refs, r1);
    PollErrorKeepsHistory(map[], refs, r1, 1);
    PollReports(t1.snapshots, refs, r2);
    PollDistinctKeys(t1.snapshots, refs, r2);
    var t2 := PollAll(t1.snapshots, refs, r2);
    assert !t1.batch[0].changed && t1.batch[1].error == Some(reason) && !t1.batch[2].changed;
    assert "S/B" !in t1.snapshots;
    assert "S/A" in t1.snapshots && t1.snapshots["S/A"] == FromConsumerInfo(s1);
    assert "S/C" in t1.snapshots && t1.snapshots["S/C"] == FromConsumerInfo(s1);
    assert !t2.batch[0].changed;
    assert !t2.batch[1].changed;
    assert t2.batch[2].changed;
  }

  /** The poller: the configured consumers and the last-known-snapshot map. */
  class Poller {
    const consumers: seq<ConsumerRef>
    var snapshots: map<string, Snapshot>

    /** NewPoller: the map starts empty. */
    constructor (consumers: seq<ConsumerRef>)
      ensures this.consumers == consumers
      ensures snapshots == map[]
    {
      this.consumers := consumers;
      snapshots := map[];
    }

    /** poll: `fetch[i]` is what ConsumerInfo returned for consumers[i] in this tick. */
    method Poll(fetch: seq<FetchResult>) returns (batch: seq<ConsumerState>)
      requires |fetch| == |consumers|
      modifies this
      ensures Tick(batch, snapshots) == PollAll(old(snapshots), consumers, fetch)
      ensures |batch| == |consumers|
      ensures forall i :: 0 <= i < |consumers| ==> batch[i].ref == consumers[i]
      ensures old(snapshots).Keys <= snapshots.Keys
    {
      ghost var start := snapshots;
      var states := new ConsumerState[|consumers|];
      var i := 0;
      while i < |consumers|
        invariant 0 <= i <= |consumers|
        invariant Tick(states[..i], snapshots) == PollUpTo(start, consumers, fetch, i)
      {
        var c := consumers[i];
        var key := Key(c);
        match fetch[i] {
          case FetchFailed(reason) =>
            states[i] := ConsumerState(c, None, ZeroSnapshot, false, Some(reason));
          case Fetched(ci) =>
            var current := FromConsumerInfo(ci);
            var hasPrev := key in snapshots;
            var changed := hasPrev && !Equal(current, snapshots[key]);
            snapshots := snapshots[key := current];
            states[i] := ConsumerState(c, Some(ci), current, changed, None);
        }
        assert states[..i + 1] == states[..i] + [states[i]];
        i := i + 1;
      }
      batch := states[..];
      assert batch == states[..|consumers|];
      PollReports(start, consumers, fetch);
      PollUpToKeys(start, consumers, fetch, |consumers|);
    }
  }
}
