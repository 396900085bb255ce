/** The original single-file monitor: one fixed grid of views and, on every tick,
    one ConsumerInfo request per consumer. Each consumer keeps the snapshot of its
    last successful request, and a view flashes when a later request returns a
    different snapshot. Its number formatting, context loading and consumer-file
    loading are the same code as the packaged versions and are modelled there. */
module LegacyMain {
  import opened Wrappers
  import opened GoInt
  import opened Nats
  import MonitorSnapshot

  /** consumerSnapshot: eleven fields, the last one saying whether the slot has ever
      been filled by a successful request. */
  datatype LegacySnapshot = LegacySnapshot(
    deliveredConsumer: U64,
    deliveredStream: U64,
    ackConsumer: U64,
    ackStream: U64,
    numAckPending: I64,
    maxAckPending: I64,
    numRedelivered: I64,
    numPending: I64,
    numWaiting: I64,
    maxWaiting: I64,
    initialized: bool)

  /** The zero value every slot of `prev` starts with. */
  const ZeroLegacy: LegacySnapshot := LegacySnapshot(0, 0, 0, 0, 0, 0, 0, 0, 0, 0, false)

  /** equal: the field-by-field comparison, which is exactly structural equality. */
  function Equal(c: LegacySnapshot, other: LegacySnapshot): (r: bool)
    ensures r <==> c == other
  {
    && c.deliveredConsumer == other.deliveredConsumer
    && c.deliveredStream == other.deliveredStream
    && c.ackConsumer == other.ackConsumer
    && c.ackStream == other.ackStream
    && c.numAckPending == other.numAckPending
    && c.maxAckPending == other.maxAckPending
    && c.numRedelivered == other.numRedelivered
    && c.numPending == other.numPending
    && c.numWaiting == other.numWaiting
    && c.maxWaiting == other.maxWaiting
    && c.initialized == other.initialized
  }

  /** The snapshot a successful request yields; the pending count goes through the
      conversion int(uint64). */
  function SnapOf(ci: ConsumerInfo): LegacySnapshot {
    LegacySnapshot(
      ci.delivered.consumer,
      ci.delivered.stream,
      ci.ackFloor.consumer,
      ci.ackFloor.stream,
      ci.numAckPending,
      ci.config.maxAckPending,
      ci.numRedelivered,
      ToI64(ci.numPending),
      ci.numWaiting,
      ci.config.maxWaiting,
      true)
  }

  /** Two requests give the same snapshot exactly when they agree on every copied
      field: the conversion of the pending count loses nothing. */
  lemma {:induction false} SnapOfFields(a: ConsumerInfo, b: ConsumerInfo)
    ensures SnapOf(a) == SnapOf(b) <==>
      && a.delivered.consumer == b.delivered.consumer && a.delivered.stream == b.delivered.stream
      && a.ackFloor.consumer == b.ackFloor.consumer && a.ackFloor.stream == b.ackFloor.stream
      && a.numAckPending == b.numAckPending && a.config.maxAckPending == b.config.maxAckPending
      && a.numRedelivered == b.numRedelivered && a.numPending == b.numPending
      && a.numWaiting == b.numWaiting && a.config.maxWaiting == b.config.maxWaiting
  {
    ToI64Injective(a.numPending, b.numPending);
  }

  /** One consumer's step of the tick loop: its new `prev` slot and whether its view
      flashes. A failed request leaves the slot alone and never flashes; a successful
      one fills the slot and flashes exactly when the slot had been filled before with
      something else. */
  function TickOne(prev: LegacySnapshot, r: FetchResult): (res: (LegacySnapshot, bool))
    ensures r.FetchFailed? ==> res == (prev, false)
    ensures r.Fetched? ==> res.0 == SnapOf(r.info) && res.0.initialized
    ensures r.Fetched? ==> (res.1 <==> prev.initialized && res.0 != prev)
  {
    match r
    case FetchFailed(_) => (prev, false)
    case Fetched(ci) =>
      var snap := SnapOf(ci);
      var flashNeeded := prev.initialized && !Equal(snap, prev);
      (snap, flashNeeded)
  }

  /** make([]consumerSnapshot, n): every slot holds the zero value. */
  method NewPrev(n: nat) returns (prev: array<LegacySnapshot>)
    ensures fresh(prev) && prev.Length == n
    ensures forall i :: 0 <= i < n ==> prev[i] == ZeroLegacy
  {
    prev := new LegacySnapshot[n](_ => ZeroLegacy);
  }

  /** The body of one tick: every consumer in order, with the outcome of its request. */
  method Tick(prev: array<LegacySnapshot>, fetch: seq<FetchResult>) returns (flashes: seq<bool>)
    requires prev.Length == |fetch|
    modifies prev
    ensures |flashes| == |fetch|
    ensures forall i :: 0 <= i < |fetch| ==> (prev[i], flashes[i]) == TickOne(old(prev[i]), fetch[i])
  {
    flashes := [];
    for i := 0 to |fetch|
      invariant |flashes| == i
      invariant forall k :: 0 <= k < i ==> (prev[k], flashes[k]) == TickOne(old(prev[k]), fetch[k])
      invariant forall k :: i <= k < |fetch| ==> prev[k] == old(prev[k])
    {
      match fetch[i]
      case FetchFailed(_) =>
        flashes := flashes + [false];
      case Fetched(ci) =>
        var snap := SnapOf(ci);
        var flashNeeded := prev[i].initialized && !Equal(snap, prev[i]);
        prev[i] := snap;
        flashes := flashes + [flashNeeded];
    }
  }

  /** One consumer over successive ticks from slot `start`: the final slot and the
      flash decision of each tick. */
  function Run(start: LegacySnapshot, rs: seq<FetchResult>): (LegacySnapshot, seq<bool>) {
    if rs == [] then (start, [])
    else
      var before := Run(start, rs[..|rs| - 1]);
      var step := TickOne(before.0, rs[|rs| - 1]);
      (step.0, before.1 + [step.1])
  }

  /** A tick extends a consumer's run by one request: Tick applied to slot `i` holding
      Run(start, rs).0 leaves Run(start, rs + [r]).0 there and decides the run's last flash. */
  lemma {:induction false} RunExtends(start: LegacySnapshot, rs: seq<FetchResult>, r: FetchResult)
    ensures Run(start, rs + [r]).0 == TickOne(Run(start, rs).0, r).0
    ensures Run(start, rs + [r]).1 == Run(start, rs).1 + [TickOne(Run(start, rs).0, r).1]
  {
    assert (rs + [r])[..|rs|] == rs;
  }

  /** The information of the last successful request among `rs`, if any. */
  function LastSuccess(rs: seq<FetchResult>): Option<ConsumerInfo> {
    if rs == [] then None
    else if rs[|rs| - 1].Fetched? then Some(rs[|rs| - 1].info)
    else LastSuccess(rs[..|rs| - 1])
  }

  /** The slot as the tick loop leaves it after the requests `rs`. */
  function SlotAfter(rs: seq<FetchResult>): LegacySnapshot {
    match LastSuccess(rs)
    case None => ZeroLegacy
    case Some(ci) => SnapOf(ci)
  }

  /** From the zero slot, the slot holds the snapshot of the last successful request,
      or the zero value when every request so far failed, and there is one decision
      per request. */
  lemma {:induction false} RunState(rs: seq<FetchResult>)
    ensures Run(ZeroLegacy, rs).0 == SlotAfter(rs)
    ensures |Run(ZeroLegacy, rs).1| == |rs|
  {
    if rs != [] {
      RunState(rs[..|rs| - 1]);
    }
  }

  /** Request k flashes its view exactly when it succeeds, an earlier request
      succeeded, and the last earlier success gave a different snapshot. In
      particular the first success never flashes. */
  lemma {:induction false} RunFlashes(rs: seq<FetchResult>, k: nat)
    requires k < |rs|
    ensures |Run(ZeroLegacy, rs).1| == |rs|
    ensures Run(ZeroLegacy, rs).1[k] <==>
      && rs[k].Fetched?
      && LastSuccess(rs[..k]).Some?
      && SnapOf(LastSuccess(rs[..k]).value) != SnapOf(rs[k].info)
  {
    RunState(rs);
    var front := rs[..|rs| - 1];
    RunState(front);
    if k < |rs| - 1 {
      RunFlashes(front, k);
      assert front[..k] == rs[..k];
      assert front[k] == rs[k];
    } else {
      assert rs[..k] == front;
    }
  }

  /** A first successful request never flashes, whatever failed before it. */
  lemma {:induction false} FirstSuccessNeverFlashes(rs: seq<FetchResult>, k: nat)
    requires k < |rs| && rs[k].Fetched?
    requires forall j :: 0 <= j < k ==> rs[j].FetchFailed?
    ensures |Run(ZeroLegacy, rs).1| == |rs|
    ensures !Run(ZeroLegacy, rs).1[k]
  {
    RunFlashes(rs, k);
    NoSuccess(rs[..k]);
  }

  lemma {:induction false} NoSuccess(rs: seq<FetchResult>)
    requires forall j :: 0 <= j < |rs| ==> rs[j].FetchFailed?
    ensures LastSuccess(rs).None?
  {
    if rs != [] {
      NoSuccess(rs[..|rs| - 1]);
    }
  }

  /** Unlike the packaged poller, the single-file loop compares the stream-relative
      delivered sequence and the configured limits: a change in only those flashes
      here and is no change there. */
  lemma {:induction false} WiderComparison(ci: ConsumerInfo, streamSeq: U64, maxAck: I64)
    requires streamSeq != ci.delivered.stream || maxAck != ci.config.maxAckPending
    ensures var ci2 := ci.(delivered := ci.delivered.(stream := streamSeq),
                           config := ci.config.(maxAckPending := maxAck));
      && TickOne(SnapOf(ci), Fetched(ci2)).1
      && MonitorSnapshot.Equal(MonitorSnapshot.FromConsumerInfo(ci), MonitorSnapshot.FromConsumerInfo(ci2))
  {
    var ci2 := ci.(delivered := ci.delivered.(stream := streamSeq),
                   config := ci.config.(maxAckPending := maxAck));
    assert SnapOf(ci2).deliveredStream == streamSeq;
    assert SnapOf(ci2).maxAckPending == maxAck;
  }
}
