/** The comparable state of one consumer at one poll. */
module MonitorSnapshot {
  import opened GoInt
  import opened Nats

  /** The fields whose change is worth highlighting. The stream-relative delivered
      sequence is deliberately not among them. */
  datatype Snapshot = Snapshot(
    deliveredConsumer: U64,
    ackConsumer: U64,
    ackStream: U64,
    numAckPending: I64,
    numRedelivered: I64,
    numPending: U64,
    numWaiting: I64)

  /** Go's zero value of Snapshot. */
  const ZeroSnapshot: Snapshot := Snapshot(0, 0, 0, 0, 0, 0, 0)

  function FromConsumerInfo(ci: ConsumerInfo): Snapshot {
    Snapshot(
      ci.delivered.consumer,
      ci.ackFloor.consumer,
      ci.ackFloor.stream,
      ci.numAckPending,
      ci.numRedelivered,
      ci.numPending,
      ci.numWaiting)
  }

  /** Equal, the field-by-field comparison: it is exactly structural equality, so it is
      reflexive and symmetric and a difference in any one field makes it false. */
  function Equal(s: Snapshot, other: Snapshot): (r: bool)
    ensures r <==> s == other
  {
    && s.deliveredConsumer == other.deliveredConsumer
    && s.ackConsumer == other.ackConsumer
    && s.ackStream == other.ackStream
    && s.numAckPending == other.numAckPending
    && s.numRedelivered == other.numRedelivered
    && s.numPending == other.numPending
    && s.numWaiting == other.numWaiting
  }

  /** IsZero holds exactly for the snapshot whose seven fields are all zero. */
  function IsZero(s: Snapshot): (r: bool)
    ensures r <==> s.deliveredConsumer == 0 && s.ackConsumer == 0 && s.ackStream == 0
                   && s.numAckPending == 0 && s.numRedelivered == 0 && s.numPending == 0
                   && s.numWaiting == 0
  {
    s == ZeroSnapshot
  }

  /** Two consumer infos give equal snapshots exactly when they agree on the seven
      copied fields; the stream-relative delivered sequence, the name, the limits
      and the last-activity times play no part. */
  lemma {:induction false} FromConsumerInfoFields(a: ConsumerInfo, b: ConsumerInfo)
    ensures Equal(FromConsumerInfo(a), FromConsumerInfo(b)) <==>
      && a.delivered.consumer == b.delivered.consumer
      && a.ackFloor.consumer == b.ackFloor.consumer
      && a.ackFloor.stream == b.ackFloor.stream
      && a.numAckPending == b.numAckPending
      && a.numRedelivered == b.numRedelivered
      && a.numPending == b.numPending
      && a.numWaiting == b.numWaiting
  {
  }

  /** A change only in the stream-relative delivered sequence is not a change. */
  lemma {:induction false} StreamDeliveredIgnored(ci: ConsumerInfo, streamSeq: U64)
    ensures Equal(FromConsumerInfo(ci), FromConsumerInfo(ci.(delivered := ci.delivered.(stream := streamSeq))))
  {
  }
}
