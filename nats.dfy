/** The parts of the NATS client library that the monitor consumes, as plain data:
    the consumer information JetStream returns, the outcome of one fetch of it, and
    the connection options the configuration builds. The network calls themselves
    are not part of this model. */
module Nats {
  import opened Wrappers
  import opened GoInt

  /** A delivered or ack-floor position: consumer- and stream-relative sequence numbers. */
  datatype SequenceInfo = SequenceInfo(consumer: U64, stream: U64, last: Option<Instant>)

  /** The configured limits shown next to the live counts. */
  datatype ConsumerConfig = ConsumerConfig(maxAckPending: I64, maxWaiting: I64)

  /** JetStream's consumer information, reduced to the fields the monitor reads. */
  datatype ConsumerInfo = ConsumerInfo(
    name: string,
    config: ConsumerConfig,
    delivered: SequenceInfo,
    ackFloor: SequenceInfo,
    numAckPending: I64,
    numRedelivered: I64,
    numWaiting: I64,
    numPending: U64)

  /** The outcome of one ConsumerInfo request for one (stream, consumer) pair. */
  datatype FetchResult = Fetched(info: ConsumerInfo) | FetchFailed(reason: string)

  /** Connection options, by the constructor that builds each. */
  datatype ConnectOption =
    | WithServers(servers: seq<string>)
    | UserCredentials(credsFile: string)
    | Token(token: string)
    | UserInfo(user: string, password: string)
    | ClientCert(certFile: string, keyFile: string)
    | RootCAs(caFile: string)
}
