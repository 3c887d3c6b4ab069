/** The records that travel between the components. Instants are nanosecond counts. */
module Types {

  /** One observation of a query's statistics (collector.QuerySample). */
  datatype QuerySample = QuerySample(
    queryID: int, text: string, calls: int, totalMs: real, meanMs: real, recordedAt: int, fingerprint: string)

  function RecordedAt(s: QuerySample): int { s.recordedAt }

  /** A normalised deploy event. */
  datatype DeployEvent = DeployEvent(
    id: string, source: string, app: string, cluster: string, namespace: string, revision: string,
    imageTag: string, timestamp: int)

  function Timestamp(ev: DeployEvent): int { ev.timestamp }

  datatype Status = Detected | NoRegression | InsufficientData

  /** The outcome of analysing one query. */
  datatype Regression = Regression(
    eventID: string, queryID: int, text: string, status: Status, confidence: real, meanBefore: real,
    meanAfter: real, changeFactor: real, changeAt: int)
}
