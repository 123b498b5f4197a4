/** What a writer learns about a write to the API server under optimistic concurrency. */
module ApiServer {
  /** Landed and known to have landed; landed although the answer was an error; refused,
      by a conflict or otherwise. */
  datatype WriteAnswer = Acknowledged | Unacknowledged | Refused
}
