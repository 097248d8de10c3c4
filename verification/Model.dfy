/** The entities of the program. */
module Model {
  import opened Text

  /** Nanoseconds since 0000-01-01T00:00:00Z. */
  type Time = int

  datatype EventStatus = Confirmed | Tentative

  datatype Event = Event(
    uid: string, source: string, sourceId: string, title: string, description: string, location: string, url: string,
    startsAt: Time, endsAt: Time, status: EventStatus, anchor: bool, score: int, createdAt: Time, updatedAt: Time)

  /** NoStatus is Go's empty string, which the store turns into Pending. */
  datatype ReviewStatus = NoStatus | Pending | Approved | Rejected

  /** NoVerification is Go's empty string, which the store turns into Unverified. */
  datatype Verification = NoVerification | Unverified | Verified | Failed

  datatype Candidate = Candidate(
    source: string, title: string, url: string, snippet: string, score: int, discovered: Time,
    status: ReviewStatus, verification: Verification,
    eventTitle: string, startTime: Time, endTime: Time, location: string, description: string,
    evidenceUrl: string, dateEvidence: string, locationEvidence: string, confidence: string, lastError: string,
    verifiedAt: Option<Time>, reviewedAt: Option<Time>, reviewNote: string)
}
