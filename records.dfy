/** The records the two programs exchange, and the database rows behind them. */
module Records {
  import opened Wrappers

  /** One element of the `/api/mentees` reply (`MenteeResponse` on the server,
      a mentee object on the client). */
  datatype MenteeSummary = MenteeSummary(
    name: string,
    discordId: string,
    houseRole: Option<string>,
    responseCount: nat)

  /** One element of the `/api/mentees/{discord_id}/responses` reply as the
      client reads it; `createdAt` is the serialised timestamp. */
  datatype ResponseRecord = ResponseRecord(
    weekNumber: int,
    createdAt: string,
    textResponse: Option<string>,
    voiceResponseUrl: Option<string>)

  /** A row of the `mentees` table. */
  datatype MenteeRow = MenteeRow(
    id: int,
    name: string,
    discordId: string,
    houseRole: Option<string>)

  /** A row of the `responses` table. */
  datatype ResponseRow = ResponseRow(
    id: int,
    menteeId: int,
    weekNumber: int,
    textResponse: Option<string>,
    voiceResponseUrl: Option<string>,
    createdAt: Option<string>)

  /** A point in time, as the server's `datetime` values stand for one. */
  datatype Instant = Instant(ticks: int)

  /** One element of the responses reply as the server builds it (`ResponseDetail`). */
  datatype ResponseDetail = ResponseDetail(
    id: int,
    weekNumber: int,
    textResponse: Option<string>,
    voiceResponseUrl: Option<string>,
    createdAt: Instant)

  /** An HTTP error the server raises (`HTTPException`). */
  datatype HttpError = HttpError(status: nat, detail: string)
}
