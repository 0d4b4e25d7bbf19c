/** `GET /api/mentees/{discord_id}/responses`: look the mentee up by Discord
    id, fetch that mentee's responses newest week first, and format each row. */
module ResponsesApi {
  import opened Wrappers
  import opened Ordering
  import opened Records
  import StableSort
  import MenteesApi

  /** The first mentee row with this Discord id, in table order. */
  function FirstWithDiscordId(table: seq<MenteeRow>, discordId: string): (r: Option<MenteeRow>)
    ensures r.None? <==> forall row :: row in table ==> row.discordId != discordId
    ensures r.Some? ==> r.value in table && r.value.discordId == discordId
  {
    if table == [] then None
    else if table[0].discordId == discordId then Some(table[0])
    else FirstWithDiscordId(table[1..], discordId)
  }

  /** The response rows of mentee `menteeId`, in table order. */
  function OfMentee(responses: seq<ResponseRow>, menteeId: int): (r: seq<ResponseRow>)
    ensures forall row :: row in r <==> row in responses && row.menteeId == menteeId
  {
    if responses == [] then []
    else
      var last := responses[|responses| - 1];
      assert responses == responses[..|responses| - 1] + [last];
      OfMentee(responses[..|responses| - 1], menteeId) + (if last.menteeId == menteeId then [last] else [])
  }

  /** The response count `GET /api/mentees` attaches to a mentee is the
      number of rows this endpoint returns for it. */
  lemma {:induction false} CountIsResponses(responses: seq<ResponseRow>, menteeId: int)
    ensures MenteesApi.ResponseCount(responses, menteeId) == |OfMentee(responses, menteeId)|
  {
    if responses != [] {
      CountIsResponses(responses[..|responses| - 1], menteeId);
    }
  }

  /** The ordering key of the responses query: the week number. */
  function WeekKey(row: ResponseRow): Key
  {
    Count(row.weekNumber)
  }

  /** The responses query: the mentee's rows ordered by `week_number`
      descending. Rows of the same week keep their table order. */
  method QueryResponses(responses: seq<ResponseRow>, menteeId: int) returns (rows: seq<ResponseRow>)
    ensures multiset(rows) == multiset(OfMentee(responses, menteeId))
    ensures forall i, j :: 0 <= i < j < |rows| ==> rows[i].weekNumber >= rows[j].weekNumber
    ensures StableSort.StableFrom(rows, OfMentee(responses, menteeId), WeekKey)
  {
    rows := StableSort.Sort(OfMentee(responses, menteeId), WeekKey, true);
  }

  /** The `created_at` value of a formatted row: the parsed timestamp when the
      row has a truthy one, the request time otherwise. Parsing may fail. */
  function CreatedAt(row: ResponseRow, parseIso: string -> Result<Instant, string>, now: Instant): Result<Instant, string>
  {
    if Truthy(row.createdAt) then parseIso(row.createdAt.value) else Success(now)
  }

  /** The loop over the query rows. Each row gives one record, in order, with
      its id, week, text and voice URL unchanged; the first timestamp that
      fails to parse aborts the request with a 500. */
  method FormatResponses(rows: seq<ResponseRow>, parseIso: string -> Result<Instant, string>, now: Instant)
    returns (r: Result<seq<ResponseDetail>, HttpError>)
    ensures r.Success? <==> forall i :: 0 <= i < |rows| ==> CreatedAt(rows[i], parseIso, now).Success?
    ensures r.Success? ==> |r.value| == |rows| && forall i :: 0 <= i < |rows| ==>
      var row := rows[i];
      r.value[i] == ResponseDetail(row.id, row.weekNumber, row.textResponse, row.voiceResponseUrl,
                                   CreatedAt(row, parseIso, now).value)
    ensures r.Failure? ==>
              exists i :: && 0 <= i < |rows|
                          && CreatedAt(rows[i], parseIso, now).Failure?
                          && (forall j :: 0 <= j < i ==> CreatedAt(rows[j], parseIso, now).Success?)
                          && r.error == HttpError(500, "Error fetching responses: " + CreatedAt(rows[i], parseIso, now).error)
  {
    var formatted: seq<ResponseDetail> := [];
    for i := 0 to |rows|
      invariant |formatted| == i
      invariant forall j :: 0 <= j < i ==> CreatedAt(rows[j], parseIso, now).Success?
      invariant forall j :: 0 <= j < i ==>
        formatted[j] == ResponseDetail(rows[j].id, rows[j].weekNumber, rows[j].textResponse,
                                       rows[j].voiceResponseUrl, CreatedAt(rows[j], parseIso, now).value)
    {
      var row := rows[i];
      var createdAt := CreatedAt(row, parseIso, now);
      if createdAt.Failure? {
        return Failure(HttpError(500, "Error fetching responses: " + createdAt.error));
      }
      formatted := formatted + [ResponseDetail(row.id, row.weekNumber, row.textResponse,
                                               row.voiceResponseUrl, createdAt.value)];
    }
    r := Success(formatted);
  }

  /** `get_mentee_responses`. An unknown Discord id is a 404, re-raised as it
      is rather than turned into a 500. Otherwise `rows` is the responses
      query of the first matching mentee: its rows, newest week first, rows
      of one week in table order. The reply then holds one record per row of
      `rows`, in that order, when every timestamp parses, and is a 500 naming
      the first timestamp in `rows` that does not. */
  method GetMenteeResponses(
    discordId: string, table: seq<MenteeRow>, responses: seq<ResponseRow>,
    parseIso: string -> Result<Instant, string>, now: Instant)
    returns (r: Result<seq<ResponseDetail>, HttpError>, ghost rows: seq<ResponseRow>)
    ensures r.Failure? && r.error.status == 404
      <==> forall row :: row in table ==> row.discordId != discordId
    ensures r.Failure? && r.error.status == 404 ==> r.error.detail == "Mentee not found"
    ensures r.Failure? ==> r.error.status == 404 || r.error.status == 500
    ensures var mentee := FirstWithDiscordId(table, discordId);
      mentee.Some? ==>
        var mine := OfMentee(responses, mentee.value.id);
        && multiset(rows) == multiset(mine)
        && (forall i, j :: 0 <= i < j < |rows| ==> rows[i].weekNumber >= rows[j].weekNumber)
        && StableSort.StableFrom(rows, mine, WeekKey)
        && (r.Success? <==> forall row :: row in mine ==> CreatedAt(row, parseIso, now).Success?)
        && (r.Success? ==> |r.value| == |rows| && forall i :: 0 <= i < |rows| ==>
              && CreatedAt(rows[i], parseIso, now).Success?
              && r.value[i] == ResponseDetail(rows[i].id, rows[i].weekNumber, rows[i].textResponse,
                                           rows[i].voiceResponseUrl, CreatedAt(rows[i], parseIso, now).value))
        && (r.Failure? ==> exists i ::
              && 0 <= i < |rows|
              && CreatedAt(rows[i], parseIso, now).Failure?
              && (forall j :: 0 <= j < i ==> CreatedAt(rows[j], parseIso, now).Success?)
              && r.error == HttpError(500, "Error fetching responses: " + CreatedAt(rows[i], parseIso, now).error))
  {
    var mentee := FirstWithDiscordId(table, discordId);
    if mentee.None? {
      return Failure(HttpError(404, "Mentee not found")), [];
    }
    var mine := OfMentee(responses, mentee.value.id);
    var found := QueryResponses(responses, mentee.value.id);
    rows := found;
    r := FormatResponses(found, parseIso, now);
    SameRowsParse(found, mine, parseIso, now);
  }

  /** Two lists holding the same rows either both parse in full or both do not. */
  lemma SameRowsParse(xs: seq<ResponseRow>, ys: seq<ResponseRow>, parseIso: string -> Result<Instant, string>, now: Instant)
    requires multiset(xs) == multiset(ys)
    ensures (forall i :: 0 <= i < |xs| ==> CreatedAt(xs[i], parseIso, now).Success?)
        <==> (forall row :: row in ys ==> CreatedAt(row, parseIso, now).Success?)
  {
    forall row | row in ys
      ensures row in xs
    {
      assert row in multiset(ys);
    }
    forall row | row in xs
      ensures row in ys
    {
      assert row in multiset(xs);
    }
  }
}
