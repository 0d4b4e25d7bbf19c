/** `GET /api/mentees`: filter the mentees table, attach each mentee's
    response count, then sort by the requested field and order. */
module MenteesApi {
  import opened Wrappers
  import opened Strings
  import opened Ordering
  import opened Records
  import StableSort

  /** The filters the query carries: equality on `house_role`, and a
      case-insensitive substring match on `name`. */
  datatype MenteeFilter = MenteeFilter(houseEq: Option<string>, nameLike: Option<string>)

  /** Filter selection: the house filter is added exactly when `house` is
      truthy, and the name filter exactly when `search` is present and not
      blank once stripped, carrying the stripped term. */
  function PlanFilters(house: Option<string>, search: Option<string>): (f: MenteeFilter)
    ensures f.houseEq.Some? <==> Truthy(house)
    ensures f.houseEq.Some? ==> f.houseEq == house
    ensures f.nameLike.Some? <==> search.Some? && PyStrip(search.value) != ""
    ensures f.nameLike.Some? ==>
              && f.nameLike.value == PyStrip(search.value)
              && !IsPySpace(f.nameLike.value[0])
              && !IsPySpace(f.nameLike.value[|f.nameLike.value| - 1])
  {
    MenteeFilter(
      if Truthy(house) then house else None,
      if search.Some? && PyStrip(search.value) != "" then Some(PyStrip(search.value)) else None)
  }

  /** A row passes the filters. `like(name, term)` stands for the database's
      `ilike '%term%'` match, whose semantics are not part of this model. */
  predicate Admits(f: MenteeFilter, like: (string, string) -> bool, row: MenteeRow)
  {
    && (f.houseEq.Some? ==> row.houseRole == f.houseEq)
    && (f.nameLike.Some? ==> like(row.name, f.nameLike.value))
  }

  /** The rows the filtered query returns: those the filters admit, in table order. */
  function Select(table: seq<MenteeRow>, f: MenteeFilter, like: (string, string) -> bool): (r: seq<MenteeRow>)
    ensures |r| <= |table|
    ensures forall row :: row in r <==> row in table && Admits(f, like, row)
  {
    if table == [] then []
    else
      var last := table[|table| - 1];
      assert table == table[..|table| - 1] + [last];
      Select(table[..|table| - 1], f, like) + (if Admits(f, like, last) then [last] else [])
  }

  /** The exact count of response rows belonging to mentee `menteeId`. */
  function ResponseCount(responses: seq<ResponseRow>, menteeId: int): nat
  {
    if responses == [] then 0
    else
      var last := responses[|responses| - 1];
      ResponseCount(responses[..|responses| - 1], menteeId) + (if last.menteeId == menteeId then 1 else 0)
  }

  /** The record built for one mentee row. */
  function Summarise(row: MenteeRow, responses: seq<ResponseRow>): MenteeSummary
  {
    MenteeSummary(row.name, row.discordId, row.houseRole, ResponseCount(responses, row.id))
  }

  /** `mentees_with_counts` before sorting: one record per selected row, in order. */
  function Projected(rows: seq<MenteeRow>, responses: seq<ResponseRow>): seq<MenteeSummary>
  {
    seq(|rows|, i requires 0 <= i < |rows| => Summarise(rows[i], responses))
  }

  /** The fields the list can be sorted on. */
  datatype SortField = ByName | ByHouse | ByCount

  /** The `sort_by` values the endpoint recognises; any other sorts nothing. */
  function ParseSortBy(sortBy: string): Option<SortField>
  {
    if sortBy == "name" then Some(ByName)
    else if sortBy == "house_role" then Some(ByHouse)
    else if sortBy == "response_count" then Some(ByCount)
    else None
  }

  /** The sort key of each field: the lower-cased name, the lower-cased house
      role with null read as "", or the response count. */
  function KeyOf(field: SortField): MenteeSummary -> Key
  {
    match field
    case ByName => (m: MenteeSummary) => Text(Lower(m.name))
    case ByHouse => (m: MenteeSummary) => Text(Lower(if m.houseRole.Some? then m.houseRole.value else ""))
    case ByCount => (m: MenteeSummary) => Count(m.responseCount)
  }

  /** `get_mentees`. The query parameters arrive as present or absent;
      `sort_by` defaults to "name" and `sort_order` to "asc".

      The result is a permutation of the projected rows; sorted by the chosen
      key, descending exactly when `sort_order` is "desc", with equal keys in
      their original order; and left in query order for an unknown `sort_by`. */
  method GetMentees(
    table: seq<MenteeRow>, responses: seq<ResponseRow>, like: (string, string) -> bool,
    house: Option<string>, sortBy: Option<string>, sortOrder: Option<string>, search: Option<string>)
    returns (result: seq<MenteeSummary>)
    ensures var projected := Projected(Select(table, PlanFilters(house, search), like), responses);
      && multiset(result) == multiset(projected)
      && match ParseSortBy(sortBy.GetOr("name"))
         case Some(field) =>
           && StableSort.SortedBy(result, KeyOf(field), sortOrder.GetOr("asc") == "desc")
           && StableSort.StableFrom(result, projected, KeyOf(field))
         case None => result == projected
  {
    var rows := Select(table, PlanFilters(house, search), like);
    var withCounts: seq<MenteeSummary> := [];
    for i := 0 to |rows|
      invariant withCounts == Projected(rows[..i], responses)
    {
      withCounts := withCounts + [Summarise(rows[i], responses)];
    }
    assert rows[..|rows|] == rows;
    var descending := sortOrder.GetOr("asc") == "desc";
    match ParseSortBy(sortBy.GetOr("name"))
    case Some(field) =>
      result := StableSort.Sort(withCounts, KeyOf(field), descending);
    case None =>
      result := withCounts;
  }
}
