/** The query string `fetchMentees` builds from the filter controls, and how
    the server reads a parameter back from it. */
module MenteeQuery {
  import opened Wrappers
  import opened Strings

  /** One `name=value` pair of a `URLSearchParams`. */
  type Param = (string, string)

  /** The names of the parameters, in order. */
  function Names(p: seq<Param>): seq<string>
  {
    seq(|p|, i requires 0 <= i < |p| => p[i].0)
  }

  /** The value the server receives for `name`: absent gives None; a repeated
      name gives its last value. */
  function Lookup(p: seq<Param>, name: string): Option<string>
  {
    if p == [] then None
    else if p[|p| - 1].0 == name then Some(p[|p| - 1].1)
    else Lookup(p[..|p| - 1], name)
  }

  /** The parameters of `GET /api/mentees`: `sort_by` and `sort_order` always,
      then `house` only for a selected house, then `search` only when the
      trimmed search box is non-empty. */
  function MenteeParams(house: string, sortBy: string, sortOrder: string, searchValue: string): (p: seq<Param>)
    ensures Names(p) == ["sort_by", "sort_order"]
      + (if house != "" then ["house"] else [])
      + (if JsTrim(searchValue) != "" then ["search"] else [])
  {
    ParamsFor(house, sortBy, sortOrder, JsTrim(searchValue))
  }

  /** The parameter list for an already trimmed search term. */
  function ParamsFor(house: string, sortBy: string, sortOrder: string, term: string): seq<Param>
  {
    var base := [("sort_by", sortBy), ("sort_order", sortOrder)];
    var withHouse := if house != "" then base + [("house", house)] else base;
    if term != "" then withHouse + [("search", term)] else withHouse
  }

  /** What the server reads from those parameters: both sort settings as
      chosen, the house exactly when one is selected, and the trimmed search
      term exactly when it is non-empty. */
  lemma MenteeParamsValues(house: string, sortBy: string, sortOrder: string, searchValue: string)
    ensures var p := MenteeParams(house, sortBy, sortOrder, searchValue);
      && Lookup(p, "sort_by") == Some(sortBy)
      && Lookup(p, "sort_order") == Some(sortOrder)
      && Lookup(p, "house") == (if house != "" then Some(house) else None)
      && Lookup(p, "search") == (if JsTrim(searchValue) != "" then Some(JsTrim(searchValue)) else None)
  {
    ParamsForValues(house, sortBy, sortOrder, JsTrim(searchValue));
  }

  lemma ParamsForValues(house: string, sortBy: string, sortOrder: string, term: string)
    ensures var p := ParamsFor(house, sortBy, sortOrder, term);
      && Lookup(p, "sort_by") == Some(sortBy)
      && Lookup(p, "sort_order") == Some(sortOrder)
      && Lookup(p, "house") == (if house != "" then Some(house) else None)
      && Lookup(p, "search") == (if term != "" then Some(term) else None)
  {
    var base := [("sort_by", sortBy), ("sort_order", sortOrder)];
    assert base == [("sort_by", sortBy)] + [("sort_order", sortOrder)];
    assert [("sort_by", sortBy)] == [] + [("sort_by", sortBy)];
    LookupLast([("sort_by", sortBy)], ("sort_order", sortOrder));
    LookupSkip([("sort_by", sortBy)], ("sort_order", sortOrder), "sort_by");
    LookupSkip([], ("sort_by", sortBy), "house");
    LookupSkip([("sort_by", sortBy)], ("sort_order", sortOrder), "house");
    LookupSkip([], ("sort_by", sortBy), "search");
    LookupSkip([("sort_by", sortBy)], ("sort_order", sortOrder), "search");
    var withHouse := if house != "" then base + [("house", house)] else base;
    if house != "" {
      LookupLast(base, ("house", house));
      LookupSkip(base, ("house", house), "sort_by");
      LookupSkip(base, ("house", house), "sort_order");
      LookupSkip(base, ("house", house), "search");
    }
    if term != "" {
      LookupLast(withHouse, ("search", term));
      LookupSkip(withHouse, ("search", term), "sort_by");
      LookupSkip(withHouse, ("search", term), "sort_order");
      LookupSkip(withHouse, ("search", term), "house");
    }
  }

  lemma LookupLast(p: seq<Param>, x: Param)
    ensures Lookup(p + [x], x.0) == Some(x.1)
  {
  }

  lemma LookupSkip(p: seq<Param>, x: Param, name: string)
    requires x.0 != name
    ensures Lookup(p + [x], name) == Lookup(p, name)
  {
    assert (p + [x])[..|p|] == p;
  }
}
