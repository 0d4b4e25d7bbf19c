/** The filter controls of the page, through the query string, to the filters
    `GET /api/mentees` applies. The page trims the search box with
    JavaScript's notion of white space, the server strips it again with
    Python's; the two differ on a few control characters. */
module SearchFlow {
  import opened Wrappers
  import opened Strings
  import opened MenteeQuery
  import opened MenteesApi

  /** White space for Python's `strip()` that JavaScript's `trim()` keeps:
      U+001C to U+001F and U+0085. */
  predicate StripOnly(c: char)
  {
    IsPySpace(c) && !IsJsSpace(c)
  }

  /** The filters the server plans for the request the page sends: the house
      filter exactly when a house is selected, with that house; a name filter
      only when the page sent a search term; and, unless that term begins or
      ends with a character only Python strips, exactly the term the page
      trimmed. */
  lemma FiltersFromControls(house: string, sortBy: string, sortOrder: string, searchValue: string)
    ensures var p := MenteeParams(house, sortBy, sortOrder, searchValue);
      var f := PlanFilters(Lookup(p, "house"), Lookup(p, "search"));
      var term := JsTrim(searchValue);
      && (f.houseEq.Some? <==> house != "")
      && (house != "" ==> f.houseEq == Some(house))
      && (f.nameLike.Some? ==> term != "")
      && (term != "" && !StripOnly(term[0]) && !StripOnly(term[|term| - 1]) ==> f.nameLike == Some(term))
  {
    MenteeParamsValues(house, sortBy, sortOrder, searchValue);
    var term := JsTrim(searchValue);
    if term != "" && !StripOnly(term[0]) && !StripOnly(term[|term| - 1]) {
      TrimUntouched(term, IsPySpace);
    }
  }

  /** A search box holding a single character only Python strips (U+001C,
      say): the page sends it as a search term, and so shows a search banner,
      while the server strips it to nothing and applies no name filter. */
  lemma StripOnlySearchUnfiltered(house: string, sortBy: string, sortOrder: string, c: char)
    requires StripOnly(c)
    ensures var p := MenteeParams(house, sortBy, sortOrder, [c]);
      && JsTrim([c]) == [c]
      && Lookup(p, "search") == Some([c])
      && PlanFilters(Lookup(p, "house"), Lookup(p, "search")).nameLike == None
  {
    TrimUntouched([c], IsJsSpace);
    MenteeParamsValues(house, sortBy, sortOrder, [c]);
  }
}
