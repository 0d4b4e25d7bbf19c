/** The mentee list: `fetchMentees` shows a placeholder and then either the
    rendered list or an error; `renderMentees` builds the list. */
module MenteeListView {
  import opened Wrappers
  import opened Strings
  import opened Records
  import opened Http
  import opened HtmlEscape
  import MenteeQuery

  /** What the list container shows. Texts taken from the server are escaped;
      the Discord id is carried as received. An entry also keeps the raw name
      its click handler passes on. */
  datatype ListItem =
    | Loading
    | SearchBanner(count: nat, noun: string, term: string)
    | NoResults(message: string)
    | Entry(discordId: string, rawName: string, name: string, badge: Option<string>, responseCount: nat)
    | LoadError(message: string)

  /** Shown for an empty list when no search is active. */
  const NoMatchesMessage := "No mentees found matching your criteria."

  /** Shown for an empty list when a search is active, quoting the escaped term. */
  function NoSearchMatchesMessage(escapedTerm: string): string
  {
    "No mentees found matching \"" + escapedTerm + "\". Try a different search term."
  }

  /** The banner over the results of a search. */
  function Banner(count: nat, term: string): ListItem
  {
    SearchBanner(count, if count != 1 then "mentees" else "mentee", Escape(term))
  }

  /** The entry for one mentee; it has a house badge exactly when the house
      role is truthy. */
  function EntryFor(m: MenteeSummary): ListItem
  {
    Entry(m.discordId, m.name, Escape(m.name),
          if Truthy(m.houseRole) then Some(Escape(m.houseRole.value)) else None,
          m.responseCount)
  }

  /** One entry per mentee, in order. */
  function Entries(ms: seq<MenteeSummary>): seq<ListItem>
  {
    if ms == [] then [] else Entries(ms[..|ms| - 1]) + [EntryFor(ms[|ms| - 1])]
  }

  /** The message for an empty list. */
  function EmptyMessage(term: string): string
  {
    if term != "" then NoSearchMatchesMessage(Escape(term)) else NoMatchesMessage
  }

  /** What `renderMentees` leaves for the trimmed search term `term`: a banner
      when searching, then the empty message or the entries. */
  function MenteeListing(ms: seq<MenteeSummary>, term: string): seq<ListItem>
  {
    (if term != "" then [Banner(|ms|, term)] else [])
    + (if ms == [] then [NoResults(EmptyMessage(term))] else Entries(ms))
  }

  lemma {:induction false} EntriesAt(ms: seq<MenteeSummary>)
    ensures |Entries(ms)| == |ms|
    ensures forall i :: 0 <= i < |ms| ==> Entries(ms)[i] == EntryFor(ms[i])
  {
    if ms != [] {
      EntriesAt(ms[..|ms| - 1]);
    }
  }

  lemma EntriesStep(ms: seq<MenteeSummary>, i: nat)
    requires i < |ms|
    ensures Entries(ms[..i + 1]) == Entries(ms[..i]) + [EntryFor(ms[i])]
  {
    assert ms[..i + 1][..i] == ms[..i];
  }

  /** The shape of the rendered list: a banner first exactly when a search is
      active, counting all mentees and pluralised unless there is exactly
      one; for an empty list a single message and no entry; otherwise exactly
      one entry per mentee, in order, with the escaped name, the count, and a
      badge, holding the escaped house role, exactly when the house role is
      truthy. The banner quotes the escaped search term. */
  lemma ListingShape(ms: seq<MenteeSummary>, term: string)
    ensures var v := MenteeListing(ms, term);
      var offset := if term != "" then 1 else 0;
      && (v[0].SearchBanner? <==> term != "")
      && (term != "" ==> v[0].count == |ms| && (v[0].noun == "mentees" <==> |ms| != 1) && v[0].term == Escape(term))
      && (ms == [] ==> |v| == offset + 1 && v[offset].NoResults?)
      && (ms != [] ==> |v| == offset + |ms| && forall i :: 0 <= i < |ms| ==>
            var e := v[offset + i];
            && e.Entry?
            && e.discordId == ms[i].discordId
            && e.name == Escape(ms[i].name)
            && e.responseCount == ms[i].responseCount
            && (e.badge.Some? <==> Truthy(ms[i].houseRole))
            && (e.badge.Some? ==> e.badge.value == Escape(ms[i].houseRole.value)))
  {
    EntriesAt(ms);
  }

  /** The empty-list message quotes the escaped search term when a search is
      active, and is the generic message exactly when it is not. */
  lemma EmptyMessageNamesTerm(term: string)
    ensures term != "" ==> EmptyMessage(term) == NoSearchMatchesMessage(Escape(term))
    ensures EmptyMessage(term) == NoMatchesMessage <==> term == ""
  {
    if term != "" {
      var m := NoSearchMatchesMessage(Escape(term));
      assert m[26] == '"';
      assert NoMatchesMessage[26] == 'y';
    }
  }

  /** The entries `renderMentees` appends for a non-empty list, built one
      mentee at a time. */
  method EntryList(mentees: seq<MenteeSummary>) returns (entries: seq<ListItem>)
    ensures entries == Entries(mentees)
  {
    entries := [];
    for i := 0 to |mentees|
      invariant entries == Entries(mentees[..i])
    {
      EntriesStep(mentees, i);
      entries := entries + [EntryFor(mentees[i])];
    }
    assert mentees[..|mentees|] == mentees;
  }

  /** The list container of the page. */
  class MenteeListPanel {
    var items: seq<ListItem>

    constructor ()
      ensures items == []
    {
      items := [];
    }

    /** The first part of `fetchMentees`: a loading placeholder, and the
        parameters of the request it issues. */
    method StartFetch(house: string, sortBy: string, sortOrder: string, searchValue: string)
      returns (params: seq<MenteeQuery.Param>)
      modifies this
      ensures items == [Loading]
      ensures params == MenteeQuery.MenteeParams(house, sortBy, sortOrder, searchValue)
    {
      params := MenteeQuery.MenteeParams(house, sortBy, sortOrder, searchValue);
      items := [Loading];
    }

    /** The rest of `fetchMentees`, once the reply is in: an OK reply is
        rendered with the search box's value at that moment; anything else
        replaces the list with an error message. */
    method FinishFetch(reply: Reply<seq<MenteeSummary>>, searchValue: string)
      modifies this
      ensures reply.Reply? && Ok(reply.status) ==> items == MenteeListing(reply.body, JsTrim(searchValue))
      ensures reply.Reply? && !Ok(reply.status) ==> items == [LoadError("Error loading mentees: " + StatusError(reply.status))]
      ensures reply.Rejected? ==> items == [LoadError("Error loading mentees: " + reply.message)]
    {
      match reply
      case Rejected(message) =>
        items := [LoadError("Error loading mentees: " + message)];
      case Reply(status, mentees) =>
        if !Ok(status) {
          items := [LoadError("Error loading mentees: " + StatusError(status))];
        } else {
          RenderMentees(mentees, searchValue);
        }
    }

    /** `renderMentees`: clears the list, adds the banner when a search is
        active, then the empty message or one entry per mentee. */
    method RenderMentees(mentees: seq<MenteeSummary>, searchValue: string)
      modifies this
      ensures items == MenteeListing(mentees, JsTrim(searchValue))
    {
      var term := JsTrim(searchValue);
      RenderWithTerm(mentees, term);
    }

    /** `renderMentees` once the search term has been trimmed. */
    method RenderWithTerm(mentees: seq<MenteeSummary>, term: string)
      modifies this
      ensures items == MenteeListing(mentees, term)
    {
      var shown: seq<ListItem> := [];
      if term != "" {
        shown := shown + [Banner(|mentees|, term)];
      }
      if |mentees| == 0 {
        items := shown + [NoResults(EmptyMessage(term))];
      } else {
        var entries := EntryList(mentees);
        items := shown + entries;
      }
    }
  }
}
