# Mentee dashboard: a Dafny model

This project models the mentee dashboard, a small web application made of two
halves.

- **The server (`main.py`)** answers three JSON endpoints over a database of
  mentees and their weekly responses:
  - `GET /api/houses`: the distinct house roles, sorted;
  - `GET /api/mentees`: mentees filtered by house and by a name search, each
    with its response count, sorted on a chosen field;
  - `GET /api/mentees/{discord_id}/responses`: one mentee's responses, newest
    week first.
- **The page script (`static/script.js`)**:
  - builds the query for the mentee list;
  - renders the list;
  - opens a modal with a mentee's responses;
  - fills the house drop-down;
  - HTML-escapes every text it places in markup.

## How the model is organised

The server handlers are modelled on values:
- database tables become sequences of rows, in table order;
- each endpoint becomes a method returning either the reply or an `HttpError`
  (status and detail).

Python's `list.sort` is modelled as a stable insertion sort (`StableSort.Sort`). It is specified by:
- being a permutation;
- being sorted;
- stability, meaning that for each key the elements with that key keep their
  relative order.

`reverse=True` is modelled as a reversed comparison, not as a reversed
result, so equal keys stay in input order, as they do in Python.

The page's containers are classes whose fields the methods update:
- the mentee list (`MenteeListView.MenteeListPanel`);
- the modal (`ResponsesModal.ResponsesDialog`);
- the house drop-down (`HouseFilter.HouseSelect`).

A container's contents are a sequence of items. An item is a datatype that
records what the markup shows: escaped texts, counts, and whether a badge,
text section or voice link is present. The markup itself is not modelled.

Each `fetch` result is a `Http.Reply`. It is either a status with a decoded
body, or a rejection carrying the platform's message. Rejection stands for a
network failure or a body that is not JSON.

JavaScript's `trim()` and Python's `strip()` each use their own set of white
space characters. The two sets differ: Python also strips U+001C to U+001F and
U+0085, and JavaScript also trims U+FEFF. `SearchFlow` connects the page's
query to the server's filters. It proves two facts:
- the house and the search term reach the server unchanged;
- a search box holding only, for example, U+001C gets a search banner from the
  page, while the server applies no name filter.

The page shows the notice "Mentee found, but no responses recorded yet." for
a 404. The server sends a 404 only when no mentee has the Discord id, and a
mentee without responses gets an empty list. The model keeps the page's
behaviour as written (`ResponsesModal.NotFoundIsNoError`,
`ResponsesApi.GetMenteeResponses`).

## Model

| member | source | states |
|---|---|---|
| HtmlEscape.EscapeHtml | static/script.js:164-173 | `null` and `undefined` escape to the empty string; the result of escaping never holds `<`, `>`, `"` or `'` |
| HtmlEscape.ChainMatchesReference | static/script.js:166-172 | the five chained global replacements, ampersand first, have the same effect as replacing every character independently by its entity |
| HtmlEscape.EscapedHasNoMarkup | static/script.js:168-172 | the per-character escaping leaves no `<`, `>`, `"` or `'` |
| HtmlEscape.AmpersandsOpenEntities | static/script.js:168-172 | every ampersand in an escaped string starts one of the five entities |
| HtmlEscape.RoundTrip | static/script.js:164-173 | decoding the five entities, left to right, gives back exactly the string that was escaped |
| HtmlEscape.EscapeInjective | static/script.js:164-173 | different strings escape differently |
| HtmlEscape.PlainUnchanged | static/script.js:166-172 | a string without special characters is left as it is |
| HtmlEscape.EscapeFixedIff | static/script.js:166-172 | escaping leaves a string unchanged exactly when it holds none of `&`, `<`, `>`, `"`, `'` |
| HtmlEscape.EscapedGrows | static/script.js:168-172 | escaping never shortens a string; a special character lengthens it and leaves an ampersand in it |
| HtmlEscape.EscapeTwiceDiffers | static/script.js:168 | an already escaped string is escaped again: the replacement of `&` has no exception for existing entities |
| HtmlEscape.EscapeEscapesEntities | static/script.js:168 | an ampersand followed by plain text becomes `&amp;` followed by that text, so an existing `&lt;` becomes `&amp;lt;` |
| Strings.Trim | static/script.js:19 | the trimmed string starts and ends with a non-space, and is empty exactly when every character was white space |
| Strings.TrimIsSlice | static/script.js:19 | the trimmed string is the piece of the input that begins right after its leading white space, and only white space follows that piece |
| Strings.LeadingSpaceTrimmed | static/script.js:19 | trimming the start drops exactly the leading white space |
| Strings.TrimStart | static/script.js:19 | only leading white space is removed, and what is left is a suffix of the input |
| Strings.TrimEnd | static/script.js:19 | only trailing white space is removed, and what is left is a prefix of the input |
| Strings.TrimUntouched | main.py:94-96 | a term whose ends are not white space is not changed by stripping |
| Strings.TrimIdempotent | main.py:94-96 | stripping a stripped term changes nothing |
| Strings.DecimalRoundTrip | static/script.js:42 | the decimal rendering of a status reads back as that status |
| Http.StatusErrorNamesStatus | static/script.js:41-43 | the thrown message is "HTTP error! status: " followed by only digits, which read back as the status |
| MenteeQuery.MenteeParams | static/script.js:22-33 | the parameters are `sort_by`, `sort_order`, then `house` only for a selected house, then `search` only for a non-blank trimmed search box |
| MenteeQuery.MenteeParamsValues | static/script.js:16-33 | the server reads back both sort settings as chosen, the house exactly when one is selected, and the trimmed search term exactly when it is non-empty |
| MenteeQuery.LookupLast | static/script.js:28 | an appended parameter is the value read back for its name |
| MenteeQuery.LookupSkip | static/script.js:32 | appending a parameter leaves the values of the other names unchanged |
| SearchFlow.FiltersFromControls | static/script.js:19-33 | the server filters by house exactly when one is selected. It filters by name only when the page sent a term, and then by that exact term unless an end of the term is a character only Python strips |
| SearchFlow.StripOnlySearchUnfiltered | main.py:94-97 | a one-character search of a character only Python strips is sent by the page but gives no name filter on the server |
| MenteesApi.PlanFilters | main.py:89-97 | a house filter exactly when `house` is truthy; a name filter exactly when `search` is present and not blank after stripping, carrying the stripped term |
| MenteesApi.Select | main.py:87-101 | the query returns exactly the rows the filters admit, never more rows than the table |
| MenteesApi.GetMentees | main.py:78-125 | the result is a permutation of the filtered rows with their counts. For a known `sort_by` it is sorted on that key, descending exactly when `sort_order` is "desc", with equal keys in query order. For an unknown `sort_by` it is in query order |
| StableSort.Sort | main.py:116-123 | the output is a permutation of the input, sorted by the key in the given direction, and stable |
| StableSort.Insert | main.py:119 | one insertion step keeps the sequence sorted and stable and adds exactly the one element |
| Ordering.StrLessTransitive | main.py:71 | string order is transitive |
| Ordering.StrLessTotal | main.py:71 | any two different strings are ordered one way or the other |
| Ordering.KeyLessTotal | main.py:123 | any two different sort keys are ordered one way or the other |
| HousesApi.GetHouses | main.py:58-71 | the houses are exactly the truthy roles some row carries, never the empty string, each once, in strictly ascending order |
| HousesApi.SortedList | main.py:71 | `sorted(list(s))` holds exactly the elements of `s`, strictly ascending |
| HousesApi.Least | main.py:71 | the selected element of a non-empty set is below every other element |
| ResponsesApi.FirstWithDiscordId | main.py:135-140 | no mentee row is found exactly when no row has the Discord id; a found row is in the table with that id |
| ResponsesApi.OfMentee | main.py:143 | a row is selected exactly when it belongs to the mentee |
| ResponsesApi.QueryResponses | main.py:143 | the responses query returns exactly the mentee's rows, week numbers non-increasing, rows of the same week in table order |
| ResponsesApi.CountIsResponses | main.py:107 | the count attached to a mentee in the list is the number of rows the responses query returns for it |
| ResponsesApi.FormatResponses | main.py:145-161 | it succeeds exactly when every timestamp parses. It then gives one record per row, in order, with fields copied and the timestamp parsed, or the request time when it is absent. Otherwise it fails with a 500 naming the first parse error |
| ResponsesApi.GetMenteeResponses | main.py:131-161 | the reply is a 404 "Mentee not found" exactly when no row has the Discord id, and a failure is only ever a 404 or a 500. For a found mentee, the rows the query returns (`rows`) are exactly that mentee's responses, newest week first. The handler succeeds exactly when every one of their timestamps parses. It then gives one record per row of `rows`, in order, with id, week, text, voice URL and the parsed or request-time `created_at`. Otherwise it fails with a 500 "Error fetching responses: " and the error of the first row that does not parse |
| ResponsesModal.Classify | static/script.js:113-128 | a 2xx reply is loaded with its body, a 404 means no responses, any other status fails with "HTTP error! status: N", and a rejection fails with its message |
| ResponsesModal.CardsFollowResponses | static/script.js:131-162 | an empty list shows the empty message and no card. Otherwise there is one card per response, in order, with its week, an escaped text section exactly when the text is truthy, and a voice link exactly when the URL is truthy |
| ResponsesModal.NotFoundIsNoError | static/script.js:116-119 | a 404 shows the "no responses yet" notice, which differs from the empty-list message, and no error |
| ResponsesModal.OtherFailureNamesStatus | static/script.js:120-127 | any other failing status shows a single error, and its message ends with the status in digits |
| ResponsesModal.ResponsesDialog.Open | static/script.js:108-114 | the modal is shown at once, titled with the mentee's name, with a loading placeholder, and requests that mentee's responses |
| ResponsesModal.ResponsesDialog.ShowReply | static/script.js:113-128 | the body becomes the view of the classified reply |
| ResponsesModal.ResponsesDialog.RenderResponses | static/script.js:131-162 | the body becomes the empty message or the cards, built one response at a time |
| MenteeListView.ListingShape | static/script.js:53-106 | a banner comes first exactly when searching, with the count and "mentee" pluralised unless the count is 1. An empty list gives one message and no entry. The banner quotes the escaped search term. Otherwise there is one entry per mentee, in order, with escaped name, Discord id, count, and a badge exactly when the house role is truthy, holding the escaped house role |
| MenteeListView.EmptyMessageNamesTerm | static/script.js:74-79 | the empty message quotes the escaped term when searching, and is the generic message exactly when not |
| MenteeListView.EntryList | static/script.js:82-105 | the entries are built one mentee at a time, in order |
| MenteeListView.MenteeListPanel.StartFetch | static/script.js:15-38 | the list shows only the loading placeholder, and the request carries the parameters built from the controls |
| MenteeListView.MenteeListPanel.FinishFetch | static/script.js:40-50 | an OK reply is rendered with the current search box. A status that is not OK shows "Error loading mentees: HTTP error! status: N". A rejection shows its message |
| MenteeListView.MenteeListPanel.RenderMentees | static/script.js:53-106 | the list becomes the listing of the mentees for the trimmed search box |
| MenteeListView.MenteeListPanel.RenderWithTerm | static/script.js:54-105 | the listing is built as the banner, then the empty message or the entries |
| HouseFilter.HouseSelect.Populate | static/script.js:175-192 | an OK reply appends one option per house, in the server's order, after the existing options. Any failure leaves the drop-down unchanged |

## Left out

- Database access is not modelled. Tables are sequences of rows in table order, and a query returns its rows in that order. Where the database orders by week, ties are taken to keep table order.
- Database failures are not modelled. The 500 replies of `get_houses` and `get_mentees`, and the 500 of `get_mentee_responses` for a database failure, are not produced by the model.
- The `ilike '%term%'` match is a parameter (`like`) of `Select` and `GetMentees`. Its case-insensitive pattern semantics are not modelled.
- `datetime.fromisoformat` and `datetime.now()` are parameters (`parseIso`, `now`) of the responses handler. Parsing itself and the clock are not modelled. The handler reads the clock anew for each row without a timestamp, so those rows may get slightly different times; the model gives them all the one instant `now`.
- Strings.Lower: lower-cases ASCII letters only, where Python's `lower()` covers all of Unicode, because Unicode case tables are out of scope.
- ResponsesModal.CardFor: the card carries the serialised `created_at` as received, because `new Date(...).toLocaleString()` depends on the browser's locale and clock.
- HtmlEscape.EscapeHtml: covers strings, `null` and `undefined` only, not `toString()` of other values. Every value the page escapes is a string or null.
- The page's fetches are modelled as completed replies. Two `fetchMentees` calls whose replies arrive out of order, and the search box changing before the reply arrives, are covered only in that `FinishFetch` takes the search box value as a parameter.
- URL percent-encoding of the query string and of the Discord id in the responses path is not modelled. Parameters are name/value pairs, and the path is plain concatenation.
- The Discord id in an entry's markup and the voice URL in a card's `href` are inserted unescaped, as in the page. The model records them as received and proves nothing about their content.
- The `hasattr(count_response, 'count')` fallback to 0 is not modelled, because the exact-count query always carries a count.
- `console.error` logging, event wiring, the Enter key and clear-search handlers, focus handling and the Bootstrap modal object are not modelled.
- The default options of the house drop-down come from the HTML template, which is not part of this model. They are a parameter of `HouseSelect`'s constructor.
- JSON decoding errors of a reply body are folded into `Reply.Rejected`, as they land in the same `catch`.
- Server-side response validation (`response_model`) and serialisation of `datetime` values are not modelled.
