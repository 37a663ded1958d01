# Rick and Morty character browser: view-session model

This project models the stateful core of a browser page that lists characters from a public
character API. The page pages through the listing with infinite scroll, searches by name,
filters the user's favourites by status and species, and keeps a favourites list of character
ids in local storage. The model covers:

- **Favorites** (`favorites.dfy`): the favourites list as an ordered sequence of ids. A toggle
  removes the first occurrence of a present id (`indexOf` then `splice`) or appends an absent
  one (`push`). Membership is read with `includes`.
- **Translation** (`translation.dfy`): the static two-level table (status, species) of
  Portuguese display strings. The lookup falls back to the raw value through `||`.
- **Filter** (`filter.dfy`): the favourites view. Each position of the favourites list is fetched on its own, and
  a record is rendered iff each filter is empty (a wildcard) or equals the record's field.
  Cards appear in network-arrival order, so the rendered cards are a multiset.
- **Text** (`text.dfy`): `String.prototype.trim`, with the ECMAScript white-space and
  line-terminator code points written out. The search handler dispatches on its result.
- **Session** (`session.dfy`): the page's globals as the class `ViewSession`. Its fields are
  `favorites`, `currentPage`, `isLoading`, and a log `requests` of the API requests in the
  order they are issued. Methods cover the fetch gate, the completion of a page fetch (an
  explicit `FinishFetch(success)` event), the favourite toggle (with the re-render it triggers),
  and the scroll, search and favourites-filter handlers. The constructor starts the cursor at 1.
  `Valid()` says that the cursor is at least 1 and that requested pages never decrease and
  never pass the cursor.

Two behaviours of the code are worth stating plainly:

- In a list without duplicates, toggling a present id twice keeps the same ids but moves that id
  to the end, so the list is restored only when the id was already last (`DoubleTogglePresent`,
  `DoubleToggleOrder`). With a duplicated id, two toggles remove two copies
  (`DoubleToggleDuplicate`).
- Loading the favourites applies `|| []` to the parsed stored value. The empty list therefore
  comes from a missing entry (`JSON.parse(null)` gives `null`) or from a stored `null`, `false`,
  `0` or `""`. The constructor's `None` stands for all of these. A stored text that is not JSON
  makes `JSON.parse` throw and is not turned into an empty list.

## Model

| member | source | states |
|---|---|---|
| Favorites.Toggled | script.js:21-25 | toggling a present id shortens the list by one; toggling an absent id lengthens it by one and puts the id last |
| Favorites.IndexOf | script.js:21-22 | the result is -1 iff the id is absent; otherwise it is a position holding the id with no earlier occurrence |
| Favorites.ToggleAbsent | script.js:21-25 | toggling an absent id appends it at the end and leaves every earlier element in place |
| Favorites.TogglePresent | script.js:21-23 | toggling a present id removes exactly its first occurrence; the length drops by one and the elements before and after keep their order |
| Favorites.ToggleMultiset | script.js:20-26 | as a multiset, a toggle removes one copy of a present id or adds one copy of an absent id |
| Favorites.ToggleMembership | script.js:20-26 | every other id's membership is unchanged; without duplicates, the toggled id's `includes` result flips |
| Favorites.ToggleKeepsNoDup | script.js:20-26 | a list without duplicates has none after a toggle |
| Favorites.DoubleToggleAbsent | script.js:21-25 | toggling an absent id twice restores the original list exactly |
| Favorites.DoubleTogglePresent | script.js:21-25 | toggling a present id twice restores the same ids, with the id moved after the others |
| Favorites.DoubleToggleOrder | script.js:21-25 | a double toggle of a present id restores the list iff the id was already last |
| Favorites.DoubleToggleDuplicate | script.js:21-25 | with a duplicated id, two toggles remove two copies: [5, 5] becomes [] |
| Translation.Table | script.js:11-14 | each category has three entries, none of them empty, so the `||` fallback applies only to missing values |
| Translation.Translate | script.js:36-37 | a value in the category's table gives its entry; any other value is returned unchanged |
| Translation.TranslateIdempotent | script.js:11-14 | extra property, not relied on by the page: no display string is a key of its category, so translating a translation changes nothing |
| Translation.TranslateInjectiveOnTable | script.js:11-14 | distinct known values of a category get distinct display strings |
| Translation.TranslateExamples | script.js:12-13 | "Alive" gives "Vivo", "Robot" gives "Robô", and "Zorp" passes through unchanged |
| Filter.Matches | script.js:92 | with both filters empty every record passes; a record whose status and species equal the filters passes |
| Filter.Filtered | script.js:92 | a record is kept iff it is in the input and passes both filters; the result is no longer than the input |
| Filter.FilterCounts | script.js:92 | each passing record is kept exactly as often as it occurs, and a failing record never |
| Filter.FilterSubMultiset | script.js:92 | filtering only drops records: no record is kept more often than it occurs (a corollary of FilterCounts) |
| Filter.FilterWildcard | script.js:92 | with both filters empty, every record is kept, in order |
| Filter.FilterIdempotent | script.js:92 | extra property, not relied on by the page: filtering twice with the same values gives the same result as filtering once |
| Filter.Resolved | script.js:88-91 | at most one record per request, and exactly one per request when every request resolved |
| Filter.ResolvedCounts | script.js:88-91 | each record occurs among the resolved records exactly as often as a request resolved to it |
| Filter.ResolvedMembers | script.js:88-91 | a record is resolved iff some request resolved to it |
| Filter.Rendered | script.js:83-96 | no more cards than favourite ids |
| Filter.RenderedCounts | script.js:88-95 | a passing record is rendered exactly once per request that resolved to it, counted over the replies themselves; a failing record is never rendered |
| Filter.RenderedMembers | script.js:83-96 | a card is rendered iff the request of some favourite position resolved to its record and it passes both filters |
| Filter.RenderedDuplicate | script.js:88-95 | an id listed twice has two requests: it shows twice when both resolve and once when one rejects |
| Filter.RenderedExample | script.js:88-95 | favourites [1, 2, 3] with status "Dead" render exactly the records of 2 and 3, and not that of 1 |
| Text.Trim | script.js:104 | the trimmed query is no longer than the input and has no white space at either end |
| Text.TrimStart | script.js:104 | the result is a suffix of the input that is empty or starts with a non-space; everything cut off is white space |
| Text.TrimEnd | script.js:104 | the result is a prefix of the input that is empty or ends with a non-space; everything cut off is white space |
| Text.TrimEmptyIff | script.js:104-106 | the trimmed query is empty iff the input is all white space |
| Text.TrimSlice | script.js:104 | the trimmed query is a contiguous slice of the input |
| Text.TrimIdempotent | script.js:104 | extra property, not relied on by the page: trimming an already trimmed query changes nothing |
| Session.CharacterRequests | script.js:88-89 | one record request per favourite id, in list order |
| Session.ViewSession.IsFavorite | script.js:35 | `includes` agrees with the toggle's `indexOf` test: true iff the index is not -1 |
| Session.ViewSession.constructor | script.js:7-9 | favourites are the stored list or empty when the parsed entry is falsy; the cursor is 1; through the call at line 126, the first page is requested and the flag is raised |
| Session.ViewSession.FetchCharacters | script.js:54-58 | called with the current cursor, as every caller does; while loading nothing changes; otherwise the flag is raised and exactly one request for the page is issued; the page-order invariant is kept |
| Session.ViewSession.FinishFetch | script.js:60-67 | the completion lowers the flag on both the `.then` and the `.catch` path and keeps the page-order invariant |
| Session.ViewSession.Toggle | script.js:20-29 | the list becomes its toggled form; without duplicates, membership of the id flips and the list stays duplicate-free; other ids keep their membership; the paged view is re-requested at the unchanged cursor through the fetch gate |
| Session.ViewSession.OnScroll | script.js:109-114 | near the bottom and not loading, the cursor advances by exactly one and that page is requested; otherwise nothing changes |
| Session.ViewSession.OnSearchInput | script.js:103-107 | the cursor never moves; a non-empty trimmed query issues a name search; an empty one goes through the fetch gate at the current cursor |
| Session.ViewSession.OnFavoriteFilter | script.js:116-119 | one record request per favourite, in list order; the cursor and the flag are untouched |

## Left out

- DOM construction and mutation: card markup, clearing the grid, `onclick` wiring, the
  "Nenhum personagem encontrado" message. These are UI with no state beyond what is modelled.
- The network: `fetch` and JSON parsing. A request is recorded in `requests`. A page fetch's
  completion is the `FinishFetch(success)` event. In the favourites view each position of the
  list has its own request, whose reply is `Rejected` or `Arrived(record)`. A request that
  rejects is an unhandled rejection, and nothing is rendered for it.
- HTTP error replies in the favourites view: `fetch` does not reject on an error status, so the
  parsed error object reaches the filter test, and with both filters empty a card is rendered
  for it. The model only covers ids whose reply is a character record.
- The completion of a name search: it only rewrites the grid and changes no modelled state.
  The query also goes into the URL without encoding, which is not modelled.
- `localStorage`: saving after a toggle and the `JSON.parse`/`JSON.stringify` round trip. The
  stored list is a constructor parameter. A stored truthy value that is not an array of ids, or
  stored text that is not JSON at all, is not modelled.
- Concurrency of the per-favourite fetches and `Promise.all` with its empty callback. The order
  of rendered cards is the arrival order, so `Rendered` is a multiset. Stale responses rendering
  after a later view change are not modelled.
- The scroll geometry test. The boolean `nearBottom` input stands for it.
- Translation.Translate: property names inherited by plain JavaScript objects (`"toString"`,
  `"constructor"`, ...) would be found by the lookup. The API's statuses and species never take
  those values, so the model treats them as unknown values.
- Ids are JavaScript numbers compared with `===`. The model uses unbounded integers and does
  not model the string or `NaN` ids that storage could hold.
