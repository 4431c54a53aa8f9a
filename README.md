# GitHub repository dashboard — a Dafny model

This project models the data pipeline of the `GitHubRepos` React component
(`my-app-2/src/AItest.js`). The component fetches a user's repositories from
the GitHub REST API and drops the forks. It filters the rest by a
case-insensitive search term and shows them six per page, with
previous/next controls.

The project has six modules, one per stage of the pipeline:

- `Text` (`text.dfy`): `toLowerCase` (ASCII letters only), `includes`, and
  `trim` with JavaScript's whitespace set.
- `Repos` (`repos.dfy`): the `Repo` record, a generic `filter` (`Keep`),
  fork exclusion (`NonForks`) and the search filter (`Filter`). The lemmas
  prove that each filter gives an order-preserving subsequence holding
  exactly the passing elements.
- `Pagination` (`pagination.dfy`): `ITEM_PER_PAGE`, the page count, the
  JavaScript `slice` semantics, the page slice and the two button handlers.
  The lemmas prove that the pages put back together give the whole list.
- `Fetch` (`fetch.dfy`): the settled request becomes an input value
  (`Response`). `Classify` turns it into the repositories or one error notice.
- `Colors` (`colors.dfy`): the language colour table with its default.
- `GitHubRepos` (`dashboard.dfy`): class `Dashboard`, one field per
  `useState` cell. It has one method per event and an invariant `Valid()`:
  the filtered list is `Filter(repoList, searchTerm)`, the full list holds
  no fork, and the page lies in `1..max(1, totalPages)`.

React runs the filter effect (lines 120-130) whenever `repoList` or
`searchTerm` changes. In the model, every method that changes either one
calls `FilterEffect` itself.

In these places the code's behaviour is easy to misread; the model follows the
code:

- A new fetch does not reset the search term. After a successful fetch the
  new list is filtered with the current term, not shown in full.
- Only a submitted username is trimmed (line 135). The initial load passes
  the constant `DEFAULT_USERNAME` as it is.
- A thrown error shows its own message. Only an error with an empty message
  falls back to the generic connection-error text (line 107).
- When the search term is set to the value it already has, React skips the
  update. The effect then does not run and the page is not reset.
- `repo.description && …` treats an empty description like a missing one.
  `MatchesIgnoresEmptyDescription` shows that this never changes a match.

## Model

| member | source | states |
|---|---|---|
| `Text.Lower` | my-app-2/src/AItest.js:122-125 | lower-casing keeps the length and maps each character through the ASCII lower-case map |
| `Text.LowerChar` | my-app-2/src/AItest.js:122-125 | the result is never an upper-case letter; only `A`-`Z` change, each to its lower-case letter |
| `Text.LowerIdempotent` | my-app-2/src/AItest.js:122-125 | lower-casing twice is the same as lower-casing once |
| `Text.IncludesIffOccurs` | my-app-2/src/AItest.js:124-125 | `includes` holds exactly when the term occurs at some index of the string (both directions) |
| `Text.IncludesLower` | my-app-2/src/AItest.js:122-126 | an occurrence survives lower-casing both sides, so a case-sensitive match is also a case-insensitive one |
| `Text.TrimStart` | my-app-2/src/AItest.js:135 | the result is a suffix of the input, everything dropped is whitespace, and it does not start with whitespace |
| `Text.TrimEnd` | my-app-2/src/AItest.js:135 | the result is a prefix of the input, everything dropped is whitespace, and it does not end with whitespace |
| `Text.TrimIsSlice` | my-app-2/src/AItest.js:135 | `trim` keeps one contiguous part of the name |
| `Text.TrimDropsWhitespace` | my-app-2/src/AItest.js:135 | everything `trim` removes, before and after the kept part, is whitespace |
| `Text.TrimEnds` | my-app-2/src/AItest.js:135 | what `trim` keeps neither starts nor ends with whitespace |
| `Text.TrimEmptyIff` | my-app-2/src/AItest.js:135 | a name trims to the empty string exactly when it is all whitespace |
| `Text.TrimIdempotent` | my-app-2/src/AItest.js:135 | trimming twice is the same as trimming once |
| `Repos.Keep` | my-app-2/src/AItest.js:123-126 | the filter is no longer than its input, and an element is in it exactly when it is in the input and passes |
| `Repos.KeepConcat` | my-app-2/src/AItest.js:123-126 | filtering a concatenation is the concatenation of the filtered parts |
| `Repos.KeepIdentity` | my-app-2/src/AItest.js:123-126 | a filter returns its input unchanged exactly when every element passes |
| `Repos.KeepIsSubsequence` | my-app-2/src/AItest.js:123-126 | the filter is the input at strictly increasing positions, and these are exactly the positions whose element passes |
| `Repos.NonForksSpec` | my-app-2/src/AItest.js:95 | fork exclusion keeps exactly the entries with `fork == false`, at their original positions in order |
| `Repos.FilterSpec` | my-app-2/src/AItest.js:122-126 | the filtered list is an order-preserving subsequence of the full list, kept positions are exactly the matching ones, and membership is exactly "in the list and matches" |
| `Repos.MatchesEmptyTerm` | my-app-2/src/AItest.js:122-126 | every repository matches the empty term |
| `Repos.FilterEmptyTerm` | my-app-2/src/AItest.js:122-126 | filtering with the empty term returns the full list unchanged |
| `Repos.MatchesCaseInsensitive` | my-app-2/src/AItest.js:122 | the match is the same for a term and its lower-cased form |
| `Repos.MatchesIgnoresEmptyDescription` | my-app-2/src/AItest.js:125 | an empty description matches exactly as a missing one does |
| `Repos.NameMatchKept` | my-app-2/src/AItest.js:124 | a repository whose name contains the term (with the term's own case) stays in the filtered list |
| `Pagination.TotalPages` | my-app-2/src/AItest.js:63 | the page count is the ceiling of length over 6: enough pages for every item, and no page more than that |
| `Pagination.JsSlice` | my-app-2/src/AItest.js:143 | `slice` with in-range ordered bounds is the sub-sequence clipped at the end; it is empty past the end and never longer than `end - start` |
| `Pagination.PageSlice` | my-app-2/src/AItest.js:141-143 | a page holds at most 6 items and is `list[(p-1)*6 .. min(p*6, n)]`; it is empty past the last page and non-empty on every page `1..totalPages` |
| `Pagination.PageSliceAt` | my-app-2/src/AItest.js:141-143 | item `j` of page `p` is list item `(p-1)*6 + j` |
| `Pagination.PagesUpToPrefix` | my-app-2/src/AItest.js:141-143 | pages `1..k` put together are the first `min(6k, n)` items |
| `Pagination.PagesReassemble` | my-app-2/src/AItest.js:141-143 | pages `1..totalPages` put together give back the whole filtered list |
| `Pagination.OnePagePerIndex` | my-app-2/src/AItest.js:141-143 | position `i` falls in page `p`'s index range exactly when `p == i / 6 + 1`, so no item is on two pages |
| `Pagination.IndexOnPage` | my-app-2/src/AItest.js:141-143 | every item appears on page `i / 6 + 1`, which is within the page count, at offset `i - (p-1)*6` |
| `Pagination.LastPageSize` | my-app-2/src/AItest.js:141-143 | on a non-empty list the last page holds between 1 and 6 items |
| `Pagination.ThirteenItems` | my-app-2/src/AItest.js:63 | 13 items give 3 pages, and the third page holds one item |
| `Pagination.PreviousPage` | my-app-2/src/AItest.js:18-20 | the page goes down exactly when it is above 1, and then by one; from page 1 or above it never goes below 1 |
| `Pagination.NextPage` | my-app-2/src/AItest.js:22-24 | the page goes up exactly when it is below the page count, and then by one; it never passes the page count |
| `Pagination.NavigationInRange` | my-app-2/src/AItest.js:18-24 | both handlers keep the page within `1..max(1, totalPages)` |
| `Pagination.DisabledExactlyWhenNoOp` | my-app-2/src/AItest.js:28-43 | the previous button is disabled exactly on page 1 and the next button exactly on the last page, which are exactly the pages where their handlers do nothing |
| `Pagination.NavigationRoundTrip` | my-app-2/src/AItest.js:18-24 | away from the ends, next then previous (and previous then next) returns to the same page |
| `Pagination.ControlsRenderedIff` | my-app-2/src/AItest.js:16 | the controls render (not loading, non-empty list, `totalPages > 1`) exactly when not loading and more than 6 items are filtered |
| `Fetch.Classify` | my-app-2/src/AItest.js:84-107 | a response loads exactly when it is HTTP with an ok status; then the loaded list holds exactly its non-fork entries; every failure has a non-empty notice |
| `Fetch.ClassifyStatus` | my-app-2/src/AItest.js:84-95 | 404 gives "user not found" for the user, 403 gives "rate limited", any other non-ok status gives "load failed" with that status, ok gives the non-fork list |
| `Fetch.FailedStatusDetermined` | my-app-2/src/AItest.js:84-92 | two failed HTTP responses with the same notice have the same status, so the three errors are distinct |
| `Fetch.ThrownKeepsMessage` | my-app-2/src/AItest.js:105-107 | a thrown error shows its message, or the connection-error text when its message is empty |
| `Colors.TableIsHexColors` | my-app-2/src/AItest.js:151-155 | every table entry is a `#rrggbb` colour |
| `Colors.LanguageColor` | my-app-2/src/AItest.js:150-156 | a listed language gets its table entry, any other name the default `#cccccc`, and the result is always a `#rrggbb` colour |
| `Colors.ListedColors` | my-app-2/src/AItest.js:150-156 | the nine listed languages get their listed colours; a differently-cased or unlisted name gets the default |
| `Colors.DotColor` | my-app-2/src/AItest.js:169-171 | a card has a language dot exactly when its language is truthy, coloured by `LanguageColor` |
| `GitHubRepos.Dashboard.constructor` | my-app-2/src/AItest.js:52-61 | the initial state: username and current search `google`, empty lists and term, not loading, no error, page 1 |
| `GitHubRepos.Dashboard.CurrentItems` | my-app-2/src/AItest.js:141-143 | the shown items are at most 6, equal `filteredList[(p-1)*6 .. min(p*6, n)]`, and are non-empty whenever the filtered list is |
| `GitHubRepos.Dashboard.FilterEffect` | my-app-2/src/AItest.js:120-130 | the filtered list becomes `Filter(repoList, searchTerm)` and the page 1; nothing else changes |
| `GitHubRepos.Dashboard.SetUsername` | my-app-2/src/AItest.js:198-205 | only the username field changes |
| `GitHubRepos.Dashboard.BeginFetch` | my-app-2/src/AItest.js:70-75 | a request is issued exactly for a non-empty user; an empty user only sets the "enter a username" error; otherwise loading starts, the error and both lists are cleared and the page is 1 |
| `GitHubRepos.Dashboard.CompleteFetch` | my-app-2/src/AItest.js:84-110 | loading ends in every outcome; on success the full list is the non-fork result, the filtered list is derived with the current term, the current search is the user, the page is 1, and an empty result sets the informational notice; on failure only the error changes, to the classified notice |
| `GitHubRepos.Dashboard.FetchRepos` | my-app-2/src/AItest.js:68-111 | a whole uninterrupted fetch: no request for the empty user; otherwise loading is cleared and the page is 1, a success sets the lists and current search (error cleared or the empty-result notice), a failure leaves both lists empty with the classified error |
| `GitHubRepos.Dashboard.SubmitSearch` | my-app-2/src/AItest.js:133-136 | the submitted username is trimmed before fetching; a request is issued exactly when the trimmed name is non-empty; a success sets the lists, the current search and the error (cleared, or the empty-result notice), a failure leaves the lists empty, the current search unchanged and the classified error |
| `GitHubRepos.Dashboard.SetSearchTerm` | my-app-2/src/AItest.js:120-130 | the term is set, the filtered list is re-derived from the unchanged full list, and the page resets to 1 unless the term was unchanged |
| `GitHubRepos.Dashboard.Previous` | my-app-2/src/AItest.js:18-20 | only the page changes, by `PreviousPage`, and the invariant (page within range) is kept |
| `GitHubRepos.Dashboard.Next` | my-app-2/src/AItest.js:22-24 | only the page changes, by `NextPage` against the current page count, and the invariant is kept |
| `GitHubRepos.Mount` | my-app-2/src/AItest.js:113-117 | mounting fetches `google`, so the current search is `google`; on success the filtered list equals the full non-fork list (the term is empty) and the error is cleared or the empty-result notice; on failure the error is the classified notice |

## Left out

- Network I/O: the `fetch` call, its URL and `User-Agent` header, `response.json()` and `console.error`. A settled request is an input value, `Response`. A body that fails to parse is a `Thrown` response.
- Concurrency: fetches that overlap, where the last state update wins. `FetchRepos` models a fetch with no other event in between. `CompleteFetch` does not require a pending request, but the interleavings themselves are not explored.
- The one render between the success setters (lines 97-99) and the filter effect. In that render `filteredList` is the unfiltered non-fork list. The model shows the settled state after the effect has run.
- Rendering: all JSX, the `RepoCard` markup, the loading and "no matches" messages, the `styles` objects and `toLocaleDateString`. The notices keep what each message is built from (user, status, status text, thrown message), not its wording.
- Repo fields that are only rendered: stars, fork count, URL and update time.
- `Text.Lower`: lower-cases ASCII letters only. JavaScript's `toLowerCase` also maps non-ASCII letters.
- `Colors.LanguageColor`: every name outside the table gets the default. In JavaScript, a name inherited from `Object.prototype` (such as `constructor`) would return that inherited member instead. GitHub's language names never collide with these.
- `Pagination.TotalPages`: uses integer ceiling division. `Math.ceil` on the float quotient gives the same value for every list length the component can hold.
- `my-app-2/src/index.js` is not part of this model: its DOM lookup and React root mounting.
