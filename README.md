# Game catalog shell — a Dafny model

This project models the shell of a browser game catalog: the page that
loads a list of games once, lets the user narrow it by a free-text search
and a category selector, and plays one chosen game in a full-screen player
until the user goes back.

- `types.dfy` (module `Types`): the `Game` record, with the seven fields
  of the record type in types.ts:2-10, and the `Category`
  selector (`All` is the wildcard). A game's category is a free string, as
  in the catalog file; the selector is one of six fixed names.
- `text.dfy` (module `Text`): the two string operations the search uses,
  lower-casing (`Lower`, an ASCII case fold) and substring search
  (`Includes`, with its characterisation by "occurs at some position").
- `app.dfy` (module `App`):
  - the filter `FilteredGames` and its properties: order-preserving
    subsequence, membership if and only if the game matches, multiplicity
    kept, concatenation, idempotence, the identity case (empty query under
    `All`), case-insensitivity of the query, exactness of the category
    test, the empty catalog, and a two-game sample catalog;
  - `Render`, the choice of what the page shows (player, spinner, grid of
    cards, or "No games found", plus whether the footer is drawn);
  - the class `Shell`, whose five fields are the shell's state and whose
    methods are the handlers that update them: playing a game, going back,
    typing a query, choosing a category, and the two outcomes of loading
    the catalog;
  - two sessions that drive a `Shell` through a failed load, and through
    playing a game and coming back.

## Model

| member | source | states |
|---|---|---|
| `Text.Lower` | App.tsx:35 | lower-casing keeps the length and folds each character on its own (ASCII upper case to lower case, everything else unchanged) |
| `Text.LowerIdempotent` | App.tsx:35 | lower-casing an already lower-cased string changes nothing |
| `Text.Includes` | App.tsx:35 | `title.includes(query)`: a query longer than the title is never contained, and a prefix of the title always is |
| `Text.IncludesIffOccurs` | App.tsx:35 | `includes` holds exactly when the needle occurs as a contiguous slice at some position of the haystack |
| `Text.IncludesOccurs` | App.tsx:35 | when `includes` holds, the needle occurs at some position of the haystack |
| `Text.OccursAtIncludes` | App.tsx:35 | an occurrence of the needle at any position makes `includes` hold |
| `Text.IncludesNeedsFirstChar` | App.tsx:35 | a non-empty needle whose first character is absent from the haystack is not included |
| `Text.IncludesEmpty` | App.tsx:35 | the empty query is contained in every title |
| `Types.Category.Name` | types.ts:12 | each member of the union has its literal string, and only the wildcard is named "All" |
| `Types.NameInjective` | types.ts:12 | two selectors have the same name exactly when they are the same selector |
| `App.MatchesSearch` | App.tsx:35 | the search test: the empty query matches every title, and a query longer than the title matches none |
| `App.MatchesCategory` | App.tsx:36 | the category test: the wildcard matches every game, and a game whose category string is the name of a selector `c` matches exactly under the wildcard and under `c` |
| `App.Matches` | App.tsx:37 | the filter predicate: under the empty query and the wildcard every game matches, and a query longer than the title never does |
| `App.FilteredGames` | App.tsx:33-39 | the visible list is no longer than the catalog, and every visible game is a catalog game that matches both the search and the category test |
| `App.FilterMembership` | App.tsx:34-37 | a game is visible if and only if it is in the catalog, its lower-cased title contains the lower-cased query, and the selector is `All` or equals its category |
| `App.FilterIsSubsequence` | App.tsx:34 | the visible list is a subsequence of the catalog in the same relative order |
| `App.FilterCount` | App.tsx:34-38 | each matching game is visible exactly as many times as it occurs in the catalog, a non-matching one never (no de-duplication) |
| `App.FilterAppend` | App.tsx:34-38 | filtering a concatenation is the concatenation of the filtered parts |
| `App.FilterIdempotent` | App.tsx:33-39 | filtering the visible list again with the same query and selector gives it back unchanged |
| `App.FilterEmptyQueryAll` | App.tsx:35-36 | with the empty query and the `All` selector the visible list is the whole catalog |
| `App.FilterCaseInsensitive` | App.tsx:35 | two queries with the same lower-case form give the same visible list |
| `App.FilterLowerQuery` | App.tsx:35 | a query and its lower-case form give the same visible list |
| `App.FilterCategoryExact` | App.tsx:36 | under a selector other than `All`, a game whose category differs from the selector's name is never visible, whatever the query |
| `App.FilterEmptyCatalog` | App.tsx:34 | an empty catalog gives an empty visible list for every query and selector |
| `App.FilterSampleByQuery` | App.tsx:33-39 | in the catalog "Block Blast" (Puzzle), "Speed Race" (Sports), the query "bl" or "BL" under `All` shows only "Block Blast" |
| `App.FilterSampleByCategory` | App.tsx:33-39 | in the same catalog, the empty query under `Sports` shows only "Speed Race" |
| `App.Render` | App.tsx:54-148 | the player shows exactly when a game is selected, and shows that game; otherwise the spinner shows exactly while loading; a grid holds at least one card, and its cards are the filtered list in catalog order, that is exactly the matching catalog games; "No games found" appears only after loading and only when no catalog game matches; the footer is drawn exactly when no game is selected |
| `App.EmptyCatalogShowsNoGames` | App.tsx:118-141 | once loading is over with nothing selected, an empty catalog shows "No games found" for any query and selector |
| `App.Shell.Visible` | App.tsx:33-39 | the visible list for the current state is no longer than the catalog and holds exactly the catalog games that match the current query and selector |
| `App.Shell.Current` | App.tsx:148 | the page for the current state draws the footer exactly when no game is selected |
| `App.Shell.constructor` | App.tsx:10-14 | on mount: no games, nothing selected, empty query, selector `All`, loading; the page shows the spinner and the footer |
| `App.Shell.PlayGame` | App.tsx:41-43 | the chosen game becomes the selected one, nothing else changes, and the page shows its player without the footer |
| `App.Shell.BackToHome` | App.tsx:45-47 | nothing is selected afterwards, nothing else changes, going back when nothing is selected leaves the state as it was, and the page shows no player and draws the footer |
| `App.Shell.SetSearchQuery` | App.tsx:82 | the query becomes the typed text, nothing else changes, and the visible list is the catalog filtered by the new query |
| `App.Shell.SetActiveCategory` | App.tsx:103 | the selector becomes the clicked category, nothing else changes, and every visible game then carries that category unless it is `All` |
| `App.Shell.LoadSucceeded` | App.tsx:19-27 | the loaded list replaces the games wholesale and loading ends; selection, query and selector are untouched |
| `App.Shell.LoadFailed` | App.tsx:23-27 | the games stay as they were and loading ends; selection, query and selector are untouched |
| `App.FailedLoadSession` | App.tsx:10-27 | a load that fails on mount turns the spinner into "No games found" with the footer, and the catalog stays empty |
| `App.PlayAndBackSession` | App.tsx:41-55 | after a load, playing a game shows its player without the footer, and going back restores exactly the page shown before |

## Left out

- The network fetch of the catalog file, the `response.ok` test, JSON parsing and the console log of a failure (App.tsx:19-24) are reduced to the two outcomes `Shell.LoadSucceeded(data)` and `Shell.LoadFailed()`; the cast of the parsed data to a list of games is trusted, so records of another shape are not modelled.
- React's hooks (`useState`, `useEffect`, `useMemo`) and the asynchronous loader are modelled as plain fields and methods; the memoisation of the visible list is not modelled (`Shell.Visible` recomputes it), and there is no concurrency to model.
- Text.Lower: folds only the ASCII letters A-Z and leaves every other character unchanged, whereas `toLowerCase` applies Unicode's default (locale-independent) lower-case mapping, including multi-character results and the final-sigma rule. So a title "CAFÉ" with the query "é" is visible in the program but not in the model. `Text.Includes` is exact on any character sequence.
- A catalog record without a title: `game.title.toLowerCase()` (App.tsx:35) throws a TypeError on `undefined` and aborts the render. The model's `Game.title` is always a string, so this error path is not modelled.
- `Shell.LoadFailed` leaves the games as they were (App.tsx:23-24). The load runs only on mount (App.tsx:16-31), so after a failure the games are the empty list set at App.tsx:10 (`App.FailedLoadSession`).
- components/GamePlayer.js is not part of this model: its page reload, fullscreen request and iframe loading flag are browser calls or local presentation state.
- components/GameCard.tsx and components/Navbar.js are not part of this model beyond what they forward: a card click is `Shell.PlayGame`, a navigation-bar click is `Shell.BackToHome`.
- The markup, styling, and the order of the category buttons (App.tsx:7, 100-112) are left out, apart from the fact that clicking a button sets the selector.
