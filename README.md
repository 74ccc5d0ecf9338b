# Goalkeeper manager: fixture store and client state

A Dafny model of the core of the "Goleiro Manager" dashboard (`index.tsx`). The
dashboard pairs goalkeepers (*goleiros*) with matches (*partidas*). The model
covers two parts.

- **Fixture store.** `MOCK_DB` holds a goalkeeper table and a match table. In
  mock mode `DbService` works on them: `list` hands out the table, and
  `toggleStatus(id)` negates `status` on the rows with that id.
  `assignGoleiro(partidaId, goleiroId)` sets `idgoleiro` and forces
  `status = 'confirmado'` on the rows with that id. The mock store is the class
  `MockStore.MockDb`. Its invariant says that ids are unique and that every
  confirmed match has a goalkeeper.
- **Client state.** The `App` component holds the cached tables, the
  `isLoading`/`isUpdating` flags and the swap dialog's state. Its handlers
  call the store and then patch the cache optimistically. This is the class
  `Client.App`. Its methods show that a cache equal to the store stays equal
  after every handler (`Synced`).

The pure parts are functions with lemmas about them. They cover the per-row
`map` rewrites (`Domain`), the `filter`/`find` calls of the views (`Seqs`,
`Dashboard`), the dashboard's KPI values, and the `String(id)`/`parseInt` round
trip through the swap `<select>` (`JsNumbers`).

Modules, one file each: `Wrappers` (Option), `Seqs`, `JsNumbers`, `Domain`,
`Dashboard`, `MockStore`, `Client`.

Modelling choices:
- JavaScript `null` for `idgoleiro` is `None`. The match status is the
  three-constructor datatype `MatchStatus`.
- Each `await` on the store is an immediate step: `setTimeout` and the
  `DB_DELAY` waits take no time. So `isUpdating` is back to `false` when a
  handler returns, and `Valid()` includes `!isUpdating`.
- The client's toggle patch (index.tsx:194) is the same `map` as the store's
  (index.tsx:96), so both use `Domain.ToggleRows`. The swap patch
  (index.tsx:210-212) takes `parseInt(selectedNewGoleiroId)`, the value the
  store was given, so both use `Domain.AssignRows`. That the patches mirror the
  store is stated as `old(Synced()) ==> Synced()` in the handlers' contracts.
- The swap `<select>` can only take the value of one of its options
  (`Dashboard.SwapOptions`): the placeholder `""` or `String(g.id)` for an
  active goalkeeper. `Client.App.SelectNewGoleiro` picks an option by its
  index. So `parseInt` in `confirmSwap` never yields `NaN`: see
  `JsNumbers.ParseIntOfIntToString`.
- Ids are mathematical integers (`int`). JavaScript numbers are doubles, but
  the ids are small integers.

## Model

| member | source | states |
|---|---|---|
| `Seqs.Filter` | index.tsx:329-330 | `filter` keeps exactly the elements satisfying the predicate and never lengthens the list |
| `Seqs.FilterMultiplicity` | index.tsx:329-330 | every element occurs in the filtered list as often as in the input if it satisfies the predicate, and never otherwise, so the filtered length counts the matching rows |
| `Seqs.FilterConcat` | index.tsx:570 | filtering distributes over concatenation, so the selected elements keep their original relative order |
| `Seqs.Find` | index.tsx:478 | `find` returns nothing iff no element matches; otherwise it returns an element that matches and no earlier element does |
| `JsNumbers.IntToString` | index.tsx:571 | the option value `String(id)` is never empty, so the truthy guard of `confirmSwap` accepts every real option |
| `JsNumbers.ParseInt` | index.tsx:207 | `parseInt` yields `NaN` (`None`) exactly when, after leading whitespace and an optional sign, no decimal digit follows; a negative result needs a leading minus |
| `JsNumbers.ParseIntOfIntToString` | index.tsx:207 | `parseInt(String(n))` gives back `n` for every integer id, negative ids included |
| `JsNumbers.IntToStringInjective` | index.tsx:571 | different goalkeeper ids give different option values |
| `Domain.ToggleRows` | index.tsx:96 | same length; rows with the given id have `status` negated, other rows keep `status`; every other field of every row is unchanged |
| `Domain.AssignRows` | index.tsx:121-123 | same length; rows with the given match id get the goalkeeper id and `Confirmado` whatever their prior status; their other fields are unchanged, and rows with other ids are unchanged |
| `Domain.ToggleTwice` | index.tsx:96 | toggling the same id twice restores the table |
| `Domain.ToggleAbsent` | index.tsx:96 | toggling an id that no row has leaves the table unchanged |
| `Domain.AssignIdempotent` | index.tsx:121-123 | assigning twice equals assigning once |
| `Domain.AssignAbsent` | index.tsx:121-123 | assigning to a match id that no row has leaves the table unchanged |
| `Domain.AssignPreservesConfirmedHaveGoalkeeper` | index.tsx:121-123 | if every confirmed match has a goalkeeper before an assignment, that still holds afterwards |
| `Domain.ToggleKeepsIds` | index.tsx:96 | toggling changes no row's id, so unique goalkeeper ids stay unique |
| `Domain.AssignKeepsIds` | index.tsx:121-123 | assignment changes no row's id, so unique match ids stay unique |
| `Dashboard.ActiveGoleiros` | index.tsx:570 | the goalkeepers offered for a swap (and counted as "Ativos") are all active, all come from the table, and every active goalkeeper is among them |
| `Dashboard.ConfirmedPartidas` | index.tsx:329 | the matches counted as "Confirmados" are all confirmed and all from the table, and every confirmed match is among them |
| `Dashboard.DashboardKpis` | index.tsx:328-331 | `totalPartidas` is the number of matches; `confirmadas <= totalPartidas`; `ativos` is at most the number of goalkeepers; `confirmadas` is the length of the confirmed-match filter and `ativos` that of the active-goalkeeper filter; `receitas == 80 * confirmadas` |
| `Dashboard.GoleiroOf` | index.tsx:478 | a match without a goalkeeper finds nothing; a goalkeeper that is found is in the table and has the match's `idgoleiro`; nothing found means no row has that id |
| `Dashboard.GoleiroOfUnique` | index.tsx:478 | with unique ids, the lookup returns a given row exactly when the match names that row's id |
| `Dashboard.SwapOptions` | index.tsx:569-572 | the options are the placeholder `""` followed by `String(g.id)` for each active goalkeeper, in table order |
| `Dashboard.SwapOptionParses` | index.tsx:564-572 | only the placeholder is empty; every other option reads back with `parseInt` as the id of an active goalkeeper from the table |
| `Dashboard.ToggleShiftsActiveCount` | index.tsx:330 | with unique ids, toggling an existing goalkeeper changes the "Ativos" count by exactly one: down if it was active, up if not |
| `Dashboard.AssignRaisesConfirmedCount` | index.tsx:329 | with unique ids, assigning to an existing match raises the "Confirmados" count by one, or by zero if it was already confirmed |
| `MockStore.FixtureWellFormed` | index.tsx:54-68 | the fixture has unique ids in both tables, and its confirmed matches have goalkeepers |
| `MockStore.AssignPendingFixtureMatch` | index.tsx:64 | assigning goalkeeper 2 to the pending fixture match 102 makes it confirmed with goalkeeper 2 |
| `MockStore.MockDb.constructor` | index.tsx:54-68 | the store starts with the fixture tables and satisfies its invariant |
| `MockStore.MockDb.ListGoleiros` | index.tsx:87 | returns the goalkeeper table as it stands |
| `MockStore.MockDb.ListPartidas` | index.tsx:108 | returns the match table as it stands |
| `MockStore.MockDb.ToggleStatus` | index.tsx:94-99 | the new goalkeeper table is `ToggleRows` of the old one; the match table and the invariant are kept |
| `MockStore.MockDb.AssignGoleiro` | index.tsx:119-126 | the new match table is `AssignRows` of the old one; the goalkeeper table and the invariant are kept |
| `Client.App.constructor` | index.tsx:149-160 | initial state: dashboard view, empty caches, loading, not updating, dialog closed, nothing selected |
| `Client.App.FetchData` | index.tsx:172-186 | afterwards the cache equals both store tables and loading is over; the dialog state is untouched |
| `Client.App.SetView` | index.tsx:274-291 | only the selected view changes |
| `Client.App.ToggleGoleiroStatus` | index.tsx:190-196 | store and cache both get `ToggleRows` for the id; a synced cache stays synced; matches, dialog and view unchanged; `isUpdating` ends false |
| `Client.App.OpenSwapModal` | index.tsx:198-202 | selects the match, resets the chosen goalkeeper to `""` and opens the dialog; the tables are untouched |
| `Client.App.CloseSwapModal` | index.tsx:577 | closes the dialog and keeps the selection |
| `Client.App.SelectNewGoleiro` | index.tsx:564-573 | the selection becomes the chosen option's value; a real option reads back as that active goalkeeper's id |
| `Client.App.ConfirmSwap` | index.tsx:204-217 | without a selected match or chosen goalkeeper nothing changes; otherwise store and cache both get `AssignRows` for the selected match and parsed id, the dialog closes and `isUpdating` ends false; a synced cache stays synced |
| `Client.FixtureFirstOption` | index.tsx:56 | on the fixture, the first goalkeeper offered for a swap is goalkeeper 1 |
| `Client.SwapSession` | index.tsx:198-216 | mount, open the dialog for a fixture match, pick the first option and confirm: the match is confirmed with goalkeeper 1, the cache equals the store, and the dialog is closed |

## Left out

- The real-backend branches of `DbService` (`USE_REAL_API`, `fetch`, the silent fallback to the fixture): these are network I/O.
- The serverless handlers `api/_db.js`, `api/goleiros/index.js`, `api/goleiros/[id]/toggle.js`, `api/partidas/index.js`, `api/partidas/[id]/assign.js` and `api/test-db.js`: they are SQL strings sent through a MySQL driver, and HTTP status plumbing.
- `vite.config.ts`: build configuration.
- `generateAIMessage` and the message dialog's state (`isAIModalOpen`, `aiGeneratedText`, `isGenerating`), the clipboard copy, and the `p.idgoleiro &&` test that shows its button: these are an external text-generation API.
- `rating`: a floating-point, display-only field.
- `DB_DELAY`, `setTimeout` and Promise scheduling: every await is an immediate step. Handlers that interleave while one of them awaits are not modelled.
- The `catch` branch of `fetchData`: the fixture lists never reject.
- JSX, SVG, styling, the "Últimas Atividades" slice and `toLocaleDateString`: presentation only.
- `JsNumbers.ParseInt`: it skips only ASCII whitespace. It ignores the `0x` hexadecimal prefix that `parseInt` honours without a radix, because option values are `String(id)` and never start with `0x`.
- `JsNumbers.IntToString`: it does not model the exponent notation `String` uses at magnitudes of 10^21 and above. It does not model double-precision rounding either, because ids are small integers.
- `Client.App.SelectNewGoleiro`: the `onChange` value is taken as an option index, not as an arbitrary DOM string, because the `<select>` only takes one of its option values.
