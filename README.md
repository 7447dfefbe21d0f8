# Hinge-Level daily record store — a Dafny model

Hinge-Level is an Android tracker in which the user records, once a day, an
integer level, the number of days spent at that level and an optional goal
level. This project models its core: the `level_data` table keyed by epoch day,
the data access object `LevelDao` with its insert-or-replace, newest-first range
query, latest-row query, predicate delete and guarded retention prune, and the
view model that writes today's row and projects the table onto the last seven
calendar days.

Layout:

- `DayOrder.dfy` (module `DayOrder`): the latest day of a set of days and the
  newest-first listing of a set of days, which is what `ORDER BY date DESC` does.
- `LevelStore.dfy` (module `LevelStore`): the `LevelData` row, the table as a
  `map<int, LevelData>` with the invariant `Keyed` (every row stored under its
  own date), one specification function per query or statement (`Insert`,
  `LevelsFrom`, `Latest`, `DeleteOld`, `Pruned`), lemmas about them, and the
  class `LevelDao`. Its field `rows` is the table. Its methods update or read
  `rows` and are proved against those functions.
- `History.dfy` (module `History`): `LevelHistoryUiState`, the exact-date
  lookup `Find`, the seven-day map `DateMap`, the specification functions
  `HistoryState` and `Recorded`, lemmas about them, and the class
  `LevelViewModel`. It holds the DAO and the published UI state.

The clock is a parameter: every operation that calls `LocalDate.now()` takes
the current epoch day as `today`. `LocalDate.now().minusDays(n).toEpochDay()`
is `today - n`. `isAfter(x) || isEqual(x)` on dates is `>= x` on epoch days.

## Model

| member | source | states |
|---|---|---|
| `DayOrder.NewestFirst` | app/src/main/java/com/example/hingelevel/LevelData.kt:27-31 | `ORDER BY date DESC` lists every day of the set exactly once, in strictly descending order |
| `LevelStore.Insert` | app/src/main/java/com/example/hingelevel/LevelData.kt:24-25 | insert-or-replace: the row for `r.date` becomes `r`, every other date keeps its row or stays absent, and the key invariant is preserved |
| `LevelStore.LevelsFrom` | app/src/main/java/com/example/hingelevel/LevelData.kt:27-28 | the query returns exactly the stored rows dated on or after `startDate`, in strictly descending date order |
| `LevelStore.Latest` | app/src/main/java/com/example/hingelevel/LevelData.kt:30-31 | None exactly when the table is empty; otherwise a stored row whose date is at least every stored date |
| `LevelStore.OneRowPerDate` | app/src/main/java/com/example/hingelevel/LevelData.kt:14-16 | with `date` as primary key, a stored row is the row stored under its own date |
| `LevelStore.InsertLeavesOneRow` | app/src/main/java/com/example/hingelevel/LevelData.kt:16-25 | after `insertLevel(r)` the only row dated `r.date` is `r` |
| `LevelStore.InsertTwice` | app/src/main/java/com/example/hingelevel/LevelData.kt:24-25 | writing the same date twice leaves one row for it, the second write, and no extra row |
| `LevelStore.InsertThenQuery` | app/src/main/java/com/example/hingelevel/LevelData.kt:24-28 | a row just written is returned unchanged by a query starting at its own date |
| `LevelStore.LatestAfterInsert` | app/src/main/java/com/example/hingelevel/LevelData.kt:24-31 | after a write the latest row is the previous latest if it is newer, otherwise the row just written |
| `LevelStore.LatestIsNewest` | app/src/main/java/com/example/hingelevel/LevelData.kt:30-31 | a stored row dated no earlier than any stored row is what `getLatestLevel` returns |
| `LevelStore.LatestHeadsQuery` | app/src/main/java/com/example/hingelevel/LevelData.kt:27-31 | the latest row is the first row of every range query that starts no later than its date |
| `LevelStore.DeleteOldRemovesExactly` | app/src/main/java/com/example/hingelevel/LevelData.kt:33-34 | the delete removes exactly the rows dated before the cutoff and not dated `latestDateEpoch`; the row dated `latestDateEpoch` and every row on or after the cutoff stay, unchanged |
| `LevelStore.LatestOfSubTable` | app/src/main/java/com/example/hingelevel/LevelData.kt:30-34 | deleting rows other than the latest row does not change `getLatestLevel` |
| `LevelStore.PruneGuard` | app/src/main/java/com/example/hingelevel/LevelData.kt:37-49 | the prune changes nothing on an empty table, and nothing when the latest row is older than today-7 |
| `LevelStore.PruneFresh` | app/src/main/java/com/example/hingelevel/LevelData.kt:42-48 | when the latest row is no older than today-7, the prune keeps it, keeps every row from today-7 on, and leaves no other row |
| `LevelStore.PruneKeepsLatest` | app/src/main/java/com/example/hingelevel/LevelData.kt:37-50 | the prune only removes rows, never empties a non-empty table and never changes `getLatestLevel` |
| `LevelStore.PruneRecentScenario` | app/src/main/java/com/example/hingelevel/LevelData.kt:37-50 | rows dated D-10, D-8, D-1 and D: pruning on day D leaves exactly the rows dated D-1 and D |
| `LevelStore.PruneStaleScenario` | app/src/main/java/com/example/hingelevel/LevelData.kt:42-49 | a lone row dated D-20 survives a prune on day D |
| `LevelStore.LevelDao.constructor` | app/src/main/java/com/example/hingelevel/LevelData.kt:53-56 | a new database has an empty, keyed table |
| `LevelStore.LevelDao.InsertLevel` | app/src/main/java/com/example/hingelevel/LevelData.kt:24-25 | the new table is `Insert` of the old one, and the key invariant holds |
| `LevelStore.LevelDao.GetLevelsFrom` | app/src/main/java/com/example/hingelevel/LevelData.kt:27-28 | returns `LevelsFrom` of the current table |
| `LevelStore.LevelDao.GetLatestLevel` | app/src/main/java/com/example/hingelevel/LevelData.kt:30-31 | returns `Latest` of the current table |
| `LevelStore.LevelDao.DeleteOldEntries` | app/src/main/java/com/example/hingelevel/LevelData.kt:33-34 | the new table is `DeleteOld` of the old one, and the key invariant holds |
| `LevelStore.LevelDao.PruneOldData` | app/src/main/java/com/example/hingelevel/LevelData.kt:36-50 | the new table is `Pruned` of the old one; the latest row is unchanged and a non-empty table stays non-empty |
| `History.Find` | app/src/main/java/com/example/hingelevel/LevelViewModel.kt:46 | None exactly when no row has the date; otherwise the first row in the list with that date |
| `History.SevenDays` | app/src/main/java/com/example/hingelevel/LevelViewModel.kt:40-48 | the history map has exactly seven distinct keys, the days today-6 through today |
| `History.HistoryLookup` | app/src/main/java/com/example/hingelevel/LevelViewModel.kt:40-48 | each day of the history maps to the stored row with that date, or to None when there is none; a row dated today-6 is shown, and no shown row is dated before today-6 |
| `History.LatestOutsideWindow` | app/src/main/java/com/example/hingelevel/LevelViewModel.kt:40-51 | when every row is older than the window, all seven days are None while `latestLevel` is still `getLatestLevel` |
| `History.RecordKeepsToday` | app/src/main/java/com/example/hingelevel/LevelViewModel.kt:58-67 | after insert-then-prune, the table holds today's row exactly as written |
| `History.RecordBoundsHistory` | app/src/main/java/com/example/hingelevel/LevelViewModel.kt:64-67 | when no row is dated after today, insert-then-prune leaves only rows dated today-7 or later |
| `History.LevelViewModel.constructor` | app/src/main/java/com/example/hingelevel/LevelViewModel.kt:30-35 | starts from the default state and loads the history, so the state is `HistoryState` of the table |
| `History.LevelViewModel.LoadLevelHistory` | app/src/main/java/com/example/hingelevel/LevelViewModel.kt:37-53 | the published state is the seven-day map built from the query from today-6, plus `getLatestLevel` |
| `History.LevelViewModel.RecordLevel` | app/src/main/java/com/example/hingelevel/LevelViewModel.kt:56-71 | the table becomes insert-then-prune of the old one and keeps today's row as written; with no future rows every remaining row is dated today-7 or later; the state is reloaded from the new table |

## Left out

- Room and SQLite plumbing are not modelled. This covers `Room.databaseBuilder`, the `AppDatabase` declaration and the `MIGRATION_1_2` column addition (LevelViewModel.kt:23-28 and 73-79, LevelData.kt:53-56). `LevelDao.constructor` stands for an opened database with an empty table.
- Coroutines (`viewModelScope.launch`), `MutableStateFlow`/`StateFlow` propagation and `@Transaction` atomicity are not modelled. Each operation is one sequential step, and `uiState` is a plain field.
- The clock is not modelled. `LocalDate.now()` becomes the parameter `today`. `recordLevel` reads the clock three times: for the new row, inside `pruneOldData`, and in the reload. The model assumes all three reads return the same day, so a write that straddles midnight is not modelled.
- `LocalDate.ofEpochDay` range limits are not modelled. Epoch days are unbounded integers, so the `DateTimeException` for dates outside the year range, and 64-bit `Long` overflow, are absent.
- The iteration order of the `LinkedHashMap` built by `associate` is not modelled. `lastSevenDays` is a Dafny map; the screen sorts its entries by date anyway.
- MainActivity.kt is not part of this model. Its `toIntOrNull` gate is reflected only in `RecordLevel` taking `Int32` arguments, with the goal level optional.
