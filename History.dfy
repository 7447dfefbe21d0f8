// The view model: the seven-day history projection of the store and the
// "record today's level" write path (insert, prune, reload).

module History {
  import opened LevelStore

  /** The state shown by the screen: one entry per day of the last week, and the latest row. */
  datatype LevelHistoryUiState = LevelHistoryUiState(
    lastSevenDays: map<int, Option<LevelData>>,
    latestLevel: Option<LevelData>)

  /** `historyData.find { it.date == date }`: the first row dated `date`, if any. */
  function Find(historyData: seq<LevelData>, date: int): (r: Option<LevelData>)
    ensures r.None? <==> forall i :: 0 <= i < |historyData| ==> historyData[i].date != date
    ensures r.Some? ==> exists i :: 0 <= i < |historyData| && historyData[i] == r.value && r.value.date == date &&
                                    forall j :: 0 <= j < i ==> historyData[j].date != date
  {
    if historyData == [] then None
    else if historyData[0].date == date then Some(historyData[0])
    else
      var r := Find(historyData[1..], date);
      assert r.Some? ==> exists i :: 0 <= i < |historyData| && historyData[i] == r.value && r.value.date == date &&
                                     forall j :: 0 <= j < i ==> historyData[j].date != date by {
        if r.Some? {
          var k :| 0 <= k < |historyData[1..]| && historyData[1..][k] == r.value && r.value.date == date &&
                   forall j :: 0 <= j < k ==> historyData[1..][j].date != date;
          assert historyData[k + 1] == r.value;
          assert forall j :: 0 <= j < k + 1 ==> historyData[j].date != date by {
            forall j | 0 <= j < k + 1 ensures historyData[j].date != date {
              if j > 0 {
                assert historyData[j] == historyData[1..][j - 1];
              }
            }
          }
        }
      }
      assert r.None? ==> forall i :: 0 <= i < |historyData| ==> historyData[i].date != date by {
        if r.None? {
          forall i | 0 <= i < |historyData| ensures historyData[i].date != date {
            if i > 0 {
              assert historyData[i] == historyData[1..][i - 1];
            }
          }
        }
      }
      r
  }

  /** `(0..6).associate { today.minusDays(it) to find(...) }`: the days today-6 .. today. */
  function DateMap(historyData: seq<LevelData>, today: int): (m: map<int, Option<LevelData>>)
  {
    map d | today - 6 <= d <= today :: Find(historyData, d)
  }

  /** The state loadLevelHistory publishes for the table `t` on day `today`. */
  ghost function HistoryState(t: Table, today: int): LevelHistoryUiState
    requires Keyed(t)
  {
    LevelHistoryUiState(DateMap(LevelsFrom(t, today - 6), today), Latest(t))
  }

  /** The table after recordLevel wrote `entry` on day `today`. */
  ghost function Recorded(t: Table, today: int, entry: LevelData): Table
    requires Keyed(t)
  {
    Pruned(Insert(t, entry), today)
  }

  // ---------------------------------------------------------------------------
  // Properties of the history view and of the write path

  /** The `n` consecutive days starting at `lo`. */
  function DayRun(lo: int, n: nat): (s: set<int>)
    ensures forall d :: d in s <==> lo <= d < lo + n
    ensures |s| == n
  {
    if n == 0 then {} else DayRun(lo, n - 1) + {lo + n - 1}
  }

  /** The history has exactly seven distinct keys: today, today-1, ..., today-6. */
  lemma {:induction false} SevenDays(t: Table, today: int)
    requires Keyed(t)
    ensures var m := HistoryState(t, today).lastSevenDays;
      (forall d :: d in m <==> today - 6 <= d <= today) && |m| == 7
  {
    var m := HistoryState(t, today).lastSevenDays;
    assert m.Keys == DayRun(today - 6, 7);
  }

  /**
   * Each day of the history holds exactly the stored row for that date, or None
   * when nothing is stored for it; so a row dated today-6 is shown and nothing
   * dated before today-6 is.
   */
  lemma {:induction false} HistoryLookup(t: Table, today: int)
    requires Keyed(t)
    ensures var m := HistoryState(t, today).lastSevenDays;
      forall d :: d in m ==> m[d] == if d in t then Some(t[d]) else None
    ensures var m := HistoryState(t, today).lastSevenDays;
      today - 6 in m && m[today - 6] == (if today - 6 in t then Some(t[today - 6]) else None)
    ensures var m := HistoryState(t, today).lastSevenDays;
      forall d :: d in m && m[d].Some? ==> m[d].value.date >= today - 6
  {
    var rs := LevelsFrom(t, today - 6);
    var m := HistoryState(t, today).lastSevenDays;
    forall d | d in m ensures m[d] == if d in t then Some(t[d]) else None {
      if d in t {
        assert t[d] in rs;
        var r := Find(rs, d).value;
        assert r.date in t && t[r.date] == r;
      }
    }
  }

  /** latestLevel is getLatestLevel, even when that row lies outside the seven-day window. */
  lemma {:induction false} LatestOutsideWindow(t: Table, today: int)
    requires Keyed(t) && t != map[] && forall d :: d in t ==> d < today - 6
    ensures var s := HistoryState(t, today);
      s.latestLevel.Some? && s.latestLevel == Latest(t) &&
      forall d :: d in s.lastSevenDays ==> s.lastSevenDays[d] == None
  {
    HistoryLookup(t, today);
  }

  /** recordLevel leaves today's row in the table, exactly as written. */
  lemma {:induction false} RecordKeepsToday(t: Table, today: int, entry: LevelData)
    requires Keyed(t) && entry.date == today
    ensures Keyed(Recorded(t, today, entry))
    ensures today in Recorded(t, today, entry) && Recorded(t, today, entry)[today] == entry
  {
    var u := Insert(t, entry);
    PruneKeepsLatest(u, today);
    match Latest(u)
    case Some(l) =>
      if l.date >= today - 7 {
        PruneFresh(u, today);
      }
  }

  /** With no row dated after today, recordLevel leaves only rows from today-7 on. */
  lemma {:induction false} RecordBoundsHistory(t: Table, today: int, entry: LevelData)
    requires Keyed(t) && entry.date == today
    requires forall d :: d in t ==> d <= today
    ensures forall d :: d in Recorded(t, today, entry) ==> d >= today - 7
  {
    var u := Insert(t, entry);
    LatestIsNewest(u, entry);
    PruneFresh(u, today);
  }

  // ---------------------------------------------------------------------------
  // The view model

  class LevelViewModel {
    const dao: LevelDao
    var uiState: LevelHistoryUiState

    /** Opens the view model over `levelDao` and loads the history, as `init` does. */
    constructor(levelDao: LevelDao, today: int)
      requires levelDao.Valid()
      ensures dao == levelDao && uiState == HistoryState(dao.rows, today)
    {
      dao := levelDao;
      uiState := LevelHistoryUiState(map[], None);
      new;
      LoadLevelHistory(today);
    }

    /** Queries the last seven days and the latest row, and publishes them. */
    method LoadLevelHistory(today: int)
      requires dao.Valid()
      modifies this
      ensures uiState == HistoryState(dao.rows, today)
    {
      var sevenDaysAgo := today - 6;
      var historyData := dao.GetLevelsFrom(sevenDaysAgo);
      var latestLevelData := dao.GetLatestLevel();
      var dateMap := DateMap(historyData, today);
      uiState := uiState.(lastSevenDays := dateMap, latestLevel := latestLevelData);
    }

    /** Writes today's row, prunes old rows, then reloads the history. */
    method RecordLevel(today: int, level: Int32, dayAtLevel: Int32, goalLevel: Option<Int32>)
      requires dao.Valid()
      modifies this, dao
      ensures dao.Valid()
      ensures dao.rows == Recorded(old(dao.rows), today, LevelData(today, level, dayAtLevel, goalLevel))
      ensures today in dao.rows && dao.rows[today] == LevelData(today, level, dayAtLevel, goalLevel)
      ensures (forall d :: d in old(dao.rows) ==> d <= today) ==> forall d :: d in dao.rows ==> d >= today - 7
      ensures uiState == HistoryState(dao.rows, today)
      ensures uiState.latestLevel == Latest(dao.rows)
    {
      var newEntry := LevelData(today, level, dayAtLevel, goalLevel);
      RecordKeepsToday(dao.rows, today, newEntry);
      if forall d :: d in dao.rows ==> d <= today {
        RecordBoundsHistory(dao.rows, today, newEntry);
      }
      dao.InsertLevel(newEntry);
      dao.PruneOldData(today);
      LoadLevelHistory(today);
    }
  }
}
