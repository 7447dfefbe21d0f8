// The level_data table and its access object: one row per epoch day,
// insert-or-replace, the newest-first range query, the latest row, the
// predicate delete and the guarded retention prune.

module LevelStore {
  import opened DayOrder

  /** Kotlin's `Int`. */
  newtype Int32 = x: int | -0x8000_0000 <= x < 0x8000_0000

  /** A nullable value. */
  datatype Option<T> = None | Some(value: T)

  /** One row of level_data. `date` is an epoch day and the primary key. */
  datatype LevelData = LevelData(date: int, level: Int32, dayAtLevel: Int32, goalLevel: Option<Int32>)

  /** The table, indexed by its primary key. */
  type Table = map<int, LevelData>

  /** Every row is stored under its own date, so a date names at most one row. */
  ghost predicate Keyed(t: Table) {
    forall d :: d in t ==> t[d].date == d
  }

  /** `u` holds some of the rows of `t`, each unchanged. */
  ghost predicate SubTable(u: Table, t: Table) {
    forall d :: d in u ==> d in t && u[d] == t[d]
  }

  /** The rows of `t`, in the order `ORDER BY date DESC` lists them. */
  function Rows(t: Table, days: seq<int>): (rs: seq<LevelData>)
    requires forall i :: 0 <= i < |days| ==> days[i] in t
    ensures |rs| == |days|
    ensures forall i :: 0 <= i < |days| ==> rs[i] == t[days[i]]
    ensures forall d :: d in days ==> t[d] in rs
  {
    var rs := seq(|days|, i requires 0 <= i < |days| => t[days[i]]);
    assert forall d :: d in days ==> t[d] in rs by {
      forall d | d in days ensures t[d] in rs {
        var i :| 0 <= i < |days| && days[i] == d;
        assert rs[i] == t[d];
      }
    }
    rs
  }

  /** insertLevel with OnConflictStrategy.REPLACE: the row dated `r.date` becomes `r`. */
  function Insert(t: Table, r: LevelData): (u: Table)
    ensures Keyed(t) ==> Keyed(u)
    ensures r.date in u && u[r.date] == r
    ensures forall d :: d != r.date ==> (d in u <==> d in t) && (d in t ==> u[d] == t[d])
  {
    t[r.date := r]
  }

  /** getLevelsFrom: `WHERE date >= startDate ORDER BY date DESC`. */
  function LevelsFrom(t: Table, startDate: int): (rs: seq<LevelData>)
    requires Keyed(t)
    ensures forall i, j :: 0 <= i < j < |rs| ==> rs[i].date > rs[j].date
    ensures forall i :: 0 <= i < |rs| ==> rs[i].date >= startDate && rs[i].date in t && t[rs[i].date] == rs[i]
    ensures forall d :: d in t && d >= startDate ==> t[d] in rs
  {
    var days := NewestFirst(set d | d in t && d >= startDate);
    var rs := Rows(t, days);
    assert forall i :: 0 <= i < |rs| ==> rs[i].date == days[i];
    rs
  }

  /** getLatestLevel: `ORDER BY date DESC LIMIT 1`; None on an empty table. */
  function Latest(t: Table): (r: Option<LevelData>)
    requires Keyed(t)
    ensures r.None? <==> t == map[]
    ensures r.Some? ==> r.value.date in t && t[r.value.date] == r.value
    ensures r.Some? ==> forall d :: d in t ==> d <= r.value.date
  {
    var all := Rows(t, NewestFirst(t.Keys));
    if all == [] then None else Some(all[0])
  }

  /** deleteOldEntries: `DELETE WHERE date < sevenDaysAgoEpoch AND date != latestDateEpoch`. */
  function DeleteOld(t: Table, sevenDaysAgoEpoch: int, latestDateEpoch: int): (u: Table)
  {
    map d | d in t && !(d < sevenDaysAgoEpoch && d != latestDateEpoch) :: t[d]
  }

  /** pruneOldData run on epoch day `today`. */
  function Pruned(t: Table, today: int): (u: Table)
    requires Keyed(t)
  {
    match Latest(t)
    case None => t
    case Some(latestLevel) =>
      var sevenDaysAgo := today - 7;
      if latestLevel.date >= sevenDaysAgo then DeleteOld(t, sevenDaysAgo, latestLevel.date) else t
  }

  // ---------------------------------------------------------------------------
  // Properties of the store operations

  /** In a keyed table a date names exactly one row: the row stored under it. */
  lemma OneRowPerDate(t: Table, r: LevelData)
    requires Keyed(t) && r in t.Values
    ensures r.date in t && t[r.date] == r
  {
    if forall d :: d in t ==> t[d] != r {
      assert false;
    }
  }

  /** After insertLevel(r) the only row dated `r.date` is `r`. */
  lemma InsertLeavesOneRow(t: Table, r: LevelData)
    requires Keyed(t)
    ensures forall x :: x in Insert(t, r).Values && x.date == r.date ==> x == r
  {
    forall x | x in Insert(t, r).Values && x.date == r.date ensures x == r {
      OneRowPerDate(Insert(t, r), x);
    }
  }

  /** Writing the same date twice keeps one row, the second write. */
  lemma InsertTwice(t: Table, r1: LevelData, r2: LevelData)
    requires Keyed(t) && r1.date == r2.date
    ensures Insert(Insert(t, r1), r2) == Insert(t, r2)
    ensures |Insert(Insert(t, r1), r2)| == |Insert(t, r1)|
  {
  }

  /** A row just written is returned, unchanged, by a query from its own date. */
  lemma InsertThenQuery(t: Table, r: LevelData)
    requires Keyed(t)
    ensures Keyed(Insert(t, r)) && r in LevelsFrom(Insert(t, r), r.date)
  {
  }

  /** After a write the latest row is the new row or the previous latest, whichever is newer. */
  lemma {:induction false} LatestAfterInsert(t: Table, r: LevelData)
    requires Keyed(t)
    ensures Keyed(Insert(t, r))
    ensures Latest(Insert(t, r)) ==
      if Latest(t).Some? && Latest(t).value.date > r.date then Latest(t) else Some(r)
  {
    var u := Insert(t, r);
    var l := Latest(u);
    if Latest(t).Some? && Latest(t).value.date > r.date {
      var m := Latest(t).value;
      assert m.date in u && u[m.date] == m;
      assert l.value.date <= m.date && m.date <= l.value.date;
    } else {
      assert r.date in u;
      assert l.value.date == r.date;
    }
  }

  /** A stored row no older than any other stored row is the latest row. */
  lemma LatestIsNewest(t: Table, r: LevelData)
    requires Keyed(t) && r.date in t && t[r.date] == r
    requires forall d :: d in t ==> d <= r.date
    ensures Latest(t) == Some(r)
  {
    assert Latest(t).value.date == r.date;
  }

  /** The latest row heads every query that starts no later than its date. */
  lemma {:induction false} LatestHeadsQuery(t: Table, startDate: int)
    requires Keyed(t) && Latest(t).Some? && startDate <= Latest(t).value.date
    ensures LevelsFrom(t, startDate) != [] && LevelsFrom(t, startDate)[0] == Latest(t).value
  {
    var l := Latest(t).value;
    var rs := LevelsFrom(t, startDate);
    assert t[l.date] in rs;
    var k :| 0 <= k < |rs| && rs[k] == l;
    if k > 0 {
      assert false;
    }
  }

  /** deleteOldEntries removes exactly the rows older than the cutoff that are not dated `latestDateEpoch`. */
  lemma DeleteOldRemovesExactly(t: Table, sevenDaysAgoEpoch: int, latestDateEpoch: int)
    requires Keyed(t)
    ensures Keyed(DeleteOld(t, sevenDaysAgoEpoch, latestDateEpoch))
    ensures SubTable(DeleteOld(t, sevenDaysAgoEpoch, latestDateEpoch), t)
    ensures t.Keys - DeleteOld(t, sevenDaysAgoEpoch, latestDateEpoch).Keys ==
            set d | d in t && d < sevenDaysAgoEpoch && d != latestDateEpoch
    ensures latestDateEpoch in t ==> latestDateEpoch in DeleteOld(t, sevenDaysAgoEpoch, latestDateEpoch)
    ensures forall d :: d in t && d >= sevenDaysAgoEpoch ==> d in DeleteOld(t, sevenDaysAgoEpoch, latestDateEpoch)
  {
  }

  /** A sub-table that keeps the latest row has the same latest row. */
  lemma {:induction false} LatestOfSubTable(u: Table, t: Table)
    requires Keyed(t) && SubTable(u, t)
    requires Latest(t).Some? && Latest(t).value.date in u
    ensures Keyed(u) && Latest(u) == Latest(t)
  {
    var m := Latest(t).value;
    assert Keyed(u);
    var l := Latest(u);
    assert l.Some?;
    assert l.value.date in t;
    assert l.value.date <= m.date && m.date <= l.value.date;
  }

  /** pruneOldData does nothing on an empty table or when the latest row is older than today-7. */
  lemma PruneGuard(t: Table, today: int)
    requires Keyed(t)
    ensures t == map[] ==> Pruned(t, today) == t
    ensures Latest(t).Some? && Latest(t).value.date < today - 7 ==> Pruned(t, today) == t
  {
  }

  /**
   * When the latest row is no older than today-7, pruneOldData leaves only rows
   * dated today-7 or later, plus the latest row, which it keeps.
   */
  lemma PruneFresh(t: Table, today: int)
    requires Keyed(t) && Latest(t).Some? && Latest(t).value.date >= today - 7
    ensures Latest(t).value.date in Pruned(t, today)
    ensures forall d :: d in Pruned(t, today) ==> d >= today - 7 || d == Latest(t).value.date
    ensures forall d :: d in t && d >= today - 7 ==> d in Pruned(t, today)
  {
  }

  /** pruneOldData only removes rows, never empties the table and never changes getLatestLevel. */
  lemma {:induction false} PruneKeepsLatest(t: Table, today: int)
    requires Keyed(t)
    ensures Keyed(Pruned(t, today)) && SubTable(Pruned(t, today), t)
    ensures t != map[] ==> Pruned(t, today) != map[]
    ensures Latest(Pruned(t, today)) == Latest(t)
  {
    match Latest(t)
    case None =>
    case Some(latestLevel) =>
      if latestLevel.date >= today - 7 {
        DeleteOldRemovesExactly(t, today - 7, latestLevel.date);
        LatestOfSubTable(Pruned(t, today), t);
      }
  }

  /** Rows dated D-10, D-8, D-1 and D: pruning on day D removes D-10 and D-8 and keeps the rest. */
  lemma {:induction false} PruneRecentScenario(t: Table, today: int, a: LevelData, b: LevelData, c: LevelData, e: LevelData)
    requires a.date == today - 10 && b.date == today - 8 && c.date == today - 1 && e.date == today
    requires t == map[a.date := a, b.date := b, c.date := c, e.date := e]
    ensures Keyed(t) && Pruned(t, today).Keys == {today - 1, today}
  {
    assert Keyed(t);
    LatestIsNewest(t, e);
    PruneFresh(t, today);
  }

  /** A lone row dated D-20: pruning on day D keeps it, because the guard fails. */
  lemma {:induction false} PruneStaleScenario(t: Table, today: int, a: LevelData)
    requires a.date == today - 20 && t == map[a.date := a]
    ensures Keyed(t) && Pruned(t, today) == t
  {
    assert Latest(t).value == a by {
      assert a.date in t;
    }
  }

  // ---------------------------------------------------------------------------
  // The data access object

  /** LevelDao over the level_data table. */
  class LevelDao {
    var rows: Table

    ghost predicate Valid()
      reads this
    {
      Keyed(rows)
    }

    /** A fresh, empty database. */
    constructor()
      ensures Valid() && rows == map[]
    {
      rows := map[];
    }

    method InsertLevel(levelData: LevelData)
      requires Valid()
      modifies this
      ensures Valid() && rows == Insert(old(rows), levelData)
    {
      rows := Insert(rows, levelData);
    }

    method GetLevelsFrom(startDate: int) returns (levels: seq<LevelData>)
      requires Valid()
      ensures levels == LevelsFrom(rows, startDate)
    {
      levels := LevelsFrom(rows, startDate);
    }

    method GetLatestLevel() returns (latest: Option<LevelData>)
      requires Valid()
      ensures latest == Latest(rows)
    {
      latest := Latest(rows);
    }

    method DeleteOldEntries(sevenDaysAgoEpoch: int, latestDateEpoch: int)
      requires Valid()
      modifies this
      ensures Valid() && rows == DeleteOld(old(rows), sevenDaysAgoEpoch, latestDateEpoch)
    {
      DeleteOldRemovesExactly(rows, sevenDaysAgoEpoch, latestDateEpoch);
      rows := DeleteOld(rows, sevenDaysAgoEpoch, latestDateEpoch);
    }

    /** Reads the latest row, then deletes old rows only if that row is recent. */
    method PruneOldData(today: int)
      requires Valid()
      modifies this
      ensures Valid() && rows == Pruned(old(rows), today)
      ensures Latest(rows) == Latest(old(rows))
      ensures old(rows) != map[] ==> rows != map[]
    {
      PruneKeepsLatest(rows, today);
      var latestLevel := GetLatestLevel();
      if latestLevel.None? {
        return;
      }
      var sevenDaysAgo := today - 7;
      var latestDate := latestLevel.value.date;
      if latestDate >= sevenDaysAgo {
        DeleteOldEntries(sevenDaysAgo, latestDate);
      }
    }
  }
}
