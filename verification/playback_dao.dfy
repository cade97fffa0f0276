/** The `playback_history` table and the data-access operations over it.
    Rows are kept in rowid order, which is how SQLite returns them when no
    order is asked for; `lastId` is the AUTOINCREMENT high-water mark. */
module PlaybackDao {
  import opened Wrappers
  import opened Sorting

  /** One row. `id` is the auto-generated primary key; 0 at construction
      means "assign on insert". `filePath` carries no uniqueness
      constraint of its own. */
  datatype PlaybackRecord = PlaybackRecord(
    id: int,
    filePath: string,
    positionMs: int,
    durationMs: int,
    lastPlayed: int
  )

  /** `PlaybackRecord(filePath = .., positionMs = .., durationMs = ..)`
      built when the clock reads `now`: the id is left for the insert to
      assign, `lastPlayed` defaults to the clock, and the position and
      duration are stored as given, with no clamping. */
  function NewRecord(path: string, positionMs: int, durationMs: int, now: int): PlaybackRecord {
    PlaybackRecord(0, path, positionMs, durationMs, now)
  }

  datatype Table = Table(rows: seq<PlaybackRecord>, lastId: int)

  const EmptyTable := Table([], 0)

  /** Ids are distinct, ascend in row order, are never 0 (0 is never
      stored, it asks for a fresh id) and never exceed the high-water mark. */
  ghost predicate IdsAscending(rows: seq<PlaybackRecord>) {
    forall i, j :: 0 <= i < j < |rows| ==> rows[i].id < rows[j].id
  }

  ghost predicate Valid(t: Table) {
    && IdsAscending(t.rows)
    && (forall x :: x in t.rows ==> x.id != 0 && x.id <= t.lastId)
    && t.lastId >= 0
  }

  /** The property the entity leaves to its callers: at most one row per path. */
  ghost predicate UniquePaths(t: Table) {
    DistinctPaths(t.rows)
  }

  ghost predicate DistinctPaths(rows: seq<PlaybackRecord>) {
    forall i, j :: 0 <= i < j < |rows| ==> rows[i].filePath != rows[j].filePath
  }

  // ---------------------------------------------------------------------
  // Lookups

  /** The row with primary key `id`, if any. */
  function ById(rows: seq<PlaybackRecord>, id: int): (r: Option<PlaybackRecord>)
    ensures r.Some? ==> r.value in rows && r.value.id == id
    ensures r.None? <==> forall i :: 0 <= i < |rows| ==> rows[i].id != id
    decreases |rows|
  {
    if |rows| == 0 then None
    else if rows[0].id == id then Some(rows[0])
    else ById(rows[1..], id)
  }

  /** The rows for one path, in rowid order. */
  function RowsFor(rows: seq<PlaybackRecord>, path: string): (r: seq<PlaybackRecord>)
    ensures |r| == 0 <==> forall i :: 0 <= i < |rows| ==> rows[i].filePath != path
    decreases |rows|
  {
    if |rows| == 0 then []
    else (if rows[0].filePath == path then [rows[0]] else []) + RowsFor(rows[1..], path)
  }

  /** The rows for a path are exactly the table's rows that name it. */
  lemma {:induction false} RowsForMembers(rows: seq<PlaybackRecord>, path: string)
    ensures forall x :: x in RowsFor(rows, path) <==> x in rows && x.filePath == path
    decreases |rows|
  {
    if |rows| > 0 {
      RowsForMembers(rows[1..], path);
      assert forall x :: x in rows <==> x == rows[0] || x in rows[1..];
    }
  }

  /** `getPlaybackRecord(filePath)`: `SELECT ... WHERE filePath = :p LIMIT 1`,
      the first matching row in rowid order. */
  function GetPlaybackRecord(t: Table, path: string): (r: Option<PlaybackRecord>)
    ensures r.Some? ==> r.value in t.rows && r.value.filePath == path
    ensures r.None? <==> forall i :: 0 <= i < |t.rows| ==> t.rows[i].filePath != path
  {
    var matching := RowsFor(t.rows, path);
    if |matching| == 0 then None
    else
      RowsForMembers(t.rows, path);
      assert matching[0] in matching;
      Some(matching[0])
  }

  // ---------------------------------------------------------------------
  // Writes

  /** Replaces the row with `r.id` by `r`, leaving every other row alone. */
  function ReplaceById(rows: seq<PlaybackRecord>, r: PlaybackRecord): seq<PlaybackRecord> {
    seq(|rows|, i requires 0 <= i < |rows| => if rows[i].id == r.id then r else rows[i])
  }

  /** Puts `r` before the first row with a larger id. */
  function InsertById(rows: seq<PlaybackRecord>, r: PlaybackRecord): (res: seq<PlaybackRecord>)
    requires forall i, j :: 0 <= i < j < |rows| ==> rows[i].id < rows[j].id
    requires forall i :: 0 <= i < |rows| ==> rows[i].id != r.id
    ensures |res| == |rows| + 1
    ensures forall i, j :: 0 <= i < j < |res| ==> res[i].id < res[j].id
    ensures forall x :: x in res <==> x in rows || x == r
    decreases |rows|
  {
    if |rows| == 0 || r.id < rows[0].id then [r] + rows
    else
      var tail := InsertById(rows[1..], r);
      assert forall x :: x in rows <==> x == rows[0] || x in rows[1..];
      assert forall k :: 0 <= k < |tail| ==> tail[k] in tail;
      [rows[0]] + tail
  }

  /** `insertPlaybackRecord(record)` with `OnConflictStrategy.REPLACE`.
      An id of 0 is bound as NULL, so the row gets a fresh id above every
      id ever used; any other id replaces the row holding it, or adds a
      row with that id. Returns the new table and the row's id. */
  function InsertPlaybackRecord(t: Table, r: PlaybackRecord): (res: (Table, int))
    requires Valid(t)
    ensures Valid(res.0)
    ensures res.1 != 0
    ensures r.id != 0 ==> res.1 == r.id
    ensures r.id == 0 ==> ById(t.rows, res.1) == None && res.1 > t.lastId
    ensures ById(res.0.rows, res.1) == Some(r.(id := res.1))
    ensures forall k :: k != res.1 ==> ById(res.0.rows, k) == ById(t.rows, k)
    ensures |res.0.rows| == |t.rows| + (if ById(t.rows, res.1).Some? then 0 else 1)
  {
    if r.id == 0 then InsertWithFreshId(t, r)
    else if ById(t.rows, r.id).Some? then (UpdatePlaybackRecord(t, r), r.id)
    else InsertWithNewId(t, r)
  }

  function InsertWithFreshId(t: Table, r: PlaybackRecord): (res: (Table, int))
    requires Valid(t)
    ensures Valid(res.0)
    ensures res.1 > t.lastId && ById(t.rows, res.1) == None
    ensures ById(res.0.rows, res.1) == Some(r.(id := res.1))
    ensures forall k :: k != res.1 ==> ById(res.0.rows, k) == ById(t.rows, k)
    ensures |res.0.rows| == |t.rows| + 1
  {
    var id := t.lastId + 1;
    var row := r.(id := id);
    AppendById(t.rows, row);
    (Table(t.rows + [row], id), id)
  }

  function InsertWithNewId(t: Table, r: PlaybackRecord): (res: (Table, int))
    requires Valid(t) && r.id != 0 && ById(t.rows, r.id) == None
    ensures Valid(res.0)
    ensures res.1 == r.id
    ensures ById(res.0.rows, res.1) == Some(r)
    ensures forall k :: k != res.1 ==> ById(res.0.rows, k) == ById(t.rows, k)
    ensures |res.0.rows| == |t.rows| + 1
  {
    var rows := InsertById(t.rows, r);
    InsertByIdLookup(t.rows, r);
    (Table(rows, if r.id > t.lastId then r.id else t.lastId), r.id)
  }

  /** `updatePlaybackRecord(record)`: `UPDATE ... WHERE id = record.id`;
      no row changes when there is no such id. */
  function UpdatePlaybackRecord(t: Table, r: PlaybackRecord): (t': Table)
    requires Valid(t)
    ensures Valid(t')
    ensures t'.lastId == t.lastId && |t'.rows| == |t.rows|
    ensures ById(t'.rows, r.id) == if ById(t.rows, r.id).Some? then Some(r) else None
    ensures forall k :: k != r.id ==> ById(t'.rows, k) == ById(t.rows, k)
  {
    if ById(t.rows, r.id).Some? then
      ReplaceByIdLookup(t.rows, r);
      Table(ReplaceById(t.rows, r), t.lastId)
    else
      t
  }

  /** Rows whose path is not `path`, in order. */
  function WithoutPath(rows: seq<PlaybackRecord>, path: string): (res: seq<PlaybackRecord>)
    ensures forall x :: x in res <==> x in rows && x.filePath != path
    ensures IdsAscending(rows) ==> IdsAscending(res)
    decreases |rows|
  {
    if |rows| == 0 then []
    else
      var tail := WithoutPath(rows[1..], path);
      assert forall x :: x in rows <==> x == rows[0] || x in rows[1..];
      if rows[0].filePath == path then tail
      else
        assert forall k :: 0 <= k < |tail| ==> tail[k] in rows[1..];
        [rows[0]] + tail
  }

  /** `deletePlaybackRecord(filePath)`: removes every row for the path and
      no other row. */
  function DeletePlaybackRecord(t: Table, path: string): (t': Table)
    requires Valid(t)
    ensures Valid(t')
    ensures forall x :: x in t'.rows <==> x in t.rows && x.filePath != path
    ensures GetPlaybackRecord(t', path) == None
  {
    var rows := WithoutPath(t.rows, path);
    assert forall i :: 0 <= i < |rows| ==> rows[i] in t.rows;
    Table(rows, t.lastId)
  }

  /** Newest first: "not after" for `ORDER BY lastPlayed DESC`. */
  predicate RecentFirst(a: PlaybackRecord, b: PlaybackRecord) {
    a.lastPlayed >= b.lastPlayed
  }

  /** `getAllPlaybackRecords()`: every row, ordered by `lastPlayed`
      non-increasing (rows with equal times stay in rowid order). */
  function GetAllPlaybackRecords(t: Table): (r: seq<PlaybackRecord>)
    ensures multiset(r) == multiset(t.rows)
    ensures forall i, j :: 0 <= i < j < |r| ==> r[i].lastPlayed >= r[j].lastPlayed
  {
    assert TotalPreorder(RecentFirst);
    Sort(t.rows, RecentFirst)
  }

  /** `clearAllRecords()`: `DELETE FROM playback_history`. The
      AUTOINCREMENT counter survives, so old ids are not handed out again. */
  function ClearAllRecords(t: Table): (t': Table)
    requires Valid(t)
    ensures Valid(t')
    ensures |t'.rows| == 0
    ensures t'.lastId == t.lastId
  {
    Table([], t.lastId)
  }

  // ---------------------------------------------------------------------
  // Lemmas behind the write contracts

  lemma AppendById(rows: seq<PlaybackRecord>, row: PlaybackRecord)
    requires forall i :: 0 <= i < |rows| ==> rows[i].id < row.id
    ensures ById(rows + [row], row.id) == Some(row)
    ensures forall k :: k != row.id ==> ById(rows + [row], k) == ById(rows, k)
    decreases |rows|
  {
    if |rows| > 0 {
      assert (rows + [row])[1..] == rows[1..] + [row];
      AppendById(rows[1..], row);
    }
  }

  lemma ReplaceByIdLookup(rows: seq<PlaybackRecord>, r: PlaybackRecord)
    requires ById(rows, r.id).Some?
    ensures ById(ReplaceById(rows, r), r.id) == Some(r)
    ensures forall k :: k != r.id ==> ById(ReplaceById(rows, r), k) == ById(rows, k)
  {
    ReplaceByIdHit(rows, r);
    forall k | k != r.id ensures ById(ReplaceById(rows, r), k) == ById(rows, k) {
      ReplaceByIdOther(rows, r, k);
    }
  }

  lemma {:induction false} ReplaceByIdHit(rows: seq<PlaybackRecord>, r: PlaybackRecord)
    requires ById(rows, r.id).Some?
    ensures ById(ReplaceById(rows, r), r.id) == Some(r)
    decreases |rows|
  {
    assert ReplaceById(rows, r)[1..] == ReplaceById(rows[1..], r);
    if rows[0].id != r.id {
      ReplaceByIdHit(rows[1..], r);
    }
  }

  lemma ReplaceByIdOther(rows: seq<PlaybackRecord>, r: PlaybackRecord, k: int)
    requires k != r.id
    ensures ById(ReplaceById(rows, r), k) == ById(rows, k)
    decreases |rows|
  {
    if |rows| > 0 {
      assert ReplaceById(rows, r)[1..] == ReplaceById(rows[1..], r);
      ReplaceByIdOther(rows[1..], r, k);
    }
  }

  lemma InsertByIdLookup(rows: seq<PlaybackRecord>, r: PlaybackRecord)
    requires forall i, j :: 0 <= i < j < |rows| ==> rows[i].id < rows[j].id
    requires forall i :: 0 <= i < |rows| ==> rows[i].id != r.id
    ensures ById(InsertById(rows, r), r.id) == Some(r)
    ensures forall k :: k != r.id ==> ById(InsertById(rows, r), k) == ById(rows, k)
    decreases |rows|
  {
    if |rows| > 0 && r.id >= rows[0].id {
      InsertByIdLookup(rows[1..], r);
    }
  }

  // ---------------------------------------------------------------------
  // How the rows of one path move under the writes

  /** Index `k` holds a row for `path` and no earlier index does. */
  ghost predicate IsFirstFor(rows: seq<PlaybackRecord>, path: string, k: int) {
    0 <= k < |rows| && rows[k].filePath == path && forall j :: 0 <= j < k ==> rows[j].filePath != path
  }

  /** A leading row for another path contributes nothing. */
  lemma RowsForSkip(rows: seq<PlaybackRecord>, path: string)
    requires |rows| > 0 && rows[0].filePath != path
    ensures RowsFor(rows, path) == RowsFor(rows[1..], path)
  {
    assert [] + RowsFor(rows[1..], path) == RowsFor(rows[1..], path);
  }

  /** The first row for a path sits at an index with no earlier row for it. */
  lemma {:induction false} RowsForHead(rows: seq<PlaybackRecord>, path: string) returns (k: int)
    requires |RowsFor(rows, path)| > 0
    ensures IsFirstFor(rows, path, k) && rows[k] == RowsFor(rows, path)[0]
    decreases |rows|
  {
    if rows[0].filePath != path {
      RowsForSkip(rows, path);
      var k' := RowsForHead(rows[1..], path);
      k := k' + 1;
      assert IsFirstFor(rows, path, k) by {
        assert rows[1..][k'] == rows[k];
        assert forall j :: 0 < j < k ==> rows[1..][j - 1] == rows[j];
      }
      assert rows[k] == RowsFor(rows, path)[0] by {
        assert rows[1..][k'] == rows[k];
      }
    } else {
      k := 0;
      assert RowsFor(rows, path)[0] == rows[0] by {
        assert RowsFor(rows, path) == [rows[0]] + RowsFor(rows[1..], path);
      }
    }
  }

  /** A row for the path with none before it is the first row for the path. */
  lemma RowsForFirst(rows: seq<PlaybackRecord>, path: string, k: int)
    requires IsFirstFor(rows, path, k)
    ensures |RowsFor(rows, path)| > 0 && RowsFor(rows, path)[0] == rows[k]
    decreases k
  {
    if k > 0 {
      assert IsFirstFor(rows[1..], path, k - 1);
      RowsForFirst(rows[1..], path, k - 1);
    }
  }

  /** Two tables that agree on every row touching `path` (and hold rows
      for it at the same places) have the same rows for `path`. */
  lemma RowsForPointwise(a: seq<PlaybackRecord>, b: seq<PlaybackRecord>, path: string)
    requires |a| == |b|
    requires forall i :: 0 <= i < |a| ==> (a[i].filePath == path <==> b[i].filePath == path)
    requires forall i :: 0 <= i < |a| && a[i].filePath == path ==> a[i] == b[i]
    ensures RowsFor(a, path) == RowsFor(b, path)
    decreases |a|
  {
    if |a| > 0 {
      RowsForPointwise(a[1..], b[1..], path);
    }
  }

  lemma RowsForAppend(rows: seq<PlaybackRecord>, row: PlaybackRecord, path: string)
    ensures RowsFor(rows + [row], path) == RowsFor(rows, path) + (if row.filePath == path then [row] else [])
    decreases |rows|
  {
    if |rows| > 0 {
      assert (rows + [row])[1..] == rows[1..] + [row];
      RowsForAppend(rows[1..], row, path);
    } else {
      assert rows + [row] == [row];
    }
  }

  lemma RowsForWithoutPath(rows: seq<PlaybackRecord>, gone: string, path: string)
    requires gone != path
    ensures RowsFor(WithoutPath(rows, gone), path) == RowsFor(rows, path)
    decreases |rows|
  {
    if |rows| > 0 {
      RowsForWithoutPath(rows[1..], gone, path);
    }
  }
}
