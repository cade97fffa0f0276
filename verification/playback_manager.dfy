/** The playback manager: remembers one resume position per file path by
    upserting into the playback table, forgets it on completion, and
    decides completion by the 95 % rule. Each call is one sequential step
    on the table; `now` is the clock reading the call would take. */
module PlaybackManager {
  import opened Wrappers
  import opened PlaybackDao

  /** `getPlaybackPosition(filePath)`. */
  function GetPlaybackPosition(t: Table, path: string): Option<PlaybackRecord> {
    GetPlaybackRecord(t, path)
  }

  /** `savePlaybackPosition(filePath, positionMs, durationMs)`: updates the
      path's record in place when there is one (same id and path, new
      position, duration and `lastPlayed`), otherwise inserts a new record. */
  function SavePlaybackPosition(t: Table, path: string, positionMs: int, durationMs: int, now: int): (t': Table)
    requires Valid(t)
    ensures Valid(t')
    ensures var r := GetPlaybackPosition(t', path);
      r.Some? && r.value.positionMs == positionMs && r.value.durationMs == durationMs && r.value.lastPlayed == now
    ensures forall q :: q != path ==> RowsFor(t'.rows, q) == RowsFor(t.rows, q)
    ensures GetPlaybackPosition(t, path).Some? ==>
      |t'.rows| == |t.rows| && GetPlaybackPosition(t', path).value.id == GetPlaybackPosition(t, path).value.id
    ensures GetPlaybackPosition(t, path).None? ==>
      |t'.rows| == |t.rows| + 1 && |RowsFor(t'.rows, path)| == 1
    ensures UniquePaths(t) ==> UniquePaths(t')
  {
    match GetPlaybackRecord(t, path)
    case Some(existing) =>
      SaveExisting(t, path, existing, positionMs, durationMs, now)
    case None =>
      SaveNew(t, path, positionMs, durationMs, now)
  }

  /** The update branch: `existing.copy(positionMs, durationMs, lastPlayed = now)`. */
  function SaveExisting(t: Table, path: string, existing: PlaybackRecord, positionMs: int, durationMs: int, now: int): (t': Table)
    requires Valid(t) && GetPlaybackRecord(t, path) == Some(existing)
    ensures Valid(t')
    ensures GetPlaybackRecord(t', path) == Some(existing.(positionMs := positionMs, durationMs := durationMs, lastPlayed := now))
    ensures forall q :: q != path ==> RowsFor(t'.rows, q) == RowsFor(t.rows, q)
    ensures |t'.rows| == |t.rows|
    ensures UniquePaths(t) ==> UniquePaths(t')
  {
    var updated := existing.(positionMs := positionMs, durationMs := durationMs, lastPlayed := now);
    var t' := UpdatePlaybackRecord(t, updated);
    UpdateExistingRows(t, path, existing, updated);
    t'
  }

  /** Rewriting the first row for `path` in place (same id, same path)
      makes it the path's first row and leaves every other path's rows alone. */
  lemma UpdateExistingRows(t: Table, path: string, existing: PlaybackRecord, updated: PlaybackRecord)
    requires Valid(t) && GetPlaybackRecord(t, path) == Some(existing)
    requires updated.id == existing.id && updated.filePath == path
    ensures var t' := UpdatePlaybackRecord(t, updated);
      && GetPlaybackRecord(t', path) == Some(updated)
      && (forall q :: q != path ==> RowsFor(t'.rows, q) == RowsFor(t.rows, q))
      && (UniquePaths(t) ==> UniquePaths(t'))
  {
    var k := FirstIndex(t.rows, path, existing);
    assert ById(t.rows, updated.id).Some?;
    var rows' := ReplaceById(t.rows, updated);
    ReplaceByIdAt(t.rows, updated, k);
    ReplacedRowsFor(t.rows, rows', path, k);
  }

  /** The index of the row `getPlaybackRecord` returns. */
  lemma FirstIndex(rows: seq<PlaybackRecord>, path: string, existing: PlaybackRecord) returns (k: int)
    requires GetPlaybackRecord(Table(rows, 0), path) == Some(existing)
    ensures IsFirstFor(rows, path, k) && rows[k] == existing
  {
    k := RowsForHead(rows, path);
  }

  /** With distinct ids, replacing by id rewrites exactly the row holding that id. */
  lemma ReplaceByIdAt(rows: seq<PlaybackRecord>, r: PlaybackRecord, k: int)
    requires IdsAscending(rows) && 0 <= k < |rows| && rows[k].id == r.id
    ensures |ReplaceById(rows, r)| == |rows|
    ensures forall i :: 0 <= i < |rows| ==> ReplaceById(rows, r)[i] == if i == k then r else rows[i]
  {
    forall i | 0 <= i < |rows| && i != k ensures rows[i].id != r.id {
      if i < k { assert rows[i].id < rows[k].id; } else { assert rows[k].id < rows[i].id; }
    }
  }

  /** Rewriting the first row for `path` by another row for `path`. */
  lemma ReplacedRowsFor(rows: seq<PlaybackRecord>, rows': seq<PlaybackRecord>, path: string, k: int)
    requires IsFirstFor(rows, path, k) && |rows'| == |rows| && rows'[k].filePath == path
    requires forall i :: 0 <= i < |rows| ==> rows'[i] == if i == k then rows'[k] else rows[i]
    ensures |RowsFor(rows', path)| > 0 && RowsFor(rows', path)[0] == rows'[k]
    ensures forall q :: q != path ==> RowsFor(rows', q) == RowsFor(rows, q)
    ensures DistinctPaths(rows) ==> DistinctPaths(rows')
  {
    assert IsFirstFor(rows', path, k);
    RowsForFirst(rows', path, k);
    forall q | q != path ensures RowsFor(rows', q) == RowsFor(rows, q) {
      RowsForPointwise(rows', rows, q);
    }
    assert forall i :: 0 <= i < |rows| ==> rows'[i].filePath == rows[i].filePath;
  }

  /** The insert branch: a fresh record built with id 0 and `lastPlayed = now`. */
  function SaveNew(t: Table, path: string, positionMs: int, durationMs: int, now: int): (t': Table)
    requires Valid(t) && GetPlaybackRecord(t, path) == None
    ensures Valid(t')
    ensures |t'.rows| == |t.rows| + 1
    ensures |RowsFor(t'.rows, path)| == 1
    ensures var r := GetPlaybackRecord(t', path);
      r.Some? && r.value.filePath == path && r.value.positionMs == positionMs
      && r.value.durationMs == durationMs && r.value.lastPlayed == now
    ensures forall q :: q != path ==> RowsFor(t'.rows, q) == RowsFor(t.rows, q)
    ensures UniquePaths(t) ==> UniquePaths(t')
  {
    var record := NewRecord(path, positionMs, durationMs, now);
    var (t', id) := InsertPlaybackRecord(t, record);
    assert t'.rows == t.rows + [record.(id := id)];
    AppendNewPath(t.rows, record.(id := id));
    t'
  }

  /** A row appended for a path no row has is that path's only row, and
      no other path gains or loses one. */
  lemma AppendNewPath(rows: seq<PlaybackRecord>, row: PlaybackRecord)
    requires forall i :: 0 <= i < |rows| ==> rows[i].filePath != row.filePath
    ensures RowsFor(rows + [row], row.filePath) == [row]
    ensures forall q :: q != row.filePath ==> RowsFor(rows + [row], q) == RowsFor(rows, q)
    ensures DistinctPaths(rows) ==> DistinctPaths(rows + [row])
  {
    assert RowsFor(rows + [row], row.filePath) == [row] by {
      RowsForAppend(rows, row, row.filePath);
      assert RowsFor(rows, row.filePath) == [];
    }
    forall q | q != row.filePath ensures RowsFor(rows + [row], q) == RowsFor(rows, q) {
      RowsForAppend(rows, row, q);
      assert RowsFor(rows, q) + [] == RowsFor(rows, q);
    }
    AppendDistinct(rows, row);
  }

  lemma AppendDistinct(rows: seq<PlaybackRecord>, row: PlaybackRecord)
    requires forall i :: 0 <= i < |rows| ==> rows[i].filePath != row.filePath
    ensures DistinctPaths(rows) ==> DistinctPaths(rows + [row])
  {
    if DistinctPaths(rows) {
      var rows' := rows + [row];
      forall i, j | 0 <= i < j < |rows'| ensures rows'[i].filePath != rows'[j].filePath {
        if j == |rows| { assert rows'[i] == rows[i]; }
        else { assert rows'[i] == rows[i] && rows'[j] == rows[j]; }
      }
    }
  }

  /** `clearPlaybackPosition(filePath)`: afterwards the path has no record
      and every other path keeps its rows. */
  function ClearPlaybackPosition(t: Table, path: string): (t': Table)
    requires Valid(t)
    ensures Valid(t')
    ensures GetPlaybackPosition(t', path) == None
    ensures forall q :: q != path ==> RowsFor(t'.rows, q) == RowsFor(t.rows, q)
    ensures UniquePaths(t) ==> UniquePaths(t')
  {
    var t' := DeletePlaybackRecord(t, path);
    DeleteKeepsOtherPaths(t, path);
    t'
  }

  lemma DeleteKeepsOtherPaths(t: Table, path: string)
    requires Valid(t)
    ensures var t' := DeletePlaybackRecord(t, path);
      && (forall q :: q != path ==> RowsFor(t'.rows, q) == RowsFor(t.rows, q))
      && (UniquePaths(t) ==> UniquePaths(t'))
  {
    var t' := DeletePlaybackRecord(t, path);
    assert t'.rows == WithoutPath(t.rows, path);
    forall q | q != path ensures RowsFor(t'.rows, q) == RowsFor(t.rows, q) {
      RowsForWithoutPath(t.rows, path, q);
    }
    WithoutPathUnique(t.rows, path);
  }

  lemma WithoutPathUnique(rows: seq<PlaybackRecord>, path: string)
    ensures UniquePaths(Table(rows, 0)) ==> UniquePaths(Table(WithoutPath(rows, path), 0))
    decreases |rows|
  {
    if |rows| > 0 {
      WithoutPathUnique(rows[1..], path);
      var tail := WithoutPath(rows[1..], path);
      if UniquePaths(Table(rows, 0)) && rows[0].filePath != path {
        assert forall x :: x in tail ==> x in rows[1..];
        assert forall k :: 0 <= k < |tail| ==> tail[k].filePath != rows[0].filePath by {
          forall k | 0 <= k < |tail| ensures tail[k].filePath != rows[0].filePath {
            assert tail[k] in rows[1..];
            var m :| 0 <= m < |rows[1..]| && rows[1..][m] == tail[k];
            assert rows[m + 1] == tail[k];
          }
        }
      }
    }
  }

  /** `isVideoCompleted(positionMs, durationMs)`: never for a duration of
      zero or less; otherwise when `position / duration * 100 >= 95`,
      computed here on exact reals. */
  function IsVideoCompleted(positionMs: int, durationMs: int): (r: bool)
    ensures r <==> durationMs > 0 && 100 * positionMs >= 95 * durationMs
  {
    if durationMs <= 0 then false
    else
      var ratio := positionMs as real / durationMs as real;
      assert ratio * durationMs as real == positionMs as real;
      ratio * 100.0 >= 95.0
  }

  /** `getAllPlaybackHistory()`: every record, most recently played first. */
  function GetAllPlaybackHistory(t: Table): seq<PlaybackRecord> {
    GetAllPlaybackRecords(t)
  }

  /** Saving the same path over and over never makes a second record. */
  lemma RepeatedSavesKeepOneRecord(t: Table, path: string, positions: seq<int>, durationMs: int, now: int)
    requires Valid(t) && UniquePaths(t)
    ensures var t' := SaveAll(t, path, positions, durationMs, now);
      Valid(t') && UniquePaths(t') && |RowsFor(t'.rows, path)| <= 1
      && |t'.rows| <= |t.rows| + 1
    decreases |positions|
  {
    if |positions| > 0 {
      var t1 := SavePlaybackPosition(t, path, positions[0], durationMs, now);
      RepeatedSavesKeepOneRecord(t1, path, positions[1..], durationMs, now);
      var t' := SaveAll(t, path, positions, durationMs, now);
      assert t' == SaveAll(t1, path, positions[1..], durationMs, now);
      UniqueHasOneRow(t1, path);
      SaveAllSize(t1, path, positions[1..], durationMs, now);
    } else {
      UniqueHasOneRow(t, path);
    }
  }

  /** Saves the path once per position, in order. */
  function SaveAll(t: Table, path: string, positions: seq<int>, durationMs: int, now: int): (t': Table)
    requires Valid(t)
    ensures Valid(t')
    decreases |positions|
  {
    if |positions| == 0 then t
    else SaveAll(SavePlaybackPosition(t, path, positions[0], durationMs, now), path, positions[1..], durationMs, now)
  }

  /** Once the path has a record, further saves do not grow the table. */
  lemma SaveAllSize(t: Table, path: string, positions: seq<int>, durationMs: int, now: int)
    requires Valid(t) && GetPlaybackPosition(t, path).Some?
    ensures |SaveAll(t, path, positions, durationMs, now).rows| == |t.rows|
    decreases |positions|
  {
    if |positions| > 0 {
      SaveAllSize(SavePlaybackPosition(t, path, positions[0], durationMs, now), path, positions[1..], durationMs, now);
    }
  }

  lemma UniqueHasOneRow(t: Table, path: string)
    requires UniquePaths(t)
    ensures |RowsFor(t.rows, path)| <= 1
    decreases |t.rows|
  {
    if |t.rows| > 0 {
      var rest := Table(t.rows[1..], t.lastId);
      UniqueHasOneRow(rest, path);
      if t.rows[0].filePath == path {
        assert forall x :: x in t.rows[1..] ==> x.filePath != path;
        assert |RowsFor(t.rows[1..], path)| == 0;
      }
    }
  }
}
