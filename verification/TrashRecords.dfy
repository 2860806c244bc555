/** The rows of trashed trees (moveRecordsToTrashTx, restoreRecordsTx and purgeTrashMetadata in
  internal/files/trash.go).
 */
module TrashRecords {
  import opened Paths
  import opened Wrappers

  /** A ledger row; a trashed one names its trash entry and is filed under that entry's key. */
  datatype Row = Row(path: string, owner: Option<nat>, size: nat, trash: Option<string>)

  type Rows = map<nat, Row>

  /** An image or share row, which keeps its path while trashed. */
  datatype Link = Link(path: string, trash: Option<string>)

  type Links = map<nat, Link>

  /** `entries` maps a trash key to the path its tree was taken from. */
  datatype Metadata = Metadata(entries: map<string, string>, records: Rows, images: Links, shares: Links)

  /** A file of the tree to trash: what follows the root's path, and its size. */
  datatype Planned = Planned(suffix: string, size: nat)

  predicate ActiveAt(rows: Rows, path: string) {
    exists id :: id in rows && rows[id].trash.None? && rows[id].path == path
  }

  /** The ledger's unique index. */
  predicate Unique(rows: Rows) {
    forall a, b :: a in rows && b in rows && a != b ==> rows[a].path != rows[b].path
  }

  predicate FreshKey(m: Metadata, key: string) {
    && key !in m.entries
    && (forall id <- m.records :: m.records[id].trash != Some(key) && !Under(key, m.records[id].path))
    && (forall id <- m.images :: m.images[id].trash != Some(key))
    && (forall id <- m.shares :: m.shares[id].trash != Some(key))
  }

  // ---------------------------------------------------------------- into the trash

  function TrashOne(rows: Rows, from: string, key: string, f: Planned, id: nat): Rows {
    var path := from + f.suffix;
    if ActiveAt(rows, path) then
      map i | i in rows :: if rows[i].trash.None? && rows[i].path == path
                           then rows[i].(path := key + f.suffix, trash := Some(key)) else rows[i]
    else rows[id := Row(key + f.suffix, None, f.size, Some(key))]
  }

  /** Rows inserted for files the ledger did not know get identifiers from `next` on. */
  function TrashAll(rows: Rows, from: string, key: string, files: seq<Planned>, next: nat): Rows {
    if files == [] then rows
    else
      var n := |files| - 1;
      TrashOne(TrashAll(rows, from, key, files[..n], next), from, key, files[n], next + n)
  }

  predicate ValidPlan(rows: Rows, files: seq<Planned>, next: nat) {
    && Unique(rows)
    && (forall id <- rows :: id < next)
    && forall i, j :: 0 <= i < j < |files| ==> files[i].suffix != files[j].suffix
  }

  predicate IsPlanned(row: Row, from: string, files: seq<Planned>) {
    row.trash.None? && exists i :: 0 <= i < |files| && row.path == from + files[i].suffix
  }

  lemma SuffixOf(from: string, suffix: string)
    ensures (from + suffix)[|from|..] == suffix
  {
  }

  function TrashedRow(row: Row, from: string, key: string, files: seq<Planned>): Row {
    if IsPlanned(row, from, files) then row.(path := key + row.path[|from|..], trash := Some(key)) else row
  }

  lemma OneMorePlanned(row: Row, from: string, files: seq<Planned>)
    requires files != []
    ensures var n := |files| - 1;
            IsPlanned(row, from, files) <==>
            IsPlanned(row, from, files[..n]) || (row.trash.None? && row.path == from + files[n].suffix)
  {
    var n := |files| - 1;
    if IsPlanned(row, from, files) {
      var i :| 0 <= i < |files| && row.path == from + files[i].suffix;
      assert i < n ==> files[..n][i] == files[i];
    }
    if IsPlanned(row, from, files[..n]) {
      var i :| 0 <= i < n && row.path == from + files[..n][i].suffix;
      assert files[i] == files[..n][i];
    }
  }

  /** A row the ledger had is moved if its file is planned, and is otherwise untouched. */
  lemma {:induction false} KnownRow(rows: Rows, from: string, key: string, files: seq<Planned>, next: nat, id: nat)
    requires ValidPlan(rows, files, next) && id in rows
    ensures var r := TrashAll(rows, from, key, files, next);
            id in r && r[id] == TrashedRow(rows[id], from, key, files)
    decreases |files|
  {
    if files != [] {
      var n := |files| - 1;
      KnownRow(rows, from, key, files[..n], next, id);
      OneMorePlanned(rows[id], from, files);
      SuffixOf(from, files[n].suffix);
    }
  }

  /** Any other row stands for a planned file the ledger did not know. */
  lemma {:induction false} AddedRow(rows: Rows, from: string, key: string, files: seq<Planned>, next: nat, id: nat)
    requires ValidPlan(rows, files, next) && id in TrashAll(rows, from, key, files, next) && id !in rows
    ensures next <= id < next + |files| && !ActiveAt(rows, from + files[id - next].suffix)
    ensures TrashAll(rows, from, key, files, next)[id]
         == Row(key + files[id - next].suffix, None, files[id - next].size, Some(key))
    decreases |files|
  {
    var n := |files| - 1;
    var before := TrashAll(rows, from, key, files[..n], next);
    if id in before {
      AddedRow(rows, from, key, files[..n], next, id);
    } else {
      StillActive(rows, from, key, files, next);
    }
  }

  lemma {:induction false} StillActive(rows: Rows, from: string, key: string, files: seq<Planned>, next: nat)
    requires ValidPlan(rows, files, next) && files != []
    ensures var n := |files| - 1;
            ActiveAt(TrashAll(rows, from, key, files[..n], next), from + files[n].suffix)
            <==> ActiveAt(rows, from + files[n].suffix)
    decreases |files|, 0
  {
    var n := |files| - 1;
    var path := from + files[n].suffix;
    var before := TrashAll(rows, from, key, files[..n], next);
    if ActiveAt(before, path) {
      var id :| id in before && before[id].trash.None? && before[id].path == path;
      if id in rows {
        KnownRow(rows, from, key, files[..n], next, id);
      } else {
        AddedRow(rows, from, key, files[..n], next, id);
      }
    }
    if ActiveAt(rows, path) {
      var id :| id in rows && rows[id].trash.None? && rows[id].path == path;
      LastIsUntouched(from, files, rows[id]);
      KnownRow(rows, from, key, files[..n], next, id);
    }
  }

  /** The last file's row was not moved for an earlier file. */
  lemma LastIsUntouched(from: string, files: seq<Planned>, row: Row)
    requires files != [] && forall i, j :: 0 <= i < j < |files| ==> files[i].suffix != files[j].suffix
    requires row.path == from + files[|files| - 1].suffix
    ensures !IsPlanned(row, from, files[..|files| - 1])
  {
    var n := |files| - 1;
    if IsPlanned(row, from, files[..n]) {
      var i :| 0 <= i < n && row.path == from + files[..n][i].suffix;
      SuffixOf(from, files[i].suffix);
      SuffixOf(from, files[n].suffix);
    }
  }

  /** Each planned file ends up with a row under the key. */
  lemma {:induction false} UnknownFilesGetRows(rows: Rows, from: string, key: string, files: seq<Planned>, next: nat, i: nat)
    requires ValidPlan(rows, files, next) && i < |files| && !ActiveAt(rows, from + files[i].suffix)
    ensures next + i in TrashAll(rows, from, key, files, next)
    decreases |files|
  {
    var n := |files| - 1;
    if i < n {
      UnknownFilesGetRows(rows, from, key, files[..n], next, i);
    } else {
      StillActive(rows, from, key, files, next);
    }
  }

  predicate IsInserted(row: Row, from: string, key: string, files: seq<Planned>, next: nat, id: nat) {
    next <= id < next + |files| && row == Row(key + files[id - next].suffix, None, files[id - next].size, Some(key))
  }

  /** What trashing a tree does to the ledger: each planned file's active row, if it has one, is
      filed under the key with its owner kept, else an unowned row is; every other row stays. */
  lemma TrashAllExact(rows: Rows, from: string, key: string, files: seq<Planned>, next: nat)
    requires ValidPlan(rows, files, next)
    ensures var r := TrashAll(rows, from, key, files, next);
            && (forall id <- rows :: id in r && r[id] == TrashedRow(rows[id], from, key, files))
            && (forall id <- r :: id in rows || IsInserted(r[id], from, key, files, next, id))
            && (forall i {:trigger files[i]} :: 0 <= i < |files| && !ActiveAt(rows, from + files[i].suffix) ==> next + i in r)
  {
    var r := TrashAll(rows, from, key, files, next);
    forall id | id in rows ensures id in r && r[id] == TrashedRow(rows[id], from, key, files) {
      KnownRow(rows, from, key, files, next, id);
    }
    forall id | id in r && id !in rows ensures IsInserted(r[id], from, key, files, next, id) {
      AddedRow(rows, from, key, files, next, id);
    }
    forall i {:trigger files[i]} | 0 <= i < |files| && !ActiveAt(rows, from + files[i].suffix) ensures next + i in r {
      UnknownFilesGetRows(rows, from, key, files, next, i);
    }
  }

  /** Shares already in the trash keep their entry; images do not, the update takes every image
      row under the path. */
  function TrashShares(links: Links, from: string, key: string): Links {
    map id | id in links :: if Under(from, links[id].path) && links[id].trash.None?
                            then links[id].(trash := Some(key)) else links[id]
  }

  function TrashImages(links: Links, from: string, key: string): Links {
    map id | id in links :: if Under(from, links[id].path) then links[id].(trash := Some(key)) else links[id]
  }

  function Trashed(m: Metadata, from: string, key: string, files: seq<Planned>, next: nat): Metadata {
    Metadata(m.entries[key := from], TrashAll(m.records, from, key, files, next),
             TrashImages(m.images, from, key), TrashShares(m.shares, from, key))
  }

  // -------------------------------------------------------------- out of the trash

  function TrimPrefix(s: string, prefix: string): string {
    if prefix <= s then s[|prefix|..] else s
  }

  function RestoreRows(rows: Rows, key: string, target: string): Rows {
    map id | id in rows :: if rows[id].trash == Some(key)
                           then rows[id].(path := target + TrimPrefix(rows[id].path, key), trash := None) else rows[id]
  }

  function RestoreLinks(links: Links, key: string, original: string, target: string): Links {
    map id | id in links :: if links[id].trash == Some(key)
                            then Link(target + TrimPrefix(links[id].path, original), None) else links[id]
  }

  function Restored(m: Metadata, key: string, target: string): Metadata
    requires key in m.entries
  {
    Metadata(m.entries - {key}, RestoreRows(m.records, key, target),
             RestoreLinks(m.images, key, m.entries[key], target), RestoreLinks(m.shares, key, m.entries[key], target))
  }

  predicate FiledUnderKey(rows: Rows, key: string) {
    forall id <- rows :: rows[id].trash == Some(key) ==> Under(key, rows[id].path)
  }

  /** The rows of an entry, in the order they are queried. */
  predicate Lists(ids: seq<nat>, rows: Rows, key: string) {
    && (forall id <- ids :: id in rows && rows[id].trash == Some(key))
    && (forall id <- rows :: rows[id].trash == Some(key) ==> id in ids)
    && (forall i, j :: 0 <= i < j < |ids| ==> ids[i] != ids[j])
  }

  function RestoreRow(row: Row, key: string, target: string): Row {
    row.(path := target + TrimPrefix(row.path, key), trash := None)
  }

  function RestoredSome(rows: Rows, key: string, target: string, ids: seq<nat>): Rows {
    map id | id in rows :: if id in ids then RestoreRow(rows[id], key, target) else rows[id]
  }

  /** When its turn comes, the row would land on another, which may be restored by then or not. */
  predicate LandsOn(rows: Rows, key: string, target: string, ids: seq<nat>, i: nat, other: nat)
    requires i < |ids| && ids[i] in rows && other in rows
  {
    RestoredSome(rows, key, target, ids[..i])[other].path == RestoreRow(rows[ids[i]], key, target).path
  }

  predicate ClearInOrder(rows: Rows, key: string, target: string, ids: seq<nat>)
    requires forall id <- ids :: id in rows
  {
    forall i, other :: 0 <= i < |ids| && other in rows && other != ids[i] ==> !LandsOn(rows, key, target, ids, i, other)
  }

  lemma OneMoreRestored(rows: Rows, key: string, target: string, ids: seq<nat>, i: nat)
    requires Lists(ids, rows, key) && i < |ids|
    ensures var r := RestoredSome(rows, key, target, ids[..i]); var id := ids[i];
            && id in r && r[id] == rows[id]
            && RestoredSome(rows, key, target, ids[..i + 1]) == r[id := RestoreRow(rows[id], key, target)]
  {
    var id := ids[i];
    assert id in ids;
    assert id !in ids[..i];
    assert forall other :: other in ids[..i + 1] <==> other in ids[..i] || other == id;
  }

  lemma AllRestored(rows: Rows, key: string, target: string, ids: seq<nat>)
    requires Lists(ids, rows, key)
    ensures RestoredSome(rows, key, target, ids) == RestoreRows(rows, key, target)
  {
  }

  /** A restore that goes through leaves no two rows at one path. */
  lemma ClearIsUnique(rows: Rows, key: string, target: string, ids: seq<nat>)
    requires Unique(rows) && Lists(ids, rows, key) && ClearInOrder(rows, key, target, ids)
    ensures Unique(RestoreRows(rows, key, target))
  {
    var r := RestoreRows(rows, key, target);
    forall a, b | a in rows && b in rows && a != b && b in ids && (a in ids ==> IndexOf(ids, a) < IndexOf(ids, b))
      ensures r[a].path != r[b].path
    {
      var i := IndexOf(ids, b);
      assert !LandsOn(rows, key, target, ids, i, a);
      assert a in ids[..i] <==> a in ids;
    }
    forall a, b | a in r && b in r && a != b ensures r[a].path != r[b].path {
      assert a in ids && b in ids ==> IndexOf(ids, a) < IndexOf(ids, b) || IndexOf(ids, b) < IndexOf(ids, a);
    }
  }

  function IndexOf(ids: seq<nat>, id: nat): (i: nat)
    requires id in ids
    ensures i < |ids| && ids[i] == id
  {
    if ids[0] == id then 0 else 1 + IndexOf(ids[1..], id)
  }

  /** To a place apart from the key's own path the order does not matter: a restore goes through
      exactly when the restored ledger as a whole has no two rows at one path. */
  lemma ClearExactly(rows: Rows, key: string, target: string, ids: seq<nat>)
    requires Unique(rows) && Lists(ids, rows, key) && Apart(key, target) && FiledUnderKey(rows, key)
    ensures ClearInOrder(rows, key, target, ids) <==> Unique(RestoreRows(rows, key, target))
  {
    var r := RestoreRows(rows, key, target);
    if Unique(r) {
      forall i, other | 0 <= i < |ids| && other in rows && other != ids[i] ensures !LandsOn(rows, key, target, ids, i, other) {
        var id := ids[i];
        assert id in ids && r[other].path != r[id].path;
        if other in ids && other !in ids[..i] {
          LandsUnderTarget(rows[id].path, key, target);
          ApartSubtreesAreDisjoint(key, target, rows[other].path);
        }
      }
    } else if ClearInOrder(rows, key, target, ids) {
      ClearIsUnique(rows, key, target, ids);
    }
  }

  lemma LandsUnderTarget(path: string, key: string, target: string)
    requires Under(key, path)
    ensures Under(target, target + TrimPrefix(path, key))
  {
    assert target + TrimPrefix(path, key) == Rebase(path, key, target);
    RebaseLandsUnder(path, key, target);
  }

  /** A row, and another of the same entry that lies where the first is restored to below the key. */
  function Nested(): Rows {
    map[0 := Row("k/x", None, 1, Some("k")), 1 := Row("k/b/x", None, 1, Some("k"))]
  }

  lemma NestedPlaces()
    ensures RestoreRow(Nested()[0], "k", "k/b").path == "k/b/x" && RestoreRow(Nested()[1], "k", "k/b").path == "k/b/b/x"
  {
    assert "k/x"[1..] == "/x" && "k/b/x"[1..] == "/b/x";
  }

  lemma SecondFirst()
    ensures ClearInOrder(Nested(), "k", "k/b", [1, 0])
  {
    NestedPlaces();
    var rows, ids: seq<nat> := Nested(), [1, 0];
    assert ids[..0] == [] && ids[..1] == [1];
    assert RestoredSome(rows, "k", "k/b", [])[0].path == "k/x";
    assert RestoredSome(rows, "k", "k/b", [1])[1].path == "k/b/b/x";
  }

  /** To a place below the key's own path the order can matter: the same two rows, restored to the
      same places, clash in one order and not in the other. */
  lemma OrderMatters()
    ensures Lists([0, 1], Nested(), "k") && Lists([1, 0], Nested(), "k") && Unique(Nested())
    ensures !ClearInOrder(Nested(), "k", "k/b", [0, 1]) && ClearInOrder(Nested(), "k", "k/b", [1, 0])
  {
    NestedPlaces();
    SecondFirst();
    assert RestoredSome(Nested(), "k", "k/b", [0, 1][..0])[1].path == "k/b/x";
    assert LandsOn(Nested(), "k", "k/b", [0, 1], 0, 1);
  }

  /** Where a restore puts the rows of an entry: what followed the path the tree was taken from, or the
      key in the ledger, follows the target; every other row stays. */
  lemma RestoredPlaces(m: Metadata, key: string, target: string, id: nat, suffix: string)
    requires key in m.entries
    ensures var r := Restored(m, key, target); var original := m.entries[key];
            && r.entries == m.entries - {key}
            && r.records.Keys == m.records.Keys && r.images.Keys == m.images.Keys && r.shares.Keys == m.shares.Keys
            && (id in m.images && m.images[id] == Link(original + suffix, Some(key)) ==> r.images[id] == Link(target + suffix, None))
            && (id in m.shares && m.shares[id] == Link(original + suffix, Some(key)) ==> r.shares[id] == Link(target + suffix, None))
            && (id in m.records && m.records[id].trash == Some(key) && m.records[id].path == key + suffix ==>
                  r.records[id] == m.records[id].(path := target + suffix, trash := None))
            && (id in m.images && m.images[id].trash != Some(key) ==> r.images[id] == m.images[id])
            && (id in m.shares && m.shares[id].trash != Some(key) ==> r.shares[id] == m.shares[id])
            && (id in m.records && m.records[id].trash != Some(key) ==> r.records[id] == m.records[id])
  {
    SuffixOf(m.entries[key], suffix);
    SuffixOf(key, suffix);
  }

  /** Where trashing puts them: image and share rows at or below the path name the entry and keep their
      paths, shares only if they were not in the trash; every other row stays. */
  lemma TrashedPlaces(m: Metadata, from: string, key: string, files: seq<Planned>, next: nat, id: nat)
    ensures var t := Trashed(m, from, key, files, next);
            && t.entries == m.entries[key := from] && t.images.Keys == m.images.Keys && t.shares.Keys == m.shares.Keys
            && (id in m.images ==> t.images[id] == if Under(from, m.images[id].path) then Link(m.images[id].path, Some(key)) else m.images[id])
            && (id in m.shares ==>
                  t.shares[id] == if Under(from, m.shares[id].path) && m.shares[id].trash.None?
                                  then Link(m.shares[id].path, Some(key)) else m.shares[id])
  {
  }

  /** The ledger has a row for every file. */
  predicate Known(m: Metadata, from: string, files: seq<Planned>) {
    forall i :: 0 <= i < |files| ==> ActiveAt(m.records, from + files[i].suffix)
  }

  /** A row that was trashed from `from` and restored there is the row it was. */
  lemma RowReturns(row: Row, from: string, key: string, files: seq<Planned>)
    requires row.trash != Some(key)
    ensures RestoreRows(map[0 := TrashedRow(row, from, key, files)], key, from)[0] == row
  {
    if IsPlanned(row, from, files) {
      SuffixOf(key, row.path[|from|..]);
      assert row.path == from + row.path[|from|..];
    }
  }

  lemma KnownRowReturns(rows: Rows, from: string, key: string, files: seq<Planned>, next: nat, id: nat)
    requires ValidPlan(rows, files, next) && id in rows && rows[id].trash != Some(key)
    ensures var back := RestoreRows(TrashAll(rows, from, key, files, next), key, from);
            id in back && back[id] == rows[id]
  {
    KnownRow(rows, from, key, files, next, id);
    RowReturns(rows[id], from, key, files);
  }

  lemma AddedRowReturns(rows: Rows, from: string, key: string, files: seq<Planned>, next: nat, id: nat)
    requires ValidPlan(rows, files, next) && id in TrashAll(rows, from, key, files, next) && id !in rows
    ensures next <= id < next + |files| && !ActiveAt(rows, from + files[id - next].suffix)
    ensures RestoreRows(TrashAll(rows, from, key, files, next), key, from)[id]
         == Row(from + files[id - next].suffix, None, files[id - next].size, None)
  {
    AddedRow(rows, from, key, files, next, id);
    SuffixOf(key, files[id - next].suffix);
  }

  /** The row an insert made, restored. */
  predicate IsAdded(row: Row, from: string, files: seq<Planned>, next: nat, id: nat) {
    next <= id < next + |files| && row == Row(from + files[id - next].suffix, None, files[id - next].size, None)
  }

  /** Trashing a tree and restoring it to where it was gives back every ledger and share row,
      owners included, and every image row exactly when none under the path was in the trash
      already.  Files the ledger did not know leave an unowned row behind. */
  lemma RestoreUndoesTrash(m: Metadata, from: string, key: string, files: seq<Planned>, next: nat)
    requires ValidPlan(m.records, files, next) && FreshKey(m, key)
    ensures var back := Restored(Trashed(m, from, key, files, next), key, from);
            && back.entries == m.entries && back.shares == m.shares
            && (back.images == m.images <==> NoOlderImages(m.images, from))
            && (forall id <- m.records :: id in back.records && back.records[id] == m.records[id])
            && (forall id <- back.records :: id in m.records || IsAdded(back.records[id], from, files, next, id))
            && (Known(m, from, files) && NoOlderImages(m.images, from) ==> back == m)
  {
    var back := Restored(Trashed(m, from, key, files, next), key, from);
    ImagesReturn(m.images, from, key);
    SharesReturn(m.shares, from, key);
    assert back.entries == m.entries;
    forall id | id in m.records ensures id in back.records && back.records[id] == m.records[id] {
      KnownRowReturns(m.records, from, key, files, next, id);
    }
    forall id | id in back.records && id !in m.records
      ensures IsAdded(back.records[id], from, files, next, id) && !Known(m, from, files)
    {
      AddedRowReturns(m.records, from, key, files, next, id);
    }
    assert Known(m, from, files) ==> back.records == m.records;
  }

  lemma SharesReturn(links: Links, from: string, key: string)
    requires forall id <- links :: links[id].trash != Some(key)
    ensures RestoreLinks(TrashShares(links, from, key), key, from, from) == links
  {
    forall id | id in links ensures RestoreLinks(TrashShares(links, from, key), key, from, from)[id] == links[id] {
      if Under(from, links[id].path) && links[id].trash.None? {
        assert links[id].path == from + links[id].path[|from|..];
      }
    }
  }

  /** No image under the path belongs to an older trash entry. */
  predicate NoOlderImages(links: Links, from: string) {
    forall id <- links :: Under(from, links[id].path) ==> links[id].trash.None?
  }

  lemma ImagesReturn(links: Links, from: string, key: string)
    requires forall id <- links :: links[id].trash != Some(key)
    ensures RestoreLinks(TrashImages(links, from, key), key, from, from) == links <==> NoOlderImages(links, from)
  {
    var back := RestoreLinks(TrashImages(links, from, key), key, from, from);
    forall id | id in links && (Under(from, links[id].path) ==> links[id].trash.None?) ensures back[id] == links[id] {
      if Under(from, links[id].path) {
        assert links[id].path == from + links[id].path[|from|..];
      }
    }
    forall id | id in links && Under(from, links[id].path) && links[id].trash.Some? ensures back[id] != links[id] {
      assert back[id].trash.None?;
    }
  }

  // ------------------------------------------------------------------------ purge

  function PurgeRows(rows: Rows, key: string): Rows {
    map id | id in rows && rows[id].trash != Some(key) :: rows[id]
  }

  function PurgeLinks(links: Links, key: string): Links {
    map id | id in links && links[id].trash != Some(key) :: links[id]
  }

  /** Shares go with their trash entry, by the foreign key's cascade. */
  function Purged(m: Metadata, key: string): Metadata {
    Metadata(m.entries - {key}, PurgeRows(m.records, key), PurgeLinks(m.images, key), PurgeLinks(m.shares, key))
  }

  /** Purging after trashing forgets the rows of the trashed files, every image under the path, those
      of older entries too, and the shares under it that were not in the trash before; it touches no
      other row. */
  lemma PurgeForgetsTrashed(m: Metadata, from: string, key: string, files: seq<Planned>, next: nat)
    requires ValidPlan(m.records, files, next) && FreshKey(m, key)
    ensures var p := Purged(Trashed(m, from, key, files, next), key);
            && p.entries == m.entries && IsLeftOf(p.records, m.records, from, files)
            && p.images == (map id | id in m.images && !Under(from, m.images[id].path) :: m.images[id])
            && p.shares == (map id | id in m.shares && !(Under(from, m.shares[id].path) && m.shares[id].trash.None?) :: m.shares[id])
  {
    var p := Purged(Trashed(m, from, key, files, next), key);
    assert p.entries == m.entries;
    forall id ensures id in p.records <==> id in m.records && !IsPlanned(m.records[id], from, files)
              ensures id in p.records ==> p.records[id] == m.records[id]
    {
      if id in m.records {
        KnownRow(m.records, from, key, files, next, id);
      } else if id in TrashAll(m.records, from, key, files, next) {
        AddedRow(m.records, from, key, files, next, id);
      }
    }
  }

  /** The rows of files that were not trashed, and no others. */
  ghost predicate IsLeftOf(left: Rows, rows: Rows, from: string, files: seq<Planned>) {
    forall id ::
      && (id in left <==> id in rows && !IsPlanned(rows[id], from, files))
      && (id in left ==> left[id] == rows[id])
  }

  // -------------------------------------------------------------- the code, as run

  /** moveRecordsToTrashTx over the ledger: one update per planned file, or an insert. */
  method MoveRecordsToTrash(rows: Rows, from: string, key: string, files: seq<Planned>, next: nat) returns (r: Rows)
    requires ValidPlan(rows, files, next) && forall id <- rows :: !Under(key, rows[id].path)
    ensures r == TrashAll(rows, from, key, files, next)
  {
    r := rows;
    for i := 0 to |files|
      invariant r == TrashAll(rows, from, key, files[..i], next)
    {
      var f := files[i];
      assert files[..i + 1][..i] == files[..i];
      EarlierPlan(rows, from, key, files, next, i);
      var path := from + f.suffix;
      if id :| id in r && r[id].trash.None? && r[id].path == path {
        r := r[id := r[id].(path := key + f.suffix, trash := Some(key))];
      } else {
        r := r[next + i := Row(key + f.suffix, None, f.size, Some(key))];
      }
    }
    assert files[..|files|] == files;
  }

  /** While the loop runs, active rows keep distinct paths. */
  lemma EarlierPlan(rows: Rows, from: string, key: string, files: seq<Planned>, next: nat, i: nat)
    requires ValidPlan(rows, files, next) && i <= |files|
    ensures var r := TrashAll(rows, from, key, files[..i], next);
            forall a, b :: a in r && b in r && a != b && r[a].trash.None? && r[b].trash.None? ==> r[a].path != r[b].path
  {
    TrashAllExact(rows, from, key, files[..i], next);
  }

  /** restoreRecordsTx over the ledger: row by row, it fails when a row would land on another. */
  method RestoreRecords(rows: Rows, key: string, target: string, ids: seq<nat>) returns (ok: bool, r: Rows)
    requires Unique(rows) && Lists(ids, rows, key)
    ensures ok <==> ClearInOrder(rows, key, target, ids)
    ensures r == if ok then RestoreRows(rows, key, target) else rows
  {
    r := rows;
    assert RestoredSome(rows, key, target, ids[..0]) == rows;
    for i := 0 to |ids|
      invariant r == RestoredSome(rows, key, target, ids[..i])
      invariant forall k, other :: 0 <= k < i && other in rows && other != ids[k] ==> !LandsOn(rows, key, target, ids, k, other)
    {
      var id := ids[i];
      OneMoreRestored(rows, key, target, ids, i);
      var newRel := target + TrimPrefix(r[id].path, key);
      if other :| other in r && other != id && r[other].path == newRel {
        assert LandsOn(rows, key, target, ids, i, other);
        return false, rows;
      }
      r := r[id := r[id].(path := newRel, trash := None)];
    }
    assert ids[..|ids|] == ids;
    AllRestored(rows, key, target, ids);
    return true, r;
  }

  /** restoreRecordsTx over image and share rows, which have no unique path. */
  method RestoreLinkRows(links: Links, key: string, original: string, target: string) returns (r: Links)
    ensures r == RestoreLinks(links, key, original, target)
  {
    r := links;
    var pending := set id | id in links && links[id].trash == Some(key);
    while pending != {}
      invariant pending <= links.Keys && r.Keys == links.Keys
      invariant forall id <- pending :: links[id].trash == Some(key)
      invariant forall id <- links :: r[id] == if id in pending then links[id] else RestoreLinks(links, key, original, target)[id]
      decreases pending
    {
      var id :| id in pending;
      r := r[id := Link(target + TrimPrefix(links[id].path, original), None)];
      pending := pending - {id};
    }
  }

  /** What restoreRecordsTx is given: an entry, and its rows as they are queried. */
  predicate Restorable(m: Metadata, key: string, ids: seq<nat>) {
    key in m.entries && Unique(m.records) && Lists(ids, m.records, key)
  }

  function RestoredOrClash(m: Metadata, key: string, target: string, ids: seq<nat>): Option<Metadata>
    requires Restorable(m, key, ids)
  {
    if ClearInOrder(m.records, key, target, ids) then Some(Restored(m, key, target)) else None
  }

  /** The whole transaction of a restore: all tables, or none on a clash. */
  method RestoreRecordsTx(m: Metadata, key: string, target: string, ids: seq<nat>) returns (r: Option<Metadata>)
    requires Restorable(m, key, ids)
    ensures r == RestoredOrClash(m, key, target, ids)
    ensures r.Some? ==> Unique(r.value.records)
  {
    var ok, records := RestoreRecords(m.records, key, target, ids);
    if !ok {
      return None;
    }
    ClearIsUnique(m.records, key, target, ids);
    var images := RestoreLinkRows(m.images, key, m.entries[key], target);
    var shares := RestoreLinkRows(m.shares, key, m.entries[key], target);
    return Some(Metadata(m.entries - {key}, records, images, shares));
  }
}
