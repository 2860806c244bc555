/** Bringing the ledger in line with the disk (reconcileSource in internal/files/records.go).
 */
module Reconcile {
  import opened Segments
  import opened Wrappers
  import T = Transfer

  datatype Status = Active | Trashed

  /** owner_type, with the user's number where there is one. */
  datatype Owner = User(id: nat) | Anonymous | System | Unowned

  datatype Record = Record(size: nat, mtime: int, owner: Owner, status: Status, fileScope: bool)

  /** One source's ledger: the path of a row is unique. */
  type Ledger = map<string, Record>

  /** A scanned file. */
  datatype Scanned = Scanned(size: nat, mtime: int)

  type Scan = map<string, Scanned>

  datatype Counts = Counts(added: nat, updated: nat, removed: nat, unowned: nat)

  /** The managed namespace's name in any case, by simple folding. */
  function Fold(c: char): char {
    if 'A' <= c <= 'Z' then (c as int - 'A' as int + 'a' as int) as char
    else if c == '\U{17F}' then 's'
    else c
  }

  function FoldAll(s: string): string {
    if s == [] then [] else [Fold(s[0])] + FoldAll(s[1..])
  }

  predicate IsManagedNamespaceName(name: string) {
    FoldAll(name) == ".omnistore"
  }

  /** The name, in any case; the long s folds to an s. */
  lemma ManagedNameExactly(name: string)
    ensures IsManagedNamespaceName(name) <==>
            && |name| == 10 && name[0] == '.'
            && name[1] in {'o', 'O'} && name[2] in {'m', 'M'} && name[3] in {'n', 'N'} && name[4] in {'i', 'I'}
            && name[5] in {'s', 'S', '\U{17F}'} && name[6] in {'t', 'T'} && name[7] in {'o', 'O'} && name[8] in {'r', 'R'}
            && name[9] in {'e', 'E'}
  {
    FoldAllExactly(name);
    var folded := FoldAll(name);
    if |name| == 10 {
      assert folded == ".omnistore" <==> forall i :: 0 <= i < 10 ==> Fold(name[i]) == ".omnistore"[i];
    }
  }

  lemma {:induction false} FoldAllExactly(s: string)
    ensures |FoldAll(s)| == |s| && forall i :: 0 <= i < |s| ==> FoldAll(s)[i] == Fold(s[i])
  {
    if s != [] {
      FoldAllExactly(s[1..]);
    }
  }

  predicate ContainsManagedNamespace(path: string) {
    exists segment <- Split(path, '/') :: IsManagedNamespaceName(segment)
  }

  /** A path is in the managed namespace exactly when one of its segments is the name. */
  lemma ContainsExactly(segments: seq<string>)
    requires AreSegments(segments, '/')
    ensures ContainsManagedNamespace(Join(segments, '/')) <==> exists i :: 0 <= i < |segments| && IsManagedNamespaceName(segments[i])
  {
    SplitUndoesJoin(segments, '/');
  }

  /** A row the reconciliation may touch. */
  predicate IsSubject(r: Record) {
    r.status.Active? && r.fileScope
  }

  /** A scan never enters the managed namespace. */
  predicate IsScan(disk: Scan) {
    forall path <- disk :: !ContainsManagedNamespace(path)
  }

  /** A new file's row needs its path, which a row of another kind may hold. */
  predicate Fits(rows: Ledger, disk: Scan) {
    forall path <- disk :: path in rows ==> IsSubject(rows[path])
  }

  function NewRecord(item: Scanned): Record {
    Record(item.size, item.mtime, Unowned, Active, true)
  }

  /** The ledger a reconciliation leaves. */
  function Reconciled(rows: Ledger, disk: Scan): Ledger {
    map path | path in rows.Keys + disk.Keys && (path in disk || Survives(rows, path)) ::
      if path !in disk then rows[path]
      else if path in rows then rows[path].(size := disk[path].size, mtime := disk[path].mtime)
      else NewRecord(disk[path])
  }

  /** A row without a file stays only if it is not the reconciliation's to remove. */
  predicate Survives(rows: Ledger, path: string) {
    path in rows && (!IsSubject(rows[path]) || ContainsManagedNamespace(path))
  }

  // ------------------------------------------------------------------ properties

  /** Afterwards the ordinary active rows are the scanned files, path for path and in size and time. */
  lemma LedgerEqualsDisk(rows: Ledger, disk: Scan)
    requires IsScan(disk) && Fits(rows, disk)
    ensures var after := Reconciled(rows, disk);
            disk == map path | path in after && after[path].status.Active? && after[path].fileScope
                          && !ContainsManagedNamespace(path) ::
                      Scanned(after[path].size, after[path].mtime)
  {
    var after := Reconciled(rows, disk);
    forall path
      ensures path in disk <==> path in after && IsSubject(after[path]) && !ContainsManagedNamespace(path)
      ensures path in disk ==> path in after && disk[path] == Scanned(after[path].size, after[path].mtime)
    {
      if path in disk && path in rows {
        assert IsSubject(rows[path]);
      }
    }
  }

  /** Rows of files that are still there keep their owner, and rows that are not the
      reconciliation's stay as they are. */
  lemma OwnersAndOthersStay(rows: Ledger, disk: Scan, path: string)
    requires IsScan(disk) && Fits(rows, disk) && path in rows
    ensures var after := Reconciled(rows, disk);
            && (path in disk ==> path in after && after[path].owner == rows[path].owner)
            && (rows[path].status.Trashed? || !rows[path].fileScope || ContainsManagedNamespace(path)
                ==> path in after && after[path] == rows[path])
  {
  }

  function Added(rows: Ledger, disk: Scan): set<string> {
    disk.Keys - rows.Keys
  }

  function Removed(rows: Ledger, disk: Scan): set<string> {
    set path | path in rows && path !in disk && !Survives(rows, path)
  }

  function Updated(rows: Ledger, disk: Scan): set<string> {
    set path | path in disk && path in rows && Scanned(rows[path].size, rows[path].mtime) != disk[path]
  }

  /** The counts add up: rows after are rows before, plus those added, less those removed. */
  lemma CountsAddUp(rows: Ledger, disk: Scan)
    requires IsScan(disk) && Fits(rows, disk)
    ensures |Reconciled(rows, disk)| + |Removed(rows, disk)| == |rows| + |Added(rows, disk)|
  {
    var after, removed, added := Reconciled(rows, disk).Keys, Removed(rows, disk), Added(rows, disk);
    KeysAfter(rows, disk);
    Partition(after, removed, rows.Keys, added);
  }

  lemma KeysAfter(rows: Ledger, disk: Scan)
    requires IsScan(disk) && Fits(rows, disk)
    ensures Reconciled(rows, disk).Keys == rows.Keys - Removed(rows, disk) + Added(rows, disk)
  {
  }

  lemma Partition(after: set<string>, removed: set<string>, before: set<string>, added: set<string>)
    requires after == before - removed + added && removed <= before && added !! before
    ensures |after| + |removed| == |before| + |added|
  {
    assert before == (before - removed) + removed;
    assert |before| == |before - removed| + |removed|;
  }

  /** A second run changes nothing and reports nothing. */
  lemma SecondRunIsIdle(rows: Ledger, disk: Scan)
    requires IsScan(disk) && Fits(rows, disk)
    ensures var after := Reconciled(rows, disk);
            && Fits(after, disk) && Reconciled(after, disk) == after
            && Added(after, disk) == {} && Removed(after, disk) == {} && Updated(after, disk) == {}
  {
    var after := Reconciled(rows, disk);
    forall path | path in disk ensures path in after && IsSubject(after[path]) && Scanned(after[path].size, after[path].mtime) == disk[path] {
      assert path in rows ==> IsSubject(rows[path]);
    }
    assert Reconciled(after, disk) == after;
  }

  // ------------------------------------------- the reconciliation a rollback uses

  function OwnerOf(user: Option<nat>): Owner {
    if user.Some? then User(user.value) else Unowned
  }

  /** Another source's file rows as this ledger has them. */
  function FromTransfer(rows: T.Rows): Ledger {
    map path | path in rows :: Record(rows[path].size, rows[path].mtime, OwnerOf(rows[path].owner), Active, true)
  }

  function ScanOf(op: T.Op, source: T.Tree): Scan {
    map path | path in source && source[path].File? && path !in op.hidden ::
      Scanned(|source[path].bytes|, source[path].mtime)
  }

  /** The rollback of a cross-source move reconciles by these very rules. */
  lemma TransferReconcilesAlike(op: T.Op, rows: T.Rows, source: T.Tree)
    requires IsScan(ScanOf(op, source)) && forall path <- rows :: !ContainsManagedNamespace(path)
    ensures Reconciled(FromTransfer(rows), ScanOf(op, source)) == FromTransfer(T.Reconciled(op, rows, source))
    ensures forall path <- rows :: FromTransfer(rows)[path].owner == match rows[path].owner case Some(id) => User(id) case None => Unowned
  {
  }

  // ---------------------------------------------------------- the code, as run

  /** The rows once the files in `done` were written. */
  ghost function Written(rows: Ledger, disk: Scan, done: set<string>): Ledger {
    map path | path in rows.Keys + (done * disk.Keys) ::
      if path !in done || path !in disk then rows[path]
      else if path in rows then rows[path].(size := disk[path].size, mtime := disk[path].mtime)
      else NewRecord(disk[path])
  }

  ghost function Missing(rows: Ledger, done: set<string>): set<string> {
    set path | path in rows && IsSubject(rows[path]) && path !in done
  }

  function Ordinary(paths: set<string>): set<string> {
    set path | path in paths && !ContainsManagedNamespace(path)
  }

  lemma WrittenThenRemoved(rows: Ledger, disk: Scan)
    requires IsScan(disk) && Fits(rows, disk)
    ensures Ordinary(Missing(rows, disk.Keys)) == Removed(rows, disk)
    ensures Written(rows, disk, disk.Keys) - Ordinary(Missing(rows, disk.Keys)) == Reconciled(rows, disk)
  {
  }

  /** reconcileSource: the transaction fails as a whole when a new file's path is taken. */
  method ReconcileSource(rows: Ledger, disk: Scan) returns (ok: bool, after: Ledger, counts: Counts)
    requires IsScan(disk)
    ensures ok <==> forall path <- disk :: path in rows ==> rows[path].status.Active? && rows[path].fileScope
    ensures after == if ok then Reconciled(rows, disk) else rows
    ensures ok ==> counts == Counts(|disk.Keys - rows.Keys|,
                                    |set path | path in disk && path in rows && Scanned(rows[path].size, rows[path].mtime) != disk[path]|,
                                    |Removed(rows, disk)|,
                                    |set path | path in after && after[path].status.Active? && after[path].owner.Unowned?|)
  {
    counts := Counts(0, 0, 0, 0);
    var written, added, updated, existing;
    ok, written, added, updated, existing := WriteScanned(rows, disk);
    if !ok {
      return false, rows, counts;
    }
    var removed;
    after, removed := RemoveMissing(written, existing);
    WrittenThenRemoved(rows, disk);
    var unowned := set path | path in after && after[path].status.Active? && after[path].owner.Unowned?;
    counts := Counts(added, updated, removed, |unowned|);
  }

  lemma OneMoreWritten(rows: Ledger, disk: Scan, done: set<string>, path: string)
    requires path in disk && path !in done && done <= disk.Keys
    ensures Written(rows, disk, done + {path})
         == Written(rows, disk, done)[path := if path in rows
              then rows[path].(size := disk[path].size, mtime := disk[path].mtime) else NewRecord(disk[path])]
    ensures path in Written(rows, disk, done) <==> path in rows
    ensures path in rows ==> Written(rows, disk, done)[path] == rows[path]
    ensures Missing(rows, done + {path}) == Missing(rows, done) - {path}
    ensures path in Missing(rows, done) <==> path in rows && IsSubject(rows[path])
  {
  }

  lemma CountOneMore(all: set<string>, done: set<string>, path: string)
    requires path !in done
    ensures all * (done + {path}) == all * done + (if path in all then {path} else {})
    ensures |all * (done + {path})| == |all * done| + if path in all then 1 else 0
  {
    assert all * (done + {path}) == all * done + (if path in all then {path} else {});
  }

  /** One scanned file: an insert, which fails if the path is taken, an update, or nothing. */
  method WriteOne(ghost rows: Ledger, ghost disk: Scan, ghost done: set<string>, r: Ledger, existing: set<string>, path: string, item: Scanned)
      returns (ok: bool, s: Ledger, inserted: bool, changed: bool)
    requires path in disk && path !in done && done <= disk.Keys && item == disk[path]
    requires existing == Missing(rows, done) && r == Written(rows, disk, done)
    ensures ok <==> (path in rows ==> IsSubject(rows[path]))
    ensures ok ==> s == Written(rows, disk, done + {path})
    ensures ok ==> (inserted <==> path in Added(rows, disk)) && (changed <==> path in Updated(rows, disk))
  {
    OneMoreWritten(rows, disk, done, path);
    if path !in existing {
      if path in r {
        return false, r, false, false;
      }
      return true, r[path := NewRecord(item)], true, false;
    }
    var known := r[path];
    if known.size == item.size && known.mtime == item.mtime {
      assert known.(size := item.size, mtime := item.mtime) == known;
      assert r[path := known] == r;
      return true, r, false, false;
    }
    return true, r[path := known.(size := item.size, mtime := item.mtime)], false, true;
  }

  /** Where the loop over the scanned files stands. */
  ghost predicate Writing(rows: Ledger, disk: Scan, done: set<string>, r: Ledger, existing: set<string>, added: nat, updated: nat) {
    && done <= disk.Keys && (forall path <- done :: path in rows ==> IsSubject(rows[path]))
    && existing == Missing(rows, done) && r == Written(rows, disk, done)
    && added == |Added(rows, disk) * done| && updated == |Updated(rows, disk) * done|
  }

  lemma NothingWritten(rows: Ledger, disk: Scan)
    ensures Written(rows, disk, {}) == rows
  {
    var r := Written(rows, disk, {});
    assert r.Keys == rows.Keys;
    assert forall path <- rows :: r[path] == rows[path];
  }

  lemma NothingInCommon(s: set<string>)
    ensures |s * {}| == 0
  {
    assert s * {} == {};
  }

  lemma StartsWriting(rows: Ledger, disk: Scan)
    ensures Writing(rows, disk, {}, rows, set path | path in rows && IsSubject(rows[path]), 0, 0)
  {
    NothingWritten(rows, disk);
    NothingInCommon(Added(rows, disk));
    NothingInCommon(Updated(rows, disk));
  }

  lemma WritesOne(rows: Ledger, disk: Scan, done: set<string>, r: Ledger, existing: set<string>, added: nat, updated: nat,
                  path: string, s: Ledger)
    requires Writing(rows, disk, done, r, existing, added, updated) && path in disk && path !in done
    requires path in rows ==> IsSubject(rows[path])
    requires s == Written(rows, disk, done + {path})
    ensures Writing(rows, disk, done + {path}, s, existing - {path},
                    if path in Added(rows, disk) then added + 1 else added,
                    if path in Updated(rows, disk) then updated + 1 else updated)
  {
    CountOneMore(Added(rows, disk), done, path);
    CountOneMore(Updated(rows, disk), done, path);
    OneMoreWritten(rows, disk, done, path);
  }

  lemma AllWritten(rows: Ledger, disk: Scan, r: Ledger, existing: set<string>, added: nat, updated: nat)
    requires Writing(rows, disk, disk.Keys, r, existing, added, updated)
    ensures Fits(rows, disk) && existing == Missing(rows, disk.Keys) && r == Written(rows, disk, disk.Keys)
    ensures added == |Added(rows, disk)| && updated == |Updated(rows, disk)|
  {
    assert Added(rows, disk) * disk.Keys == Added(rows, disk);
    assert Updated(rows, disk) * disk.Keys == Updated(rows, disk);
  }

  lemma NonePending(rows: Ledger, disk: Scan, existing: set<string>)
    requires existing == set path | path in rows && IsSubject(rows[path])
    ensures Writing(rows, disk, disk.Keys - disk.Keys, rows, existing, 0, 0)
  {
    assert disk.Keys - disk.Keys == {};
    StartsWriting(rows, disk);
  }

  lemma OneLessPending(all: set<string>, pending: set<string>, path: string)
    requires pending <= all && path in pending
    ensures all - (pending - {path}) == all - pending + {path}
  {
  }

  /** The loop over the scanned files: what is left in `existing` had no file. */
  method WriteScanned(rows: Ledger, disk: Scan) returns (ok: bool, r: Ledger, added: nat, updated: nat, existing: set<string>)
    ensures ok <==> Fits(rows, disk)
    ensures ok ==> added == |Added(rows, disk)| && updated == |Updated(rows, disk)|
    ensures ok ==> existing == Missing(rows, disk.Keys) && r == Written(rows, disk, disk.Keys)
  {
    r, added, updated := rows, 0, 0;
    existing := set path | path in rows && IsSubject(rows[path]);
    var pending := disk.Keys;
    NonePending(rows, disk, existing);
    while pending != {}
      invariant pending <= disk.Keys && Writing(rows, disk, disk.Keys - pending, r, existing, added, updated)
      decreases pending
    {
      var path :| path in pending;
      var s, inserted, changed;
      ok, s, inserted, changed := WriteOne(rows, disk, disk.Keys - pending, r, existing, path, disk[path]);
      if !ok {
        return;
      }
      OneLessPending(disk.Keys, pending, path);
      WritesOne(rows, disk, disk.Keys - pending, r, existing, added, updated, path, s);
      r := s;
      added := if inserted then added + 1 else added;
      updated := if changed then updated + 1 else updated;
      existing := existing - {path};
      pending := pending - {path};
    }
    assert disk.Keys - pending == disk.Keys;
    AllWritten(rows, disk, r, existing, added, updated);
    ok := true;
  }

  /** Where the loop over the rows without a file stands. */
  ghost predicate Removing(written: Ledger, existing: set<string>, pending: set<string>, r: Ledger, removed: nat) {
    pending <= existing && r == written - Ordinary(existing - pending) && removed == |Ordinary(existing - pending)|
  }

  lemma RemovesOne(written: Ledger, existing: set<string>, pending: set<string>, r: Ledger, removed: nat, path: string)
    requires Removing(written, existing, pending, r, removed) && path in pending
    ensures if ContainsManagedNamespace(path) then Removing(written, existing, pending - {path}, r, removed)
            else Removing(written, existing, pending - {path}, r - {path}, removed + 1)
  {
    var before, after := Ordinary(existing - pending), Ordinary(existing - (pending - {path}));
    assert after == before + if ContainsManagedNamespace(path) then {} else {path};
  }

  /** The loop over the rows without a file. */
  method RemoveMissing(written: Ledger, existing: set<string>) returns (r: Ledger, removed: nat)
    ensures r == written - Ordinary(existing) && removed == |Ordinary(existing)|
  {
    r, removed := written, 0;
    var pending := existing;
    assert existing - pending == {} && Ordinary({}) == {} && written - {} == written;
    while pending != {}
      invariant Removing(written, existing, pending, r, removed)
      decreases pending
    {
      var path :| path in pending;
      RemovesOne(written, existing, pending, r, removed, path);
      if !ContainsManagedNamespace(path) {
        r := r - {path};
        removed := removed + 1;
      }
      pending := pending - {path};
    }
    assert existing - pending == existing;
  }
}
