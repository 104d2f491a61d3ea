/**
  The hourly retention sweep: every row older than five days is deleted,
  together with its stored object when that object still exists.
 */
module Retention {
  import opened Catalog

  /** Five days in milliseconds, the retention window. */
  const RetentionMs: int := 5 * 24 * 60 * 60 * 1000

  /** A row is swept once it is strictly older than the retention window. */
  predicate Expired(e: Entry, now: int)
  {
    now - e.uploadedAt > RetentionMs
  }

  /** A row of the sweep's `SELECT * FROM files` snapshot. */
  datatype Row = Row(id: Id, entry: Entry)

  /** `rows` is a snapshot of `t`: every row of `t`, as it is in `t`. */
  predicate IsSnapshot(t: Table, rows: seq<Row>)
  {
    && (forall i :: 0 <= i < |rows| ==> rows[i].id in t && t[rows[i].id] == rows[i].entry)
    && (forall k :: k in t ==> exists i :: 0 <= i < |rows| && rows[i].id == k)
  }

  /**
    The row's path exists but as the other kind of object, so that the
    sweep's `unlinkSync` or `rmdirSync` would throw.
   */
  predicate Clash(s: Storage, e: Entry)
  {
    match e.kind
    case File => e.path !in s.files && e.path in s.dirs
    case Folder => e.path !in s.dirs && e.path in s.files
  }

  /**
    One iteration of the sweep's `forEach`: a row within the window is left
    alone; an expired row has its object removed if the object exists, and
    is deleted from the table whether or not it did.
   */
  function SweepRow(st: State, row: Row, now: int): (r: Outcome<State>)
    ensures !Expired(row.entry, now) ==> r == Ok(st)
    ensures r.Thrown? <==> Expired(row.entry, now) && Clash(st.storage, row.entry)
    ensures !r.NotFound? && !r.Rejected?
    ensures Expired(row.entry, now) && !Present(st.storage, row.entry.path) ==>
      r == Ok(State(st.table - {row.id}, st.storage))
    ensures r.Ok? && Expired(row.entry, now) ==>
      && r.value.table == st.table - {row.id}
      && r.value.storage.files <= st.storage.files
      && r.value.storage.dirs <= st.storage.dirs
      && !(row.entry.path in (if row.entry.kind == File then r.value.storage.files else r.value.storage.dirs))
  {
    if !Expired(row.entry, now) then Ok(st)
    else
      var p := row.entry.path;
      var s := st.storage;
      var t := st.table - {row.id};
      if !Present(s, p) then Ok(State(t, s))
      else
        match row.entry.kind
        case File => if p in s.files then Ok(State(t, Storage(s.files - {p}, s.dirs))) else Thrown(Eisdir)
        case Folder => if p in s.dirs then Ok(State(t, RemoveTree(s, p))) else Thrown(Enotdir)
  }

  /**
    The sweep's `forEach` over the snapshot, in order. An fs call that throws
    ends the sweep.
   */
  function SweepRows(st: State, rows: seq<Row>, now: int): (r: Outcome<State>)
    ensures !r.NotFound? && !r.Rejected?
    ensures r.Ok? ==>
      && (forall k :: k in r.value.table ==> k in st.table && r.value.table[k] == st.table[k])
      && (forall i :: 0 <= i < |rows| && Expired(rows[i].entry, now) ==> rows[i].id !in r.value.table)
      && (forall k :: k in st.table && (forall i :: 0 <= i < |rows| && rows[i].id == k ==> !Expired(rows[i].entry, now)) ==> k in r.value.table)
      && r.value.storage.files <= st.storage.files
      && r.value.storage.dirs <= st.storage.dirs
    decreases |rows|
  {
    if rows == [] then Ok(st)
    else
      match SweepRow(st, rows[0], now)
      case Ok(next) =>
        var r := SweepRows(next, rows[1..], now);
        assert r.Ok? ==> forall i :: 1 <= i < |rows| ==> rows[i] == rows[1..][i - 1];
        r
      case NotFound => NotFound
      case Rejected => Rejected
      case Thrown(e) => Thrown(e)
  }

  /**
    One sweep at time `now` over a snapshot of the table. When it completes,
    the table holds exactly the rows still within the window, unchanged;
    rows exactly five days old are kept.
   */
  function Sweep(st: State, rows: seq<Row>, now: int): (r: Outcome<State>)
    requires IsSnapshot(st.table, rows)
    ensures !r.NotFound? && !r.Rejected?
    ensures r.Ok? ==>
      && (forall k :: k in r.value.table <==> k in st.table && !Expired(st.table[k], now))
      && (forall k :: k in r.value.table ==> r.value.table[k] == st.table[k])
      && (forall k :: k in st.table && now - st.table[k].uploadedAt == 432000000 ==> k in r.value.table)
  {
    SweepRows(st, rows, now)
  }

  /** Ids of the expired rows of a snapshot. */
  function ExpiredIds(rows: seq<Row>, now: int): set<Id>
    decreases |rows|
  {
    if rows == [] then {}
    else
      var first: set<Id> := if Expired(rows[0].entry, now) then {rows[0].id} else {};
      first + ExpiredIds(rows[1..], now)
  }

  /** Paths of the expired rows of one kind in a snapshot. */
  function ExpiredPaths(rows: seq<Row>, kind: Kind, now: int): set<string>
    decreases |rows|
  {
    if rows == [] then {}
    else
      var first: set<string> := if Expired(rows[0].entry, now) && rows[0].entry.kind == kind then {rows[0].entry.path} else {};
      first + ExpiredPaths(rows[1..], kind, now)
  }

  lemma {:induction false} ExpiredIdsMembers(rows: seq<Row>, now: int, k: Id)
    ensures k in ExpiredIds(rows, now) <==> exists i :: 0 <= i < |rows| && rows[i].id == k && Expired(rows[i].entry, now)
    decreases |rows|
  {
    if rows != [] {
      ExpiredIdsMembers(rows[1..], now, k);
      if k in ExpiredIds(rows[1..], now) {
        var i :| 0 <= i < |rows[1..]| && rows[1..][i].id == k && Expired(rows[1..][i].entry, now);
        assert rows[i + 1] == rows[1..][i];
      }
      if exists i :: 0 <= i < |rows| && rows[i].id == k && Expired(rows[i].entry, now) {
        var i :| 0 <= i < |rows| && rows[i].id == k && Expired(rows[i].entry, now);
        if i > 0 {
          assert rows[1..][i - 1] == rows[i];
        }
      }
    }
  }

  lemma {:induction false} ExpiredPathsMembers(rows: seq<Row>, kind: Kind, now: int, p: string)
    ensures p in ExpiredPaths(rows, kind, now) <==>
      exists i :: 0 <= i < |rows| && rows[i].entry.path == p && rows[i].entry.kind == kind && Expired(rows[i].entry, now)
    decreases |rows|
  {
    if rows != [] {
      ExpiredPathsMembers(rows[1..], kind, now, p);
      if p in ExpiredPaths(rows[1..], kind, now) {
        var i :| 0 <= i < |rows[1..]| && rows[1..][i].entry.path == p && rows[1..][i].entry.kind == kind && Expired(rows[1..][i].entry, now);
        assert rows[i + 1] == rows[1..][i];
      }
      if exists i :: 0 <= i < |rows| && rows[i].entry.path == p && rows[i].entry.kind == kind && Expired(rows[i].entry, now) {
        var i :| 0 <= i < |rows| && rows[i].entry.path == p && rows[i].entry.kind == kind && Expired(rows[i].entry, now);
        if i > 0 {
          assert rows[1..][i - 1] == rows[i];
        }
      }
    }
  }

  /**
    One step of the sweep on a storage without clashes: it removes the
    expired row, and its object if that object is there.
   */
  lemma SweepRowWithoutClash(st: State, row: Row, now: int)
    requires st.storage.files !! st.storage.dirs && FlatStorage(st.storage)
    requires !Clash(st.storage, row.entry)
    ensures var e := row.entry;
      SweepRow(st, row, now) == Ok(
        if !Expired(e, now) then st
        else if e.kind == File then State(st.table - {row.id}, Storage(st.storage.files - {e.path}, st.storage.dirs))
        else State(st.table - {row.id}, Storage(st.storage.files, st.storage.dirs - {e.path})))
  {
    var s := st.storage;
    var p := row.entry.path;
    if Expired(row.entry, now) {
      if !Present(s, p) {
        assert s.files - {p} == s.files;
        assert s.dirs - {p} == s.dirs;
      } else if row.entry.kind == Folder {
        RemoveTreeOfFlat(s, p);
      }
    }
  }

  /** Removing two sets of keys one after the other removes their union. */
  lemma MapMinusTwice(t: Table, x: set<Id>, y: set<Id>)
    ensures (t - x) - y == t - (x + y)
  {
  }

  /** Removing two sets of paths one after the other removes their union. */
  lemma SetMinusTwice(a: set<string>, x: set<string>, y: set<string>)
    ensures (a - x) - y == a - (x + y)
  {
  }

  /** Removing objects keeps the storage directory flat and files and directories disjoint. */
  lemma ShrunkStorage(s: Storage, s': Storage)
    requires s.files !! s.dirs && FlatStorage(s)
    requires s'.files <= s.files && s'.dirs <= s.dirs
    ensures s'.files !! s'.dirs && FlatStorage(s')
  {
  }

  /**
    On a flat storage directory where files and directories are disjoint and
    no row's path holds the wrong kind of object, the sweep never throws: it
    deletes exactly the expired rows, unlinks exactly the expired files'
    paths and removes exactly the expired folders' directories, skipping
    whichever of those are already gone.
   */
  lemma {:induction false} SweepRowsWithoutClash(st: State, rows: seq<Row>, now: int)
    requires st.storage.files !! st.storage.dirs && FlatStorage(st.storage)
    requires forall i :: 0 <= i < |rows| ==> !Clash(st.storage, rows[i].entry)
    ensures SweepRows(st, rows, now) == Ok(State(
      st.table - ExpiredIds(rows, now),
      Storage(st.storage.files - ExpiredPaths(rows, File, now), st.storage.dirs - ExpiredPaths(rows, Folder, now))))
    decreases |rows|
  {
    if rows == [] {
      assert st.table - {} == st.table;
      assert st.storage.files - {} == st.storage.files;
      assert st.storage.dirs - {} == st.storage.dirs;
    } else {
      var s := st.storage;
      var e := rows[0].entry;
      var first: set<Id> := if Expired(e, now) then {rows[0].id} else {};
      var firstFile: set<string> := if Expired(e, now) && e.kind == File then {e.path} else {};
      var firstDir: set<string> := if Expired(e, now) && e.kind == Folder then {e.path} else {};
      SweepRowWithoutClash(st, rows[0], now);
      var next := State(st.table - first, Storage(s.files - firstFile, s.dirs - firstDir));
      assert st.table - {} == st.table;
      assert s.files - {} == s.files && s.dirs - {} == s.dirs;
      assert SweepRow(st, rows[0], now) == Ok(next);
      assert SweepRows(st, rows, now) == SweepRows(next, rows[1..], now);
      ShrunkStorage(s, next.storage);
      forall i | 0 <= i < |rows[1..]|
        ensures !Clash(next.storage, rows[1..][i].entry)
      {
        assert rows[1..][i] == rows[i + 1];
      }
      SweepRowsWithoutClash(next, rows[1..], now);
      MapMinusTwice(st.table, first, ExpiredIds(rows[1..], now));
      SetMinusTwice(s.files, firstFile, ExpiredPaths(rows[1..], File, now));
      SetMinusTwice(s.dirs, firstDir, ExpiredPaths(rows[1..], Folder, now));
    }
  }

  /** The paths of the expired rows of one kind, read off the table. */
  function ExpiredPathsOf(t: Table, kind: Kind, now: int): set<string>
  {
    set k | k in t && t[k].kind == kind && Expired(t[k], now) :: t[k].path
  }

  /** On a snapshot, the expired ids are exactly the table's expired rows. */
  lemma SnapshotExpiredIds(t: Table, rows: seq<Row>, now: int)
    requires IsSnapshot(t, rows)
    ensures t - ExpiredIds(rows, now) == map k | k in t && !Expired(t[k], now) :: t[k]
  {
    var kept := map k | k in t && !Expired(t[k], now) :: t[k];
    forall k
      ensures k in t - ExpiredIds(rows, now) <==> k in kept
    {
      ExpiredIdsMembers(rows, now, k);
      if k in t && Expired(t[k], now) {
        var i :| 0 <= i < |rows| && rows[i].id == k;
      }
    }
  }

  /** On a snapshot, the expired paths of a kind are exactly those of the table's expired rows. */
  lemma SnapshotExpiredPaths(t: Table, rows: seq<Row>, kind: Kind, now: int)
    requires IsSnapshot(t, rows)
    ensures ExpiredPaths(rows, kind, now) == ExpiredPathsOf(t, kind, now)
  {
    forall p: string
      ensures p in ExpiredPaths(rows, kind, now) <==> p in ExpiredPathsOf(t, kind, now)
    {
      ExpiredPathsMembers(rows, kind, now, p);
      if p in ExpiredPathsOf(t, kind, now) {
        var k :| k in t && t[k].kind == kind && Expired(t[k], now) && t[k].path == p;
        var i :| 0 <= i < |rows| && rows[i].id == k;
      }
    }
  }

  /**
    On a consistent state, a sweep at time `now` completes: it deletes
    exactly the rows with `now - uploadedAt > 432000000` and their stored
    objects, and nothing else.
   */
  lemma SweepOnConsistent(st: State, rows: seq<Row>, now: int)
    requires Consistent(st) && IsSnapshot(st.table, rows)
    ensures Sweep(st, rows, now) == Ok(State(
      map k | k in st.table && !Expired(st.table[k], now) :: st.table[k],
      Storage(st.storage.files - ExpiredPathsOf(st.table, File, now), st.storage.dirs - ExpiredPathsOf(st.table, Folder, now))))
  {
    forall i | 0 <= i < |rows|
      ensures !Clash(st.storage, rows[i].entry)
    {
      assert st.table[rows[i].id] == rows[i].entry;
    }
    SweepRowsWithoutClash(st, rows, now);
    SnapshotExpiredIds(st.table, rows, now);
    SnapshotExpiredPaths(st.table, rows, File, now);
    SnapshotExpiredPaths(st.table, rows, Folder, now);
  }

  /** A sweep keeps table and storage consistent. */
  lemma SweepPreservesConsistent(st: State, rows: seq<Row>, now: int)
    requires Consistent(st) && IsSnapshot(st.table, rows)
    ensures Sweep(st, rows, now).Ok? && Consistent(Sweep(st, rows, now).value)
  {
    SweepOnConsistent(st, rows, now);
  }
}
