/**
  `POST /api/files`: multer writes every uploaded file into the storage
  directory under a fresh name, then the handler inserts one `file` row per
  file, all stamped with the same time.
 */
module Upload {
  import opened Paths
  import opened Catalog
  import opened Listing

  /**
    One file as multer hands it to the handler: the client's original name,
    the byte count, and the path multer stored it at.
   */
  datatype Received = Received(originalName: string, size: nat, path: string)

  /**
    Multer's disk storage for one file: it is stored in the storage directory
    under the name the filename rule gives for the uuid `key`.
   */
  function Store(originalName: string, size: nat, key: string): (f: Received)
    requires IsUuid(key)
    ensures f.originalName == originalName && f.size == size
    ensures Flat(f.path) && KeyOf(f.path) == key
    ensures BaseName(f.path) == StorageName(key, originalName)
    ensures Ext(BaseName(f.path)) == Ext(originalName)
  {
    var f := Received(originalName, size, FilePath(key, originalName));
    FilePathFlat(key, originalName);
    KeyOfFilePath(key, originalName);
    StoredNameKeepsExt(key, originalName);
    BaseNameOfFilePath(key, originalName);
    f
  }

  /** The row the handler inserts for one received file. */
  function FileRow(f: Received, parent: string, now: int): Entry
  {
    Entry(f.originalName, f.path, File, f.size, parent, now)
  }

  /** Multer's disk storage: each file is written at its stored path. */
  function Receive(s: Storage, files: seq<Received>): (r: Storage)
    ensures r.dirs == s.dirs
    ensures s.files <= r.files
    ensures forall i :: 0 <= i < |files| ==> files[i].path in r.files
    ensures forall p :: p in r.files ==> p in s.files || exists i :: 0 <= i < |files| && p == files[i].path
  {
    Storage(s.files + set i | 0 <= i < |files| :: files[i].path, s.dirs)
  }

  /**
    The handler's `forEach`: one insert per file, in order, the i-th under
    the row id `ids[i]`. An insert whose id is taken is taken to have no effect.
   */
  function Record(t: Table, files: seq<Received>, ids: seq<Id>, parent: string, now: int): (r: Table)
    requires |ids| == |files|
    ensures forall id :: id in t ==> id in r && r[id] == t[id]
    ensures forall id :: id in r ==> id in t || id in ids
    decreases |files|
  {
    if files == [] then t
    else Record(Insert(t, ids[0], FileRow(files[0], parent, now)), files[1..], ids[1..], parent, now)
  }

  /** The whole request: store the files, then record them under `parent || '/'` at time `now`. */
  function UploadBatch(st: State, parentField: Option<string>, files: seq<Received>, ids: seq<Id>, now: int): (r: State)
    requires |ids| == |files|
    ensures r.storage.dirs == st.storage.dirs
    ensures st.storage.files <= r.storage.files
    ensures forall i :: 0 <= i < |files| ==> files[i].path in r.storage.files
    ensures forall id :: id in st.table ==> id in r.table && r.table[id] == st.table[id]
  {
    State(Record(st.table, files, ids, ParentOrRoot(parentField), now), Receive(st.storage, files))
  }

  predicate DistinctIds(ids: seq<Id>)
  {
    forall i, j :: 0 <= i < j < |ids| ==> ids[i] != ids[j]
  }

  /** The row ids drawn for a batch are new to the table and to each other. */
  predicate FreshIds(t: Table, ids: seq<Id>)
  {
    DistinctIds(ids) && forall i :: 0 <= i < |ids| ==> ids[i] !in t
  }

  /** The paths a batch is stored at lie directly in the storage directory, are distinct, and name nothing on disk yet. */
  predicate FreshPaths(s: Storage, files: seq<Received>)
  {
    && (forall i :: 0 <= i < |files| ==> Flat(files[i].path) && !Present(s, files[i].path))
    && (forall i, j :: 0 <= i < j < |files| ==> files[i].path != files[j].path)
  }

  /**
    Files stored under distinct uuids land at distinct paths, even when they
    were uploaded under the same original name: the original name survives
    only in the row.
   */
  lemma {:induction false} DistinctUuidsGiveFreshPaths(s: Storage, files: seq<Received>, keys: seq<string>)
    requires |keys| == |files|
    requires forall i :: 0 <= i < |files| ==> IsUuid(keys[i]) && files[i] == Store(files[i].originalName, files[i].size, keys[i])
    requires forall i, j :: 0 <= i < j < |keys| ==> keys[i] != keys[j]
    requires forall i :: 0 <= i < |files| ==> !Present(s, files[i].path)
    ensures FreshPaths(s, files)
  {
    forall i, j | 0 <= i < j < |files|
      ensures files[i].path != files[j].path
    {
      assert KeyOf(files[i].path) == keys[i];
      assert KeyOf(files[j].path) == keys[j];
    }
  }

  /** Every row Record adds stems from one of the received files. */
  lemma {:induction false} RecordNewRows(t: Table, files: seq<Received>, ids: seq<Id>, parent: string, now: int)
    requires |ids| == |files|
    ensures var r := Record(t, files, ids, parent, now);
      forall id :: id in r && id !in t ==>
        exists i :: 0 <= i < |files| && ids[i] == id && r[id] == FileRow(files[i], parent, now)
    decreases |files|
  {
    if files != [] {
      var t' := Insert(t, ids[0], FileRow(files[0], parent, now));
      var r := Record(t, files, ids, parent, now);
      RecordNewRows(t', files[1..], ids[1..], parent, now);
      forall id | id in r && id !in t
        ensures exists i :: 0 <= i < |files| && ids[i] == id && r[id] == FileRow(files[i], parent, now)
      {
        if id in t' {
          assert id == ids[0] && r[id] == t'[id];
          assert ids[0] == id && r[id] == FileRow(files[0], parent, now);
        } else {
          var k :| 0 <= k < |files[1..]| && ids[1..][k] == id && r[id] == FileRow(files[1..][k], parent, now);
          assert ids[k + 1] == id && files[k + 1] == files[1..][k];
          assert 0 <= k + 1 < |files| && ids[k + 1] == id && r[id] == FileRow(files[k + 1], parent, now);
        }
      }
    }
  }

  /** Fresh ids stay fresh once the first of them is inserted. */
  lemma FreshIdsTail(t: Table, ids: seq<Id>, e: Entry)
    requires |ids| > 0 && FreshIds(t, ids)
    ensures FreshIds(Insert(t, ids[0], e), ids[1..])
  {
    var t' := Insert(t, ids[0], e);
    forall i | 0 <= i < |ids[1..]|
      ensures ids[1..][i] !in t'
    {
      assert ids[1..][i] == ids[i + 1] && ids[i + 1] != ids[0];
    }
  }

  /**
    With fresh row ids, Record adds exactly one row per file: its key set
    grows by exactly the batch's ids.
   */
  lemma {:induction false} RecordFreshKeys(t: Table, files: seq<Received>, ids: seq<Id>, parent: string, now: int)
    requires |ids| == |files| && FreshIds(t, ids)
    ensures forall id :: id in Record(t, files, ids, parent, now) <==> id in t || id in ids
    ensures |Record(t, files, ids, parent, now)| == |t| + |files|
    decreases |files|
  {
    if files != [] {
      var t' := Insert(t, ids[0], FileRow(files[0], parent, now));
      FreshIdsTail(t, ids, FileRow(files[0], parent, now));
      RecordFreshKeys(t', files[1..], ids[1..], parent, now);
      var r := Record(t, files, ids, parent, now);
      assert r == Record(t', files[1..], ids[1..], parent, now);
      forall id
        ensures id in r <==> id in t || id in ids
      {
        assert id in ids <==> id == ids[0] || id in ids[1..];
      }
    }
  }

  /**
    With fresh row ids, the i-th file's row sits under `ids[i]` and carries
    its name, stored path, size, the parent and the batch time.
   */
  lemma {:induction false} RecordFreshRow(t: Table, files: seq<Received>, ids: seq<Id>, parent: string, now: int, i: nat)
    requires |ids| == |files| && i < |files|
    requires ids[i] !in t && forall j :: 0 <= j < i ==> ids[j] != ids[i]
    ensures var r := Record(t, files, ids, parent, now);
      ids[i] in r && r[ids[i]] == FileRow(files[i], parent, now)
    decreases i
  {
    var e0 := FileRow(files[0], parent, now);
    var t' := Insert(t, ids[0], e0);
    var r := Record(t', files[1..], ids[1..], parent, now);
    assert Record(t, files, ids, parent, now) == r;
    if i > 0 {
      var ids', files' := ids[1..], files[1..];
      assert ids'[i - 1] == ids[i] && files'[i - 1] == files[i];
      forall j | 0 <= j < i - 1
        ensures ids'[j] != ids'[i - 1]
      {
        assert ids'[j] == ids[j + 1];
      }
      RecordFreshRow(t', files', ids', parent, now, i - 1);
    }
  }

  /** RecordFreshRow for every file of the batch at once. */
  lemma RecordFreshRows(t: Table, files: seq<Received>, ids: seq<Id>, parent: string, now: int)
    requires |ids| == |files| && FreshIds(t, ids)
    ensures var r := Record(t, files, ids, parent, now);
      forall i :: 0 <= i < |files| ==> ids[i] in r && r[ids[i]] == FileRow(files[i], parent, now)
  {
    forall i | 0 <= i < |files|
      ensures var r := Record(t, files, ids, parent, now);
        ids[i] in r && r[ids[i]] == FileRow(files[i], parent, now)
    {
      RecordFreshRow(t, files, ids, parent, now, i);
    }
  }

  /**
    Uploading N files with fresh row ids adds exactly N rows, one per file,
    each a `file` row with that file's original name, stored path and size,
    under `parent || '/'`, all with the same `uploadedAt`; existing rows and
    the folder directories are unchanged and every file is on disk.
   */
  lemma UploadAddsOneRowPerFile(st: State, parentField: Option<string>, files: seq<Received>, ids: seq<Id>, now: int)
    requires |ids| == |files| && FreshIds(st.table, ids)
    ensures var r := UploadBatch(st, parentField, files, ids, now);
      && (forall id :: id in r.table <==> id in st.table || id in ids)
      && |r.table| == |st.table| + |files|
      && (forall id :: id in st.table ==> r.table[id] == st.table[id])
      && (forall i :: 0 <= i < |files| ==>
            && r.table[ids[i]].kind == File
            && r.table[ids[i]].name == files[i].originalName
            && r.table[ids[i]].path == files[i].path
            && r.table[ids[i]].path in r.storage.files
            && r.table[ids[i]].size == files[i].size
            && r.table[ids[i]].parentFolder == ParentOrRoot(parentField)
            && r.table[ids[i]].uploadedAt == now)
  {
    RecordFreshKeys(st.table, files, ids, ParentOrRoot(parentField), now);
    RecordFreshRows(st.table, files, ids, ParentOrRoot(parentField), now);
  }

  /** With fresh row ids, a row of the new table is an old row or one of the batch's rows. */
  lemma RecordFreshRowOrigin(t: Table, files: seq<Received>, ids: seq<Id>, parent: string, now: int, id: Id)
    requires |ids| == |files| && FreshIds(t, ids)
    ensures var r := Record(t, files, ids, parent, now);
      && (id in r <==> id in t || id in ids)
      && (id in t ==> r[id] == t[id])
      && (id !in t && id in ids ==> r[id].parentFolder == parent)
  {
    RecordFreshKeys(t, files, ids, parent, now);
    if id !in t && id in ids {
      RecordFreshRows(t, files, ids, parent, now);
      var i :| 0 <= i < |ids| && ids[i] == id;
    }
  }

  /**
    The listing of the upload's parent gains exactly the new rows; every
    other parent's listing is unchanged.
   */
  lemma UploadListing(st: State, parentField: Option<string>, files: seq<Received>, ids: seq<Id>, now: int, query: Option<string>)
    requires |ids| == |files| && FreshIds(st.table, ids)
    ensures var r := UploadBatch(st, parentField, files, ids, now);
      && (ParentOrRoot(query) == ParentOrRoot(parentField) ==>
            forall id :: id in List(r.table, query) <==> id in List(st.table, query) || id in ids)
      && (ParentOrRoot(query) != ParentOrRoot(parentField) ==> List(r.table, query) == List(st.table, query))
  {
    var parent := ParentOrRoot(parentField);
    var t := Record(st.table, files, ids, parent, now);
    assert UploadBatch(st, parentField, files, ids, now).table == t;
    var before := List(st.table, query);
    var after := List(t, query);
    forall id
      ensures id in after <==> id in before || (ParentOrRoot(query) == parent && id in ids)
      ensures id in before ==> after[id] == before[id]
    {
      RecordFreshRowOrigin(st.table, files, ids, parent, now, id);
    }
    if ParentOrRoot(query) != parent {
      assert after.Keys == before.Keys;
    }
  }

  /** An upload to fresh paths leaves only regular files, directly inside the storage directory, added. */
  lemma UploadKeepsStorageFlat(s: Storage, files: seq<Received>)
    requires s.files !! s.dirs && FlatStorage(s) && FreshPaths(s, files)
    ensures var r := Receive(s, files); r.files !! r.dirs && FlatStorage(r)
  {
    var r := Receive(s, files);
    forall p | p in r.files
      ensures Flat(p) && p !in r.dirs
    {
      if p !in s.files {
        var i :| 0 <= i < |files| && p == files[i].path;
      }
    }
  }

  /** After an upload, every row's object is on disk: the old rows' as before, the new rows' files as received. */
  lemma UploadKeepsRowsBacked(st: State, parentField: Option<string>, files: seq<Received>, ids: seq<Id>, now: int)
    requires Backed(st) && |ids| == |files|
    ensures Backed(UploadBatch(st, parentField, files, ids, now))
  {
    var parent := ParentOrRoot(parentField);
    var r := UploadBatch(st, parentField, files, ids, now);
    var t := Record(st.table, files, ids, parent, now);
    assert r.table == t;
    RecordNewRows(st.table, files, ids, parent, now);
    forall id | id in t
      ensures t[id].kind == File ==> t[id].path in r.storage.files
      ensures t[id].kind == Folder ==> t[id].path in r.storage.dirs
    {
      if id !in st.table {
        var i :| 0 <= i < |files| && ids[i] == id && t[id] == FileRow(files[i], parent, now);
      }
    }
  }

  /** The file a row added by Record stems from, and the path that row records. */
  lemma NewRowSource(t: Table, files: seq<Received>, ids: seq<Id>, parent: string, now: int, id: Id) returns (i: nat)
    requires |ids| == |files|
    requires var r := Record(t, files, ids, parent, now); id in r && id !in t
    ensures i < |files| && ids[i] == id
    ensures Record(t, files, ids, parent, now)[id].path == files[i].path
  {
    RecordNewRows(t, files, ids, parent, now);
    var r := Record(t, files, ids, parent, now);
    i :| 0 <= i < |files| && ids[i] == id && r[id] == FileRow(files[i], parent, now);
  }

  /** An upload to fresh, distinct paths gives every row a path no other row uses. */
  lemma UploadKeepsPathsDistinct(st: State, parentField: Option<string>, files: seq<Received>, ids: seq<Id>, now: int)
    requires Backed(st) && DistinctPaths(st.table) && |ids| == |files| && FreshPaths(st.storage, files)
    ensures DistinctPaths(UploadBatch(st, parentField, files, ids, now).table)
  {
    var parent := ParentOrRoot(parentField);
    var t := Record(st.table, files, ids, parent, now);
    assert UploadBatch(st, parentField, files, ids, now).table == t;
    forall a, b | a in t && b in t && a != b
      ensures t[a].path != t[b].path
    {
      if a !in st.table && b !in st.table {
        var i := NewRowSource(st.table, files, ids, parent, now, a);
        var j := NewRowSource(st.table, files, ids, parent, now, b);
        assert i != j;
      } else if a !in st.table {
        var i := NewRowSource(st.table, files, ids, parent, now, a);
        assert Present(st.storage, t[b].path);
      } else if b !in st.table {
        var j := NewRowSource(st.table, files, ids, parent, now, b);
        assert Present(st.storage, t[a].path);
      }
    }
  }

  /** An upload to fresh paths keeps table and storage consistent. */
  lemma UploadPreservesConsistent(st: State, parentField: Option<string>, files: seq<Received>, ids: seq<Id>, now: int)
    requires Consistent(st) && |ids| == |files| && FreshPaths(st.storage, files)
    ensures Consistent(UploadBatch(st, parentField, files, ids, now))
  {
    UploadKeepsStorageFlat(st.storage, files);
    UploadKeepsRowsBacked(st, parentField, files, ids, now);
    UploadKeepsPathsDistinct(st, parentField, files, ids, now);
  }
}
