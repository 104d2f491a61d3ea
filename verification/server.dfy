/**
  The server as one state machine: every mutating request and the sweep
  tick are transitions of the same state, and the uuids, timestamps and
  sweep snapshots they use come from the environment with the guarantees
  `Admissible` states.
 */
module Server {
  import opened Paths
  import opened Catalog
  import opened Upload
  import opened Folders
  import opened Retrieval
  import opened Retention

  /** The requests that change state, and the hourly sweep tick. */
  datatype Request =
    | UploadFiles(parentField: Option<string>, files: seq<Received>, keys: seq<string>, ids: seq<Id>, now: int)
    | MakeFolder(name: string, parentField: Option<string>, id: Id, now: int)
    | Remove(id: Id)
    | Tick(rows: seq<Row>, now: int)

  /**
    What the environment guarantees a request: uuids have the uuid shape and
    are new (multer's stored names name nothing on disk, an upload's row ids
    are distinct and no row's id, the folder's id is no row's id and names
    nothing on disk), and a sweep reads a snapshot of the whole table.
   */
  predicate Admissible(st: State, req: Request)
  {
    match req
    case UploadFiles(_, files, keys, ids, _) =>
      && |keys| == |files| == |ids|
      && FreshIds(st.table, ids)
      && (forall i :: 0 <= i < |files| ==>
            && IsUuid(keys[i])
            && files[i] == Store(files[i].originalName, files[i].size, keys[i])
            && !Present(st.storage, files[i].path))
      && (forall i, j :: 0 <= i < j < |keys| ==> keys[i] != keys[j])
    case MakeFolder(_, _, id, _) =>
      IsUuid(id) && id !in st.table && !Present(st.storage, FolderPath(id))
    case Remove(_) => true
    case Tick(rows, _) => IsSnapshot(st.table, rows)
  }

  /** The response to one admissible request. */
  function Step(st: State, req: Request): (r: Outcome<State>)
    requires Admissible(st, req)
    ensures r.NotFound? ==> req.Remove? && req.id !in st.table
    ensures !r.Rejected?
    ensures req.UploadFiles? || req.MakeFolder? ==> r.Ok? && st.table.Keys <= r.value.table.Keys
    ensures req.UploadFiles? ==> forall id :: id in r.value.table <==> id in st.table || id in req.ids
    ensures req.MakeFolder? ==> r.value.table.Keys == st.table.Keys + {req.id}
  {
    match req
    case UploadFiles(parentField, files, _, ids, now) =>
      RecordFreshKeys(st.table, files, ids, ParentOrRoot(parentField), now);
      Ok(UploadBatch(st, parentField, files, ids, now))
    case MakeFolder(name, parentField, id, now) => CreateFolder(st, name, parentField, id, now)
    case Remove(id) => Delete(st, id)
    case Tick(rows, now) => Sweep(st, rows, now)
  }

  /** The state after a request: a request that fails leaves the state as it was. */
  function Next(st: State, req: Request): State
    requires Admissible(st, req)
  {
    match Step(st, req)
    case Ok(next) => next
    case NotFound => st
    case Rejected => st
    case Thrown(_) => st
  }

  /** Every request of the run is admissible in the state it meets. */
  predicate AdmissibleRun(st: State, reqs: seq<Request>)
    decreases |reqs|
  {
    reqs == [] || (Admissible(st, reqs[0]) && AdmissibleRun(Next(st, reqs[0]), reqs[1..]))
  }

  function Run(st: State, reqs: seq<Request>): State
    requires AdmissibleRun(st, reqs)
    decreases |reqs|
  {
    if reqs == [] then st else Run(Next(st, reqs[0]), reqs[1..])
  }

  /** Every admissible request keeps table and storage consistent. */
  lemma StepPreservesConsistent(st: State, req: Request)
    requires Consistent(st) && Admissible(st, req)
    ensures Consistent(Next(st, req))
  {
    match req
    case UploadFiles(parentField, files, keys, ids, now) =>
      DistinctUuidsGiveFreshPaths(st.storage, files, keys);
      UploadPreservesConsistent(st, parentField, files, ids, now);
    case MakeFolder(name, parentField, id, now) =>
      CreateFolderPreservesConsistent(st, name, parentField, id, now);
    case Remove(id) =>
      DeletePreservesConsistent(st, id);
    case Tick(rows, now) =>
      SweepPreservesConsistent(st, rows, now);
  }

  /**
    On a consistent state no admissible request throws: deletes find their
    object, folder creation finds its directory name free, and sweeps
    complete.
   */
  lemma NoRequestThrows(st: State, req: Request)
    requires Consistent(st) && Admissible(st, req)
    ensures !Step(st, req).Thrown?
    ensures req.Remove? && req.id in st.table ==> Step(st, req).Ok?
  {
    match req
    case UploadFiles(_, _, _, _, _) =>
    case MakeFolder(_, _, _, _) =>
    case Remove(id) =>
      if id in st.table {
        DeleteOnConsistent(st, id);
      }
    case Tick(rows, now) =>
      SweepOnConsistent(st, rows, now);
  }

  /** Every state an admissible run reaches from a consistent state is consistent. */
  lemma {:induction false} RunPreservesConsistent(st: State, reqs: seq<Request>)
    requires Consistent(st) && AdmissibleRun(st, reqs)
    ensures Consistent(Run(st, reqs))
    decreases |reqs|
  {
    if reqs != [] {
      StepPreservesConsistent(st, reqs[0]);
      RunPreservesConsistent(Next(st, reqs[0]), reqs[1..]);
    }
  }

  /**
    From the initial state, every admissible run ends consistent, and in
    that state every file row can be downloaded from a file on disk and
    every existing id can be deleted.
   */
  lemma ReachableStatesAreConsistent(reqs: seq<Request>, id: Id)
    requires AdmissibleRun(Initial(), reqs)
    ensures Consistent(Run(Initial(), reqs))
    ensures var st := Run(Initial(), reqs);
      && (Download(st.table, id).Ok? ==> Download(st.table, id).value.0 in st.storage.files)
      && (id in st.table ==> Delete(st, id).Ok?)
  {
    RunPreservesConsistent(Initial(), reqs);
    var st := Run(Initial(), reqs);
    DownloadServesStoredFile(st, id);
    NoRequestThrows(st, Remove(id));
  }

  /**
    Round trip of an upload: with fresh row ids, each uploaded file can be
    downloaded under its row id, yielding the path it was stored at, which
    is on disk, and its original name.
   */
  lemma UploadThenDownload(st: State, parentField: Option<string>, files: seq<Received>, ids: seq<Id>, now: int, i: int)
    requires |ids| == |files| && FreshIds(st.table, ids) && 0 <= i < |files|
    ensures var r := UploadBatch(st, parentField, files, ids, now);
      && Download(r.table, ids[i]) == Ok((files[i].path, files[i].originalName))
      && files[i].path in r.storage.files
  {
    UploadAddsOneRowPerFile(st, parentField, files, ids, now);
  }

  /** After a delete on a consistent state, no row of an earlier snapshot clashes with the storage. */
  lemma SnapshotAfterDeleteHasNoClash(st: State, rows: seq<Row>, id: Id)
    requires Consistent(st) && IsSnapshot(st.table, rows) && id in st.table
    ensures Delete(st, id).Ok?
    ensures var mid := Delete(st, id).value;
      && mid.storage.files !! mid.storage.dirs
      && FlatStorage(mid.storage)
      && mid.table == st.table - {id}
      && forall i :: 0 <= i < |rows| ==> !Clash(mid.storage, rows[i].entry)
  {
    DeleteOnConsistent(st, id);
    var mid := Delete(st, id).value;
    forall i | 0 <= i < |rows|
      ensures !Clash(mid.storage, rows[i].entry)
    {
      assert st.table[rows[i].id] == rows[i].entry;
      if rows[i].id != id {
        assert rows[i].entry.path != st.table[id].path;
      }
    }
  }

  /**
    A user delete that lands between the sweep's snapshot and its
    iteration does not disturb the sweep: the already deleted row finds its
    object gone and is skipped, and the sweep still removes exactly the
    other expired rows.
   */
  lemma DeleteDuringSweep(st: State, rows: seq<Row>, id: Id, now: int)
    requires Consistent(st) && IsSnapshot(st.table, rows) && id in st.table
    ensures Delete(st, id).Ok?
    ensures var r := SweepRows(Delete(st, id).value, rows, now);
      && r.Ok?
      && r.value.table == (map k | k in st.table && !Expired(st.table[k], now) :: st.table[k]) - {id}
  {
    SnapshotAfterDeleteHasNoClash(st, rows, id);
    var mid := Delete(st, id).value;
    SweepRowsWithoutClash(mid, rows, now);
    SnapshotExpiredIds(st.table, rows, now);
    MapMinusTwice(st.table, {id}, ExpiredIds(rows, now));
    MapMinusTwice(st.table, ExpiredIds(rows, now), {id});
    assert {id} + ExpiredIds(rows, now) == ExpiredIds(rows, now) + {id};
  }
}
