# File server: catalog and storage model

A Dafny model of the back end of a small file-sharing server. The server is
an Express application. It keeps a catalog of entries in one SQLite table,
`files`, and the bytes of uploaded files in one storage directory on disk.
It offers these operations:

- list the entries under a parent folder;
- upload a batch of files;
- create a folder;
- download a file;
- delete a file or folder;
- run an hourly retention sweep that deletes every entry older than five days.

The model has one state with two parts:

- the catalog table, a map from row id to `Entry`, with the columns name,
  path, kind, size, parent folder and upload time;
- the storage directory, which is the set of regular-file paths and the set
  of directory paths that exist under it.

Every handler is a pure function of the state. The listing returns the
selected rows and the upload returns the new state. Folder creation,
download, delete and the sweep return an `Outcome`, which is one of:

- `Ok(result)`;
- `NotFound` (the 404);
- `Rejected` (the 400);
- `Thrown(error)`, which stands for the Node error that a synchronous `fs`
  call throws (`ENOENT`, `EEXIST`, `EISDIR`, `ENOTDIR`). In that case no
  state change happens.

The environment supplies a few inputs as parameters: generated uuids,
`Date.now()`, and the rows the sweep reads. The module `Server` assembles
every request and the sweep into one state machine. The central property is
`Catalog.Consistent`, which holds when:

- files and directories are disjoint;
- every object lies directly inside the storage directory;
- every row is backed by an object of its own kind;
- no two rows share a path.

Every admissible request keeps `Consistent`, so every reachable state
satisfies it.

Modules, one per part of `backend/server.js`:

- `Paths`: the storage directory, the uuid shape, `path.extname`, and multer's
  filename rule `uuid + extname(originalname)`. It also covers the flat layout.
- `Catalog`: the table, the storage, the `parent || '/'` default, and the
  `INSERT` keyed by the primary key. It also covers recursive `rmdirSync`
  and the consistency invariant.
- `Listing`: `GET /api/files`.
- `Upload`: multer's disk storage and `POST /api/files`.
- `Folders`: `POST /api/folders`.
- `Retrieval`: `GET /api/files/:id` and `DELETE /api/files/:id`.
- `Retention`: the `setInterval` sweep.
- `Server`: requests, runs, and the properties that involve several handlers.

Behaviours of `backend/server.js` the model keeps as they are:

- The user delete is not self-healing. For a file row whose stored file is
  gone, `unlinkSync` (server.js:88) throws before the `DELETE`, so the row
  stays (`Retrieval.DeleteOfMissingFileThrows`).
- Deleting a folder does not cascade. Child rows stay, pointing at the
  removed folder (`Retrieval.DeleteFolderDoesNotCascade`).
- An upload is not reported per file. The handler answers `{ success: true }`
  for the whole batch.
- A folder's directory is made before its row is inserted, with no rollback.
  Only the sweep checks `existsSync`. The user delete does not.

## Model

| member | source | states |
|---|---|---|
| Paths.Ext | backend/server.js:36 | `path.extname` is empty or a '.' followed by neither separators nor dots, and it is a suffix of the name |
| Paths.StoredNameKeepsExt | backend/server.js:36 | the stored name `uuid + extname(originalname)` (`Paths.StorageName`) has the same extension as the original name |
| Paths.BaseNameOfFilePath | backend/server.js:34-37 | the last component of the path multer writes to (`Paths.FilePath`, the storage directory joined with the stored name) is exactly the stored name, so the storage directory is its parent |
| Paths.KeyOfFilePath | backend/server.js:35-37 | the uuid can be read back from the stored path, whatever the original name |
| Paths.KeyOfFolderPath | backend/server.js:65-66 | the folder id can be read back from the folder's directory path (`Paths.FolderPath`, the storage directory joined with the id) |
| Paths.DistinctKeysDistinctPaths | backend/server.js:35-37 | two uploads with different uuids never share a stored path, even under the same original name |
| Paths.FilePathNotFolderPath | backend/server.js:36 | a stored file never lands on the directory of a folder with a different uuid |
| Paths.FilePathFlat | backend/server.js:33-37 | every uploaded file is stored directly inside the storage directory |
| Paths.FolderPathFlat | backend/server.js:65-66 | every folder directory is created directly inside the storage directory |
| Paths.UnderFlatIsNotFlat | backend/server.js:89 | nothing strictly inside a folder's directory lies directly in the storage directory |
| Catalog.ParentOrRoot | backend/server.js:53 | `x \|\| '/'`: an absent or empty parent becomes the root "/", any other parent is kept, and the result is never empty |
| Catalog.Insert | backend/server.js:56-57 | an insert under a new primary key adds exactly that row and keeps all others; under a taken key the table is taken to be unchanged |
| Catalog.InsertNewKey | backend/server.js:56-57 | an insert under a new key grows the key set by exactly that key and the table by exactly one row |
| Catalog.RemoveTree | backend/server.js:89 | recursive `rmdirSync` removes the directory and everything strictly inside it, and nothing else |
| Catalog.RemoveTreeOfFlat | backend/server.js:89 | in a flat storage directory, recursive removal of a folder removes only that directory |
| Catalog.Initial | backend/server.js:18-31 | the freshly created table and storage directory are empty and consistent |
| Listing.List | backend/server.js:43-48 | the listing holds exactly the rows whose parent folder equals `parent \|\| '/'`, with their contents unchanged |
| Listing.ListDefaultsToRoot | backend/server.js:44 | a listing without a parent, or with an empty one, is the listing of "/" |
| Listing.ListPartitions | backend/server.js:45 | every row appears in the listing of its own parent folder and in no other listing |
| Listing.ListsDisjoint | backend/server.js:45 | listings of two different parents share no row |
| Upload.Store | backend/server.js:33-37 | multer stores a file under a uuid at a path directly in the storage directory; the stored name is exactly the uuid followed by the original name's extension, so the uuid is recoverable from the path and the extension is kept |
| Upload.Receive | backend/server.js:33-40 | multer adds exactly the received files to the storage directory, keeps every file already there, and creates no directory |
| Upload.Record | backend/server.js:55-58 | the `forEach` of inserts keeps every old row, and every row it adds is under one of the batch's ids |
| Upload.UploadBatch | backend/server.js:52-59 | an upload leaves directories alone, only adds files, stores every received file, and keeps every old row |
| Upload.DistinctUuidsGiveFreshPaths | backend/server.js:35-37 | files stored under distinct fresh uuids go to distinct paths that name nothing on disk yet |
| Upload.RecordNewRows | backend/server.js:55-57 | every row added by an upload is the `file` row of one received file (`Upload.FileRow`: original name, multer's path, `file`, size, parent, batch time), under that file's id |
| Upload.RecordFreshKeys | backend/server.js:55-57 | with fresh row ids, the table's keys grow by exactly the batch's ids, one row per file |
| Upload.RecordFreshRow | backend/server.js:56-57 | a file whose id is new and differs from all earlier ids in the batch gets its row: original name, stored path, `file`, size, parent, batch time |
| Upload.RecordFreshRows | backend/server.js:55-57 | with fresh row ids, each file's row sits under its id with its name, path, size, parent and time |
| Upload.UploadAddsOneRowPerFile | backend/server.js:52-58 | uploading N files under fresh ids adds exactly N `file` rows, one per file, all at the same time under `parent \|\| '/'`; each file is on disk |
| Upload.RecordFreshRowOrigin | backend/server.js:55-57 | with fresh ids, a row after the upload is an unchanged old row or a new row under the upload's parent |
| Upload.UploadListing | backend/server.js:53-57 | after an upload, the parent's listing gains exactly the new rows and every other listing is unchanged |
| Upload.UploadKeepsStorageFlat | backend/server.js:33-37 | an upload to fresh paths keeps the storage directory flat, with files and directories disjoint |
| Upload.UploadKeepsRowsBacked | backend/server.js:55-57 | after an upload every row's object is on disk, including the new rows' stored files |
| Upload.NewRowSource | backend/server.js:56-57 | a row added by an upload records the stored path of the file it stems from |
| Upload.UploadKeepsPathsDistinct | backend/server.js:35-57 | an upload to fresh, distinct paths gives no two rows the same path |
| Upload.UploadPreservesConsistent | backend/server.js:52-58 | an upload to fresh paths keeps table and storage consistent |
| Folders.CreateFolder | backend/server.js:63-71 | `mkdirSync` throws EEXIST exactly when the folder path exists, and then nothing changes; otherwise exactly that directory is added and no row is lost |
| Folders.CreateFolderAddsOneRow | backend/server.js:65-69 | with a fresh id, creating a folder (`Folders.FolderRow`) adds exactly one directory and one `folder` row of size 0 under `parent \|\| '/'` with the given name and time |
| Folders.CreateFolderPreservesConsistent | backend/server.js:65-69 | creating a folder under a uuid keeps table and storage consistent |
| Retrieval.Download | backend/server.js:74-80 | an unknown id is not found, a folder is rejected, and a file yields its stored path and original name |
| Retrieval.Delete | backend/server.js:84-92 | an unknown id is not found; the delete throws exactly when the row's object of its kind is missing, before the row is deleted (ENOENT when nothing is there); on success the row and its object are gone and nothing is added |
| Retrieval.DownloadServesStoredFile | backend/server.js:78 | on a consistent state, a downloadable file's path is a file on disk |
| Retrieval.DeleteOnConsistent | backend/server.js:86-90 | on a consistent state, deleting removes exactly the row and exactly its file or directory |
| Retrieval.DeleteOfMissingFileThrows | backend/server.js:88-90 | a file row whose file is gone is not deleted: `unlinkSync` throws ENOENT and the row can still be downloaded |
| Retrieval.DeleteFolderDoesNotCascade | backend/server.js:89-90 | deleting a folder keeps every other row, including its children, and every file directly in the storage directory |
| Retrieval.DeleteTwice | backend/server.js:86-90 | a second delete of the same id is not found, and the id can no longer be downloaded |
| Retrieval.DeletePreservesConsistent | backend/server.js:86-90 | a successful delete keeps table and storage consistent |
| Retention.SweepRow | backend/server.js:99-106 | a row within five days is left alone; an expired row loses its object if it exists and is always deleted; only an object of the wrong kind throws |
| Retention.SweepRows | backend/server.js:98-107 | the sweep only deletes rows and objects: every expired row of the snapshot is gone and every row with no expired snapshot entry stays |
| Retention.Sweep | backend/server.js:96-109 | a completed sweep keeps exactly the rows within the window (`Retention.Expired`: `now - uploadedAt > 432000000`), unchanged, including rows exactly five days old |
| Retention.ExpiredIdsMembers | backend/server.js:99-100 | an id is in the sweep's expired set exactly when a snapshot row with that id is expired |
| Retention.ExpiredPathsMembers | backend/server.js:99-103 | a path is in the expired set of a kind exactly when an expired snapshot row of that kind has that path |
| Retention.SweepRowWithoutClash | backend/server.js:100-105 | without an object of the wrong kind, one step removes an expired row and its object if present, and leaves a recent row alone |
| Retention.SweepRowsWithoutClash | backend/server.js:99-106 | without a clash the sweep completes, removing exactly the expired rows, files and directories and skipping objects already gone |
| Retention.SnapshotExpiredIds | backend/server.js:98-100 | on a full snapshot, the rows the sweep deletes are exactly the table's expired rows |
| Retention.SnapshotExpiredPaths | backend/server.js:98-103 | on a full snapshot, the objects the sweep removes are exactly the paths of the table's expired rows |
| Retention.SweepOnConsistent | backend/server.js:97-106 | on a consistent state the sweep completes and deletes exactly the rows older than 432000000 ms and their objects |
| Retention.SweepPreservesConsistent | backend/server.js:97-106 | a sweep keeps table and storage consistent |
| Server.Step | backend/server.js:52-106 | no request is rejected; only a delete of an unknown id is not found; uploads and folder creation succeed, an upload adds exactly its row ids and a folder exactly its id |
| Server.StepPreservesConsistent | backend/server.js:52-106 | every admissible request and sweep keeps table and storage consistent |
| Server.NoRequestThrows | backend/server.js:63-106 | on a consistent state no admissible request throws, and deleting an existing id succeeds |
| Server.RunPreservesConsistent | backend/server.js:52-106 | every admissible sequence of requests keeps a consistent state consistent, where a request that is not found or throws leaves the state as it was (`Server.Next`) |
| Server.ReachableStatesAreConsistent | backend/server.js:30-106 | every state reachable from start-up is consistent, every downloadable file is on disk, and every existing id can be deleted |
| Server.UploadThenDownload | backend/server.js:52-79 | after an upload under fresh ids, each file downloads under its id as its stored path and original name, and that path is on disk |
| Server.SnapshotAfterDeleteHasNoClash | backend/server.js:84-106 | a user delete between the sweep's snapshot and its iteration leaves no row of the snapshot with an object of the wrong kind |
| Server.DeleteDuringSweep | backend/server.js:84-106 | a sweep whose snapshot predates a user delete still completes and leaves exactly the recent rows other than the deleted one |

## Left out

- HTTP, CORS, static serving of `/storage`, the JSON bodies and status codes: only the kind of outcome is kept (`Ok`, `NotFound` for 404, `Rejected` for 400).
- A duplicate-key INSERT is taken to have no effect (`Catalog.Insert`). In server.js the `db.run` calls at lines 56-57 and 68-69 have no callback, so such a failure would surface as an unhandled `'error'` event; `Server.Admissible` requires fresh row ids, as `uuidv4()` gives, so the state machine never meets the case.
- SQLite error callbacks (the 500 of the listing), other failures of `db.run`, and the asynchrony of the callbacks: each statement takes effect at once and in program order.
- The order of rows in a listing: `List` returns a map, because the query has no `ORDER BY`.
- `res.download` streaming, and its behaviour when the stored file is missing: `Download` yields the path and name it would serve.
- Recursive `rmdirSync` on a missing path is taken to throw ENOENT, as in Node 16 and later.
- What a throw does to the process: a `mkdirSync` throw in the folder route is caught by Express and answered with a 500, and the server keeps running; an `unlinkSync` or `rmdirSync` throw inside the delete route's `db.get` callback or the sweep's `db.all` callback is uncaught and ends the process. In every case the model reports `Thrown` with the state unchanged.
- SweepRows: when an fs call throws midway, the effects of the earlier iterations are not returned; the outcome is just `Thrown`.
- `setInterval` scheduling and the interleaving of the sweep with requests; `Server.DeleteDuringSweep` covers one interleaving, a user delete between the snapshot and its iteration.
- `uuidv4()` and `Date.now()`: uuids and times are parameters. A uuid is any 36-character string over `[0-9a-f-]`, a superset of the version-4 shape, and freshness is an assumption of the lemmas and of `Server.Admissible`.
- Paths.Ext: `path.extname` is simplified; names made only of dots and trailing separators are not treated specially.
- A folder request without a name inserts NULL; the model's name is always a string.
- Parent fields that are not strings (arrays or objects in the request body) are not modelled.
- Sizes and timestamps are unbounded integers; JavaScript numbers agree with them below 2^53.
- The bytes of uploaded files: the storage holds paths only, so there is no byte round trip.
- Multer failures and the clean-up of partially written files: `Upload.FreshPaths` and `Server.Admissible` assume multer's names are fresh.
- Persistence across restarts: `Catalog.Initial` is a fresh install with an empty table and an empty storage directory.
- The frontend.
