/**
  The server's state: the `files` table (one row per file or folder, keyed
  by its id) and the storage directory (the stored files and the folder
  directories). Requests and the retention sweep are pure transitions over
  this state.
 */
module Catalog {
  import opened Paths

  datatype Option<T> = None | Some(value: T)

  type Id = string

  /** The `type` column: 'file' or 'folder'. */
  datatype Kind = File | Folder

  /** A row of the `files` table, apart from its primary key `id`. */
  datatype Entry = Entry(
    name: string,
    path: string,
    kind: Kind,
    size: nat,
    parentFolder: string,
    uploadedAt: int)

  /** The `files` table, keyed by the primary key `id`. */
  type Table = map<Id, Entry>

  /** What exists on disk: regular files and directories, by path. */
  datatype Storage = Storage(files: set<string>, dirs: set<string>)

  datatype State = State(table: Table, storage: Storage)

  /** The errors the synchronous fs calls throw. */
  datatype FsError =
    | Enoent   // the path does not exist
    | Eexist   // mkdir on a path that already exists
    | Eisdir   // unlink on a directory
    | Enotdir  // rmdir on a regular file

  /**
    How a request ends: with a value, with not-found (404), with a rejection
    (400), or with an exception thrown by an fs call.
   */
  datatype Outcome<T> = Ok(value: T) | NotFound | Rejected | Thrown(error: FsError)

  /** The parent every row without an explicit parent belongs to. */
  const Root: string := "/"

  /**
    `field || '/'`: a missing or empty parent field means the root. Every
    parent the server stores or queries is therefore non-empty.
   */
  function ParentOrRoot(field: Option<string>): (p: string)
    ensures p != ""
    ensures field.Some? && field.value != "" ==> p == field.value
    ensures field == None || field == Some("") ==> p == Root
  {
    if field.Some? && field.value != "" then field.value else Root
  }

  predicate Present(s: Storage, p: string)
  {
    p in s.files || p in s.dirs
  }

  /**
    `INSERT INTO files` with primary key `id`. A duplicate key makes the
    insert fail; the model takes such a failed insert to leave the table as
    it was. Requests that could meet one are excluded by `Server.Admissible`.
   */
  function Insert(t: Table, id: Id, e: Entry): (r: Table)
    ensures id in t ==> r == t
    ensures id !in t ==> id in r && r[id] == e
    ensures forall k :: k in t ==> k in r && r[k] == t[k]
    ensures forall k :: k in r ==> k in t || k == id
  {
    if id in t then t else t[id := e]
  }

  /** An insert under a new key adds exactly that key, so the table grows by one row. */
  lemma InsertNewKey(t: Table, id: Id, e: Entry)
    requires id !in t
    ensures Insert(t, id, e).Keys == t.Keys + {id}
    ensures |Insert(t, id, e)| == |t| + 1
  {
  }

  /** `fs.rmdirSync(d, { recursive: true })` on an existing directory `d`. */
  function RemoveTree(s: Storage, d: string): (r: Storage)
    ensures d !in r.dirs
    ensures forall p :: p in r.files <==> p in s.files && !IsUnder(p, d)
    ensures forall p :: p in r.dirs <==> p in s.dirs && p != d && !IsUnder(p, d)
  {
    Storage(
      set p | p in s.files && !IsUnder(p, d),
      set p | p in s.dirs && p != d && !IsUnder(p, d))
  }

  /** The server only ever creates objects directly inside the storage directory. */
  predicate FlatStorage(s: Storage)
  {
    (forall p :: p in s.files ==> Flat(p)) && (forall p :: p in s.dirs ==> Flat(p))
  }

  /** Every row's stored object exists, as a file for a file row and as a directory for a folder row. */
  predicate Backed(st: State)
  {
    forall id :: id in st.table ==>
      match st.table[id].kind
      case File => st.table[id].path in st.storage.files
      case Folder => st.table[id].path in st.storage.dirs
  }

  /** No two rows share a stored object. */
  predicate DistinctPaths(t: Table)
  {
    forall a, b :: a in t && b in t && a != b ==> t[a].path != t[b].path
  }

  /** The consistency between table and storage that every request and sweep keeps. */
  predicate Consistent(st: State)
  {
    && st.storage.files !! st.storage.dirs
    && FlatStorage(st.storage)
    && Backed(st)
    && DistinctPaths(st.table)
  }

  /** The state the server starts in: an empty table and an empty storage directory. */
  function Initial(): (st: State)
    ensures Consistent(st)
    ensures st.table == map[]
    ensures st.storage == Storage({}, {})
  {
    State(map[], Storage({}, {}))
  }

  /** On a flat storage directory, removing a folder's directory removes that directory and nothing else. */
  lemma RemoveTreeOfFlat(s: Storage, d: string)
    requires FlatStorage(s) && Flat(d)
    ensures RemoveTree(s, d) == Storage(s.files, s.dirs - {d})
  {
    var r := RemoveTree(s, d);
    forall p | p in s.files
      ensures p in r.files
    {
      if IsUnder(p, d) {
        UnderFlatIsNotFlat(p, d);
      }
    }
    forall p | p in s.dirs && p != d
      ensures p in r.dirs
    {
      if IsUnder(p, d) {
        UnderFlatIsNotFlat(p, d);
      }
    }
  }
}
