/**
  `POST /api/folders`: a folder is a directory named after a fresh uuid
  inside the storage directory plus a `folder` row of size 0 under that id.
 */
module Folders {
  import opened Paths
  import opened Catalog

  /** The row the handler inserts for a new folder. */
  function FolderRow(name: string, id: Id, parent: string, now: int): Entry
  {
    Entry(name, FolderPath(id), Folder, 0, parent, now)
  }

  /**
    `mkdirSync(storage/<id>)`, then the insert. `mkdirSync` throws when the
    path already exists, and then nothing changes; an insert under a taken
    id is taken to have no effect after the directory was made.
   */
  function CreateFolder(st: State, name: string, parentField: Option<string>, id: Id, now: int): (r: Outcome<State>)
    ensures r.Thrown? <==> Present(st.storage, FolderPath(id))
    ensures r.Thrown? ==> r.error == Eexist
    ensures !r.NotFound? && !r.Rejected?
    ensures r.Ok? ==>
      && r.value.storage.files == st.storage.files
      && r.value.storage.dirs == st.storage.dirs + {FolderPath(id)}
      && (forall k :: k in st.table ==> k in r.value.table && r.value.table[k] == st.table[k])
      && (id in st.table ==> r.value.table == st.table)
  {
    var path := FolderPath(id);
    if Present(st.storage, path) then Thrown(Eexist)
    else
      var row := FolderRow(name, id, ParentOrRoot(parentField), now);
      Ok(State(Insert(st.table, id, row), Storage(st.storage.files, st.storage.dirs + {path})))
  }

  /**
    With a fresh id, creating a folder adds exactly one directory,
    `storage/<id>`, and exactly one row under `id`: a `folder` row of size 0
    under `parent || '/'`. Nothing else changes.
   */
  lemma CreateFolderAddsOneRow(st: State, name: string, parentField: Option<string>, id: Id, now: int)
    requires id !in st.table && !Present(st.storage, FolderPath(id))
    ensures var r := CreateFolder(st, name, parentField, id, now);
      && r.Ok?
      && r.value.table.Keys == st.table.Keys + {id}
      && |r.value.table| == |st.table| + 1
      && r.value.table[id].kind == Folder
      && r.value.table[id].size == 0
      && r.value.table[id].name == name
      && r.value.table[id].path == FolderPath(id)
      && r.value.table[id].parentFolder == ParentOrRoot(parentField)
      && r.value.table[id].uploadedAt == now
      && (forall k :: k in st.table ==> r.value.table[k] == st.table[k])
      && r.value.storage == Storage(st.storage.files, st.storage.dirs + {FolderPath(id)})
  {
  }

  /** Creating a folder under a fresh uuid keeps table and storage consistent. */
  lemma CreateFolderPreservesConsistent(st: State, name: string, parentField: Option<string>, id: Id, now: int)
    requires Consistent(st) && IsUuid(id)
    ensures var r := CreateFolder(st, name, parentField, id, now);
      r.Ok? ==> Consistent(r.value)
  {
    var r := CreateFolder(st, name, parentField, id, now);
    if r.Ok? {
      FolderPathFlat(id);
      var t := r.value.table;
      forall a, b | a in t && b in t && a != b
        ensures t[a].path != t[b].path
      {
        if a !in st.table {
          assert Present(st.storage, t[b].path);
        } else if b !in st.table {
          assert Present(st.storage, t[a].path);
        }
      }
    }
  }
}
