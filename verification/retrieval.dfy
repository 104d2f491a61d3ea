/**
  `GET /api/files/:id` and `DELETE /api/files/:id`: look the row up, then
  dispatch on its kind.
 */
module Retrieval {
  import opened Paths
  import opened Catalog
  import opened Listing

  /**
    Download: an unknown id is not found, a folder is rejected, and a file
    yields its stored path together with its original name, under which the
    client receives it.
   */
  function Download(t: Table, id: Id): (r: Outcome<(string, string)>)
    ensures r == NotFound <==> id !in t
    ensures r == Rejected <==> id in t && t[id].kind == Folder
    ensures r.Ok? <==> id in t && t[id].kind == File
    ensures r.Ok? ==> r.value == (t[id].path, t[id].name)
    ensures !r.Thrown?
  {
    if id !in t then NotFound
    else
      var row := t[id];
      match row.kind
      case File => Ok((row.path, row.name))
      case Folder => Rejected
  }

  /**
    Delete: an unknown id is not found. A file row's path is unlinked and a
    folder row's directory removed recursively; only then is the row
    deleted. The fs call throws, and nothing changes, when the path is gone
    or holds the other kind of object.
   */
  function Delete(st: State, id: Id): (r: Outcome<State>)
    ensures r == NotFound <==> id !in st.table
    ensures !r.Rejected?
    ensures r.Thrown? <==> id in st.table && st.table[id].path !in (if st.table[id].kind == File then st.storage.files else st.storage.dirs)
    ensures r.Thrown? && !Present(st.storage, st.table[id].path) ==> r.error == Enoent
    ensures r.Ok? ==>
      && id in st.table
      && r.value.table == st.table - {id}
      && (st.table[id].kind == File ==> st.table[id].path !in r.value.storage.files)
      && (st.table[id].kind == Folder ==> st.table[id].path !in r.value.storage.dirs)
      && r.value.storage.files <= st.storage.files
      && r.value.storage.dirs <= st.storage.dirs
  {
    if id !in st.table then NotFound
    else
      var row := st.table[id];
      var s := st.storage;
      match row.kind
      case File =>
        if row.path in s.files then Ok(State(st.table - {id}, Storage(s.files - {row.path}, s.dirs)))
        else if row.path in s.dirs then Thrown(Eisdir)
        else Thrown(Enoent)
      case Folder =>
        if row.path in s.dirs then Ok(State(st.table - {id}, RemoveTree(s, row.path)))
        else if row.path in s.files then Thrown(Enotdir)
        else Thrown(Enoent)
  }

  /** On a consistent state, a downloadable file is on disk, and a rejected folder's directory is too. */
  lemma DownloadServesStoredFile(st: State, id: Id)
    requires Consistent(st)
    ensures var r := Download(st.table, id);
      && (r.Ok? ==> r.value.0 in st.storage.files)
      && (r == Rejected ==> st.table[id].path in st.storage.dirs)
  {
  }

  /**
    On a consistent state, deleting a file row unlinks exactly its stored
    file and deletes exactly its row; deleting a folder row removes exactly
    its directory and its row.
   */
  lemma DeleteOnConsistent(st: State, id: Id)
    requires Consistent(st) && id in st.table
    ensures var p := st.table[id].path;
      Delete(st, id) == Ok(State(st.table - {id},
        if st.table[id].kind == File then Storage(st.storage.files - {p}, st.storage.dirs)
        else Storage(st.storage.files, st.storage.dirs - {p})))
  {
    var row := st.table[id];
    if row.kind == Folder {
      RemoveTreeOfFlat(st.storage, row.path);
    }
  }

  /**
    A file row whose stored file is already gone is not deleted: unlinking
    throws and the row stays.
   */
  lemma DeleteOfMissingFileThrows(st: State, id: Id)
    requires id in st.table && st.table[id].kind == File && !Present(st.storage, st.table[id].path)
    ensures Delete(st, id) == Thrown(Enoent)
    ensures Download(st.table, id).Ok?
  {
  }

  /**
    Deleting a folder does not cascade: every other row, including those
    whose parent is the deleted folder, stays as it was, the listing of the
    folder's children is unchanged, and every file directly inside the
    storage directory is still there.
   */
  lemma DeleteFolderDoesNotCascade(st: State, id: Id)
    requires id in st.table && st.table[id].kind == Folder && Flat(st.table[id].path)
    requires Delete(st, id).Ok?
    ensures var r := Delete(st, id).value;
      && (forall k :: k in st.table && k != id ==> k in r.table && r.table[k] == st.table[k])
      && (id != "" ==> forall k :: k in st.table && st.table[k].parentFolder == id && k != id ==> k in List(r.table, Some(id)))
      && List(r.table, Some(id)) == List(st.table, Some(id)) - {id}
      && (forall p :: p in st.storage.files && Flat(p) ==> p in r.storage.files)
  {
    var r := Delete(st, id).value;
    var before := List(st.table, Some(id));
    var after := List(r.table, Some(id));
    assert after.Keys == before.Keys - {id};
    assert after == before - {id};
    forall p | p in st.storage.files && Flat(p)
      ensures p in r.storage.files
    {
      if IsUnder(p, st.table[id].path) {
        UnderFlatIsNotFlat(p, st.table[id].path);
      }
    }
  }

  /** A second delete of the same id is not found, and the id can no longer be downloaded. */
  lemma DeleteTwice(st: State, id: Id)
    requires Delete(st, id).Ok?
    ensures Delete(Delete(st, id).value, id) == NotFound
    ensures Download(Delete(st, id).value.table, id) == NotFound
  {
  }

  /** Deleting keeps table and storage consistent. */
  lemma DeletePreservesConsistent(st: State, id: Id)
    requires Consistent(st)
    ensures var r := Delete(st, id); r.Ok? ==> Consistent(r.value)
  {
    if id in st.table {
      DeleteOnConsistent(st, id);
      var p := st.table[id].path;
      var r := Delete(st, id).value;
      forall k | k in r.table
        ensures r.table[k].path != p
      {
        assert k != id;
      }
    }
  }
}
