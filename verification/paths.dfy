/**
  Storage paths of the file server: the storage directory, the uuid shape of
  generated identifiers, the extension rule of `path.extname`, and the names
  under which uploaded files and folder directories are stored.

  Every object the server creates lives directly inside the storage
  directory (the layout is flat): uploaded files at `storage/<uuid><ext>`
  and folder directories at `storage/<uuid>`.
 */
module Paths {

  /** Stands for `path.join(__dirname, 'storage')`, the one storage directory. */
  const StorageDir: string := "storage"

  /** Length of the textual form of a version-4 uuid. */
  const UuidLength: nat := 36

  /** `path.join(dir, leaf)` for a leaf without separators. */
  function Join(dir: string, leaf: string): string
  {
    dir + "/" + leaf
  }

  predicate IsUuidChar(c: char)
  {
    ('0' <= c <= '9') || ('a' <= c <= 'f') || c == '-'
  }

  /** The shape of every identifier `uuidv4()` returns. */
  predicate IsUuid(u: string)
  {
    |u| == UuidLength && forall i :: 0 <= i < |u| ==> IsUuidChar(u[i])
  }

  /** Index of the last occurrence of `c` in `s`, or -1 when there is none. */
  function LastIndexOf(s: string, c: char): (r: int)
    ensures -1 <= r < |s|
    ensures 0 <= r ==> s[r] == c
    ensures forall j :: r < j < |s| ==> s[j] != c
    decreases |s|
  {
    if |s| == 0 then -1
    else if s[|s| - 1] == c then |s| - 1
    else LastIndexOf(s[..|s| - 1], c)
  }

  /** The last path component of `p`. */
  function BaseName(p: string): (b: string)
    ensures '/' !in b
    ensures |b| <= |p| && b == p[|p| - |b|..]
  {
    p[LastIndexOf(p, '/') + 1..]
  }

  /**
    `path.extname`: the base name's suffix from its last '.', or the empty
    string when the base name has no '.' or its only '.' is its first
    character (a dot-file such as ".env").
   */
  function Ext(name: string): (e: string)
    ensures IsExt(e)
    ensures |e| <= |name| && e == name[|name| - |e|..]
  {
    var base := BaseName(name);
    var i := LastIndexOf(base, '.');
    if i <= 0 then "" else
      LastDotSuffix(base, i);
      SuffixOfSuffix(name, base, i);
      base[i..]
  }

  /** The suffix of a separator-free name from its last '.' has the shape of an extension. */
  lemma LastDotSuffix(base: string, i: int)
    requires '/' !in base && 0 <= i < |base| && base[i] == '.'
    requires forall j :: i < j < |base| ==> base[j] != '.'
    ensures IsExt(base[i..])
  {
    var e := base[i..];
    forall j | 0 <= j < |e[1..]|
      ensures e[1..][j] != '.'
    {
      assert e[1..][j] == base[i + 1 + j];
    }
    assert '/' !in e by {
      forall j | 0 <= j < |e|
        ensures e[j] != '/'
      {
        assert e[j] == base[i + j];
      }
    }
  }

  /** A suffix of a suffix of `name` is a suffix of `name`. */
  lemma SuffixOfSuffix(name: string, base: string, i: int)
    requires |base| <= |name| && base == name[|name| - |base|..] && 0 <= i <= |base|
    ensures base[i..] == name[|name| - |base[i..]|..]
  {
  }

  /** The shape of an extension: empty, or a '.' followed by neither separators nor further dots. */
  predicate IsExt(e: string)
  {
    e == "" || (e[0] == '.' && '/' !in e && '.' !in e[1..])
  }

  /** The multer filename rule: a fresh uuid followed by the original name's extension. */
  function StorageName(key: string, originalName: string): string
  {
    key + Ext(originalName)
  }

  /** Where multer's disk storage writes an uploaded file (`file.path`). */
  function FilePath(key: string, originalName: string): string
  {
    Join(StorageDir, StorageName(key, originalName))
  }

  /** The directory created for a folder whose id is `id`. */
  function FolderPath(id: string): string
  {
    Join(StorageDir, id)
  }

  /** Recovers the uuid from a path directly inside the storage directory. */
  function KeyOf(p: string): string
  {
    var start := |StorageDir| + 1;
    if |p| < start + UuidLength then "" else p[start..start + UuidLength]
  }

  /** `p` names an entry directly inside the storage directory. */
  predicate Flat(p: string)
  {
    && |p| > |StorageDir| + 1
    && p[..|StorageDir| + 1] == StorageDir + "/"
    && forall i :: |StorageDir| + 1 <= i < |p| ==> p[i] != '/'
  }

  /** `p` lies strictly inside the directory `d`. */
  predicate IsUnder(p: string, d: string)
  {
    |p| >= |d| + 1 && p[..|d| + 1] == d + "/"
  }

  /** A uuid followed by an extension has no separator, and no '.' before the extension. */
  lemma KeyExtShape(key: string, e: string)
    requires IsUuid(key) && IsExt(e)
    ensures forall j :: 0 <= j < |key + e| ==> (key + e)[j] != '/'
    ensures forall j :: 0 <= j < |key| ==> (key + e)[j] != '.'
    ensures forall j :: |key| < j < |key + e| ==> (key + e)[j] != '.'
  {
    var s := key + e;
    forall j | 0 <= j < |s|
      ensures s[j] != '/'
      ensures j != |key| ==> s[j] != '.'
    {
      if j < |key| {
        assert IsUuidChar(key[j]);
      } else if j > |key| {
        assert s[j] == e[1..][j - |key| - 1];
      } else {
        assert s[j] == e[0];
      }
    }
  }

  /** The last occurrence of `c` is at `k` when `s[k]` is `c` and no later character is. */
  lemma LastIndexOfAt(s: string, c: char, k: int)
    requires -1 <= k < |s|
    requires 0 <= k ==> s[k] == c
    requires forall j :: k < j < |s| ==> s[j] != c
    ensures LastIndexOf(s, c) == k
  {
  }

  /** The extension of a uuid followed by an extension is that extension. */
  lemma ExtOfKeyExt(key: string, e: string)
    requires IsUuid(key) && IsExt(e)
    ensures Ext(key + e) == e
  {
    var s := key + e;
    KeyExtShape(key, e);
    LastIndexOfAt(s, '/', -1);
    var b := BaseName(s);
    assert b == s[0..] == s;
    if e == "" {
      LastIndexOfAt(b, '.', -1);
      assert LastIndexOf(b, '.') == -1;
      assert Ext(s) == "";
    } else {
      LastIndexOfAt(b, '.', |key|);
      var i := LastIndexOf(b, '.');
      assert i == |key|;
      assert b[i..] == e;
      assert Ext(s) == b[i..];
    }
  }

  /** A stored file keeps the extension of the name it was uploaded under. */
  lemma StoredNameKeepsExt(key: string, originalName: string)
    requires IsUuid(key)
    ensures Ext(StorageName(key, originalName)) == Ext(originalName)
  {
    ExtOfKeyExt(key, Ext(originalName));
  }

  /** The base name of a path directly inside the storage directory is its last component. */
  lemma BaseNameOfJoin(leaf: string)
    requires forall j :: 0 <= j < |leaf| ==> leaf[j] != '/'
    ensures BaseName(Join(StorageDir, leaf)) == leaf
  {
    var p := Join(StorageDir, leaf);
    assert p == StorageDir + "/" + leaf;
    forall j | |StorageDir| < j < |p|
      ensures p[j] != '/'
    {
      assert p[j] == leaf[j - |StorageDir| - 1];
    }
    LastIndexOfAt(p, '/', |StorageDir|);
    assert p[|StorageDir| + 1..] == leaf;
  }

  /** The base name of a stored file's path is its stored name. */
  lemma BaseNameOfFilePath(key: string, originalName: string)
    requires IsUuid(key)
    ensures BaseName(FilePath(key, originalName)) == StorageName(key, originalName)
  {
    KeyExtShape(key, Ext(originalName));
    BaseNameOfJoin(StorageName(key, originalName));
  }

  /** The uuid is recoverable from a path that starts with it directly inside the storage directory. */
  lemma KeyOfJoin(key: string, rest: string)
    requires |key| == UuidLength
    ensures KeyOf(Join(StorageDir, key + rest)) == key
  {
    var p := Join(StorageDir, key + rest);
    assert p == StorageDir + "/" + key + rest;
    assert p[|StorageDir| + 1..|StorageDir| + 1 + UuidLength] == key;
  }

  /** The uuid is recoverable from the stored file's path, whatever the original name. */
  lemma KeyOfFilePath(key: string, originalName: string)
    requires IsUuid(key)
    ensures KeyOf(FilePath(key, originalName)) == key
  {
    KeyOfJoin(key, Ext(originalName));
  }

  /** The uuid is recoverable from a folder's directory path. */
  lemma KeyOfFolderPath(id: string)
    requires IsUuid(id)
    ensures KeyOf(FolderPath(id)) == id
  {
    KeyOfJoin(id, "");
    assert id + "" == id;
  }

  /** Two uploads with distinct uuids land at distinct paths, even under the same original name. */
  lemma DistinctKeysDistinctPaths(k1: string, n1: string, k2: string, n2: string)
    requires IsUuid(k1) && IsUuid(k2) && k1 != k2
    ensures FilePath(k1, n1) != FilePath(k2, n2)
  {
    KeyOfFilePath(k1, n1);
    KeyOfFilePath(k2, n2);
  }

  /** A stored file never coincides with the directory of a folder of another uuid. */
  lemma FilePathNotFolderPath(k: string, n: string, id: string)
    requires IsUuid(k) && IsUuid(id) && k != id
    ensures FilePath(k, n) != FolderPath(id)
  {
    KeyOfFilePath(k, n);
    KeyOfFolderPath(id);
  }

  /** A leaf without separators joined to the storage directory lies directly inside it. */
  lemma JoinFlat(leaf: string)
    requires leaf != "" && forall j :: 0 <= j < |leaf| ==> leaf[j] != '/'
    ensures Flat(Join(StorageDir, leaf))
  {
    var p := Join(StorageDir, leaf);
    assert p == StorageDir + "/" + leaf;
    forall i | |StorageDir| + 1 <= i < |p|
      ensures p[i] != '/'
    {
      assert p[i] == leaf[i - |StorageDir| - 1];
    }
  }

  /** Uploaded files are stored directly inside the storage directory. */
  lemma FilePathFlat(key: string, originalName: string)
    requires IsUuid(key)
    ensures Flat(FilePath(key, originalName))
  {
    KeyExtShape(key, Ext(originalName));
    JoinFlat(StorageName(key, originalName));
  }

  /** Folder directories are created directly inside the storage directory. */
  lemma FolderPathFlat(id: string)
    requires IsUuid(id)
    ensures Flat(FolderPath(id))
  {
    forall j | 0 <= j < |id|
      ensures id[j] != '/'
    {
      assert IsUuidChar(id[j]);
    }
    JoinFlat(id);
  }

  /** Nothing inside a directory of the storage directory is itself directly inside it. */
  lemma UnderFlatIsNotFlat(p: string, d: string)
    requires Flat(d) && IsUnder(p, d)
    ensures !Flat(p)
  {
    assert p[|d|] == (d + "/")[|d|] == '/';
  }
}
