/** The coordinator's `/folders` routes: the caller's folders newest first, one page
    at a time; creation unique per (owner, name, parent); deletion only of an empty
    folder the caller owns. */
module Folders {
  import opened Wrappers
  import opened Seqs
  import opened Http
  import opened Schema

  const PageSize: nat := 10

  // ---------------------------------------------------------------------------
  // list_folders

  /** The caller's folders, in table order. */
  function OwnedBy(folders: seq<Folder>, ownerId: nat): (r: seq<Folder>)
    ensures forall f :: f in r <==> f in folders && f.ownerId == ownerId
    decreases |folders|
  {
    if |folders| == 0 then []
    else if folders[0].ownerId == ownerId then [folders[0]] + OwnedBy(folders[1..], ownerId)
    else OwnedBy(folders[1..], ownerId)
  }

  /** `ORDER BY created_at DESC`, as an ascending sort on the negated time. */
  function NewestFirstKey(f: Folder): int { -f.createdAt }

  /** `list_folders`: page below 1 is refused (the `ge=1` query constraint, a 422); otherwise
      the window of the caller's folders, newest first, at offset `(page - 1) * 10`. */
  function ListFolders(folders: seq<Folder>, ownerId: nat, page: int): Result<seq<Folder>, HttpError> {
    if page < 1 then Failure(PageBelowOne)
    else Success(Window(SortBy(OwnedBy(folders, ownerId), NewestFirstKey), (page - 1) * PageSize, PageSize))
  }

  /** The caller's folders newest first: a permutation of the caller's rows, ordered by
      creation time, latest first. */
  lemma NewestFirstSorted(folders: seq<Folder>, ownerId: nat)
    ensures var sorted := SortBy(OwnedBy(folders, ownerId), NewestFirstKey);
            && multiset(sorted) == multiset(OwnedBy(folders, ownerId))
            && (forall f :: f in sorted ==> f in folders && f.ownerId == ownerId)
            && (forall i, j :: 0 <= i < j < |sorted| ==> sorted[i].createdAt >= sorted[j].createdAt)
  {
    var owned := OwnedBy(folders, ownerId);
    var sorted := SortBy(owned, NewestFirstKey);
    SortByAscending(owned, NewestFirstKey);
    assert forall i, j :: 0 <= i < j < |sorted| ==> NewestFirstKey(sorted[i]) <= NewestFirstKey(sorted[j]);
    forall f | f in sorted ensures f in folders && f.ownerId == ownerId {
      assert f in multiset(owned);
    }
  }

  /** The listing is refused exactly for a page below 1. Otherwise it holds at most ten
      folders, all the caller's, newest first; entry `k` is entry `(page - 1) * 10 + k`
      of the caller's folders in that order (NewestFirstSorted). */
  lemma ListFoldersSpec(folders: seq<Folder>, ownerId: nat, page: int)
    ensures var r := ListFolders(folders, ownerId, page);
            var sorted := SortBy(OwnedBy(folders, ownerId), NewestFirstKey);
            && (r.Failure? <==> page < 1)
            && (r.Failure? ==> r.error == PageBelowOne && r.error.Status() == 422)
            && (r.Success? ==>
                  && |r.value| <= PageSize
                  && (forall f :: f in r.value ==> f in folders && f.ownerId == ownerId)
                  && (forall i, j :: 0 <= i < j < |r.value| ==> r.value[i].createdAt >= r.value[j].createdAt)
                  && (forall k :: 0 <= k < |r.value| ==> r.value[k] == sorted[(page - 1) * PageSize + k]))
  {
    if page >= 1 {
      var sorted := SortBy(OwnedBy(folders, ownerId), NewestFirstKey);
      NewestFirstSorted(folders, ownerId);
      WindowInside(sorted, (page - 1) * PageSize, PageSize);
      WindowNewestFirst(sorted, (page - 1) * PageSize);
    }
  }

  /** A window of a newest-first sequence is newest first. */
  lemma WindowNewestFirst(sorted: seq<Folder>, skip: nat)
    requires forall i, j :: 0 <= i < j < |sorted| ==> sorted[i].createdAt >= sorted[j].createdAt
    ensures var r := Window(sorted, skip, PageSize);
            forall i, j :: 0 <= i < j < |r| ==> r[i].createdAt >= r[j].createdAt
  {
    var r := Window(sorted, skip, PageSize);
    forall i, j | 0 <= i < j < |r| ensures r[i].createdAt >= r[j].createdAt {
      assert r[i] == sorted[skip + i] && r[j] == sorted[skip + j];
    }
  }

  /** Every folder of the caller is listed on the page that holds its position. */
  lemma ListFoldersComplete(folders: seq<Folder>, ownerId: nat, i: nat)
    requires i < |OwnedBy(folders, ownerId)|
    ensures var sorted := SortBy(OwnedBy(folders, ownerId), NewestFirstKey);
            var r := ListFolders(folders, ownerId, i / PageSize + 1);
            r.Success? && sorted[i] in r.value
  {
    var sorted := SortBy(OwnedBy(folders, ownerId), NewestFirstKey);
    WindowCovers(sorted, i, PageSize);
  }

  // ---------------------------------------------------------------------------
  // create_folder

  /** The duplicate query of `create_folder`: a folder with this owner, name and parent. */
  function FindByKey(folders: seq<Folder>, ownerId: nat, name: string, parentId: Option<nat>): (r: Option<Folder>)
    ensures r.Some? ==> r.value in folders && r.value.ownerId == ownerId && r.value.name == name &&
                        r.value.parentId == parentId
    ensures r.None? <==>
              forall f :: f in folders ==> !(f.ownerId == ownerId && f.name == name && f.parentId == parentId)
    decreases |folders|
  {
    if |folders| == 0 then None
    else if folders[0].ownerId == ownerId && folders[0].name == name && folders[0].parentId == parentId
    then Some(folders[0])
    else FindByKey(folders[1..], ownerId, name, parentId)
  }

  /** `create_folder`: 400 when the caller already has a folder of that name under that
      parent; otherwise one new folder, with the next id and the server's `now` as its
      creation time, appended to the table. */
  method CreateFolder(db: Db, ownerId: nat, name: string, parentId: Option<nat>, now: int)
    returns (r: Result<Folder, HttpError>)
    requires db.Valid()
    modifies db
    ensures (exists f :: f in old(db.folders) && f.ownerId == ownerId && f.name == name && f.parentId == parentId)
              ==> r == Failure(FolderExists) && db.folders == old(db.folders) && db.nextFolderId == old(db.nextFolderId)
    ensures (forall f :: f in old(db.folders) ==> !(f.ownerId == ownerId && f.name == name && f.parentId == parentId))
              ==> && r == Success(Folder(old(db.nextFolderId), name, ownerId, parentId, now))
                  && db.folders == old(db.folders) + [r.value]
                  && db.nextFolderId == old(db.nextFolderId) + 1
    ensures db.files == old(db.files) && db.chunks == old(db.chunks) && db.locations == old(db.locations)
    ensures db.nodes == old(db.nodes) && db.permissions == old(db.permissions)
    ensures db.nextFileId == old(db.nextFileId) && db.nextNodeId == old(db.nextNodeId)
    ensures db.Valid()
  {
    var existing := FindByKey(db.folders, ownerId, name, parentId);
    if existing.Some? {
      return Failure(FolderExists);
    }
    var folder := Folder(db.nextFolderId, name, ownerId, parentId, now);
    AppendKeepsFolderKeys(db.folders, folder);
    db.folders := db.folders + [folder];
    db.nextFolderId := db.nextFolderId + 1;
    return Success(folder);
  }

  /** Appending a folder with a fresh id and a fresh (owner, name, parent) keeps both
      uniqueness rules. */
  lemma AppendKeepsFolderKeys(folders: seq<Folder>, f: Folder)
    requires FolderIdsUnique(folders) && FolderKeysUnique(folders)
    requires forall g :: g in folders ==> g.id < f.id
    requires forall g :: g in folders ==> !(g.ownerId == f.ownerId && g.name == f.name && g.parentId == f.parentId)
    ensures FolderIdsUnique(folders + [f]) && FolderKeysUnique(folders + [f])
  {
    var s := folders + [f];
    forall i, j | 0 <= i < j < |s| ensures s[i].id != s[j].id {
      if j == |folders| {
        assert s[i] in folders;
      }
    }
    forall i, j | 0 <= i < j < |s|
      ensures !(s[i].ownerId == s[j].ownerId && s[i].name == s[j].name && s[i].parentId == s[j].parentId)
    {
      if j == |folders| {
        assert s[i] in folders;
      }
    }
  }

  // ---------------------------------------------------------------------------
  // delete_folder

  /** The folder query of `delete_folder`: this id, owned by the caller. */
  function FindOwnedFolder(folders: seq<Folder>, folderId: nat, ownerId: nat): (r: Option<Folder>)
    ensures r.Some? ==> r.value in folders && r.value.id == folderId && r.value.ownerId == ownerId
    ensures r.None? <==> forall f :: f in folders ==> !(f.id == folderId && f.ownerId == ownerId)
    decreases |folders|
  {
    if |folders| == 0 then None
    else if folders[0].id == folderId && folders[0].ownerId == ownerId then Some(folders[0])
    else FindOwnedFolder(folders[1..], folderId, ownerId)
  }

  /** Some file, of any owner, is filed in the folder. */
  predicate HasFiles(files: seq<FileRow>, folderId: nat) {
    exists i :: 0 <= i < |files| && files[i].folderId == Some(folderId)
  }

  /** Some folder, of any owner, has the folder as its parent. */
  predicate HasSubfolders(folders: seq<Folder>, folderId: nat) {
    exists i :: 0 <= i < |folders| && folders[i].parentId == Some(folderId)
  }

  /** The table without the row of id `folderId`. */
  function WithoutFolder(folders: seq<Folder>, folderId: nat): (r: seq<Folder>)
    decreases |folders|
  {
    if |folders| == 0 then []
    else if folders[0].id == folderId then WithoutFolder(folders[1..], folderId)
    else [folders[0]] + WithoutFolder(folders[1..], folderId)
  }

  /** A row in front keeps the ids unique exactly when its id is not already taken. */
  lemma FolderIdsUniqueCons(x: Folder, s: seq<Folder>)
    ensures FolderIdsUnique([x] + s) <==> FolderIdsUnique(s) && forall g :: g in s ==> g.id != x.id
  {
    var t := [x] + s;
    if FolderIdsUnique(t) {
      forall g | g in s ensures g.id != x.id {
        var k :| 0 <= k < |s| && s[k] == g;
        assert t[0] == x && t[k + 1] == g;
      }
      forall i, j | 0 <= i < j < |s| ensures s[i].id != s[j].id {
        assert t[i + 1] == s[i] && t[j + 1] == s[j];
      }
    }
    if FolderIdsUnique(s) && forall g :: g in s ==> g.id != x.id {
      forall i, j | 0 <= i < j < |t| ensures t[i].id != t[j].id {
        assert t[j] == s[j - 1];
        if i > 0 {
          assert t[i] == s[i - 1];
        } else {
          assert t[i] == x && s[j - 1] in s;
        }
      }
    }
  }

  /** The same for the (owner, name, parent) key. */
  lemma FolderKeysUniqueCons(x: Folder, s: seq<Folder>)
    ensures FolderKeysUnique([x] + s) <==>
              FolderKeysUnique(s) &&
              forall g :: g in s ==> !(g.ownerId == x.ownerId && g.name == x.name && g.parentId == x.parentId)
  {
    var t := [x] + s;
    if FolderKeysUnique(t) {
      forall g | g in s ensures !(g.ownerId == x.ownerId && g.name == x.name && g.parentId == x.parentId) {
        var k :| 0 <= k < |s| && s[k] == g;
        assert t[0] == x && t[k + 1] == g;
      }
      forall i, j | 0 <= i < j < |s|
        ensures !(s[i].ownerId == s[j].ownerId && s[i].name == s[j].name && s[i].parentId == s[j].parentId)
      {
        assert t[i + 1] == s[i] && t[j + 1] == s[j];
      }
    }
    if FolderKeysUnique(s) && forall g :: g in s ==> !(g.ownerId == x.ownerId && g.name == x.name && g.parentId == x.parentId) {
      forall i, j | 0 <= i < j < |t|
        ensures !(t[i].ownerId == t[j].ownerId && t[i].name == t[j].name && t[i].parentId == t[j].parentId)
      {
        assert t[j] == s[j - 1];
        if i > 0 {
          assert t[i] == s[i - 1];
        } else {
          assert t[i] == x && s[j - 1] in s;
        }
      }
    }
  }

  /** Removing a row keeps every other row and only those. */
  lemma {:induction false} WithoutFolderMembers(folders: seq<Folder>, folderId: nat)
    ensures forall f :: f in WithoutFolder(folders, folderId) <==> f in folders && f.id != folderId
    decreases |folders|
  {
    if |folders| > 0 {
      WithoutFolderMembers(folders[1..], folderId);
      assert folders == [folders[0]] + folders[1..];
    }
  }

  /** Removing a row keeps both uniqueness rules. */
  lemma {:induction false} WithoutFolderUnique(folders: seq<Folder>, folderId: nat)
    requires FolderIdsUnique(folders) && FolderKeysUnique(folders)
    ensures FolderIdsUnique(WithoutFolder(folders, folderId)) && FolderKeysUnique(WithoutFolder(folders, folderId))
    decreases |folders|
  {
    if |folders| > 0 {
      var rest := folders[1..];
      assert folders == [folders[0]] + rest;
      FolderIdsUniqueCons(folders[0], rest);
      FolderKeysUniqueCons(folders[0], rest);
      WithoutFolderUnique(rest, folderId);
      if folders[0].id != folderId {
        WithoutFolderMembers(rest, folderId);
        FolderIdsUniqueCons(folders[0], WithoutFolder(rest, folderId));
        FolderKeysUniqueCons(folders[0], WithoutFolder(rest, folderId));
      }
    }
  }

  /** With unique ids, removing a present id drops exactly one row, and removing an
      absent id changes nothing. */
  lemma {:induction false} WithoutFolderLength(folders: seq<Folder>, folderId: nat)
    requires FolderIdsUnique(folders)
    ensures (exists f :: f in folders && f.id == folderId) ==> |WithoutFolder(folders, folderId)| == |folders| - 1
    ensures (forall f :: f in folders ==> f.id != folderId) ==> WithoutFolder(folders, folderId) == folders
    decreases |folders|
  {
    if |folders| > 0 {
      var rest := folders[1..];
      assert folders == [folders[0]] + rest;
      FolderIdsUniqueCons(folders[0], rest);
      WithoutFolderLength(rest, folderId);
      if folders[0].id == folderId {
        assert forall f :: f in rest ==> f.id != folderId;
      } else if exists f :: f in folders && f.id == folderId {
        var f :| f in folders && f.id == folderId;
        assert f in rest;
      }
    }
  }

  /** `delete_folder`: 404 unless the caller owns a folder with this id; then 409 when
      any file is filed in it; then 409 when any folder has it as parent; otherwise the
      folder's row is removed and nothing else changes. */
  method DeleteFolder(db: Db, folderId: nat, ownerId: nat) returns (error: Option<HttpError>)
    requires db.Valid()
    modifies db
    ensures var owned := exists f :: f in old(db.folders) && f.id == folderId && f.ownerId == ownerId;
            && (error == Some(FolderNotFound) <==> !owned)
            && (error == Some(FolderHasFiles) <==> owned && HasFiles(old(db.files), folderId))
            && (error == Some(FolderHasSubfolders) <==>
                  owned && !HasFiles(old(db.files), folderId) && HasSubfolders(old(db.folders), folderId))
            && (error.None? <==>
                  owned && !HasFiles(old(db.files), folderId) && !HasSubfolders(old(db.folders), folderId))
    ensures error.None? ==> db.folders == WithoutFolder(old(db.folders), folderId)
    ensures error.None? ==> (forall f :: f in db.folders <==> f in old(db.folders) && f.id != folderId) &&
                            |db.folders| == |old(db.folders)| - 1
    ensures error.Some? ==> db.folders == old(db.folders)
    ensures db.files == old(db.files) && db.chunks == old(db.chunks) && db.locations == old(db.locations)
    ensures db.nodes == old(db.nodes) && db.permissions == old(db.permissions)
    ensures db.nextFileId == old(db.nextFileId) && db.nextFolderId == old(db.nextFolderId)
    ensures db.nextNodeId == old(db.nextNodeId)
    ensures db.Valid()
  {
    var folder := FindOwnedFolder(db.folders, folderId, ownerId);
    if folder.None? {
      return Some(FolderNotFound);
    }
    if HasFiles(db.files, folderId) {
      return Some(FolderHasFiles);
    }
    if HasSubfolders(db.folders, folderId) {
      return Some(FolderHasSubfolders);
    }
    WithoutFolderMembers(db.folders, folderId);
    WithoutFolderUnique(db.folders, folderId);
    WithoutFolderLength(db.folders, folderId);
    db.folders := WithoutFolder(db.folders, folderId);
    return None;
  }
}
