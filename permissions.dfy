/** The coordinator's per-file access check: the role hierarchy and the order in which
    `get_file_for_user` refuses a request. */
module Permissions {
  import opened Wrappers
  import opened Http
  import opened Schema

  /** `ROLE_HIERARCHY`: for each required role, the stored roles that meet it; `None`
      for a required role that is not a key of the dictionary. */
  function Allowed(required: string): Option<set<string>> {
    if required == "read" then Some({"read", "write", "owner"})
    else if required == "write" then Some({"write", "owner"})
    else if required == "owner" then Some({"owner"})
    else None
  }

  /** The ranks the hierarchy encodes, read < write < owner. */
  function Rank(role: string): Option<nat> {
    if role == "read" then Some(1)
    else if role == "write" then Some(2)
    else if role == "owner" then Some(3)
    else None
  }

  /** A stored role meets a required role exactly when both are known roles and the
      stored one ranks at least as high; an unknown required role has no entry. */
  lemma AllowedIsRankOrder(required: string, role: string)
    ensures Allowed(required).Some? <==> Rank(required).Some?
    ensures Allowed(required).Some? ==>
              (role in Allowed(required).value <==> Rank(role).Some? && Rank(role).value >= Rank(required).value)
  {
  }

  /** A role that meets a requirement meets every weaker one. */
  lemma AllowedMonotone(weaker: string, stronger: string, role: string)
    requires Rank(weaker).Some? && Rank(stronger).Some? && Rank(weaker).value <= Rank(stronger).value
    requires role in Allowed(stronger).value
    ensures role in Allowed(weaker).value
  {
    AllowedIsRankOrder(stronger, role);
    AllowedIsRankOrder(weaker, role);
  }

  /** A stored role outside read, write and owner meets no requirement. */
  lemma UnknownRoleMeetsNothing(required: string, role: string)
    requires Rank(role).None? && Allowed(required).Some?
    ensures role !in Allowed(required).value
  {
  }

  /** The permission query: the first row for this file and user (`.first()`). */
  function FindPermission(perms: seq<Permission>, fileId: nat, userId: nat): (r: Option<Permission>)
    ensures r.Some? ==> r.value in perms && r.value.fileId == fileId && r.value.userId == userId
    ensures r.None? <==> forall p :: p in perms ==> !(p.fileId == fileId && p.userId == userId)
    decreases |perms|
  {
    if |perms| == 0 then None
    else if perms[0].fileId == fileId && perms[0].userId == userId then Some(perms[0])
    else FindPermission(perms[1..], fileId, userId)
  }

  /** The file query: the first row with this id. */
  function FindFile(files: seq<FileRow>, fileId: nat): (r: Option<FileRow>)
    ensures r.Some? ==> r.value in files && r.value.id == fileId
    ensures r.None? <==> forall f :: f in files ==> f.id != fileId
    decreases |files|
  {
    if |files| == 0 then None
    else if files[0].id == fileId then Some(files[0])
    else FindFile(files[1..], fileId)
  }

  /** The `uq_file_user_permission` constraint: one row per (file, user). */
  predicate PermissionKeysUnique(perms: seq<Permission>) {
    forall i, j :: 0 <= i < j < |perms| ==>
      !(perms[i].fileId == perms[j].fileId && perms[i].userId == perms[j].userId)
  }

  /** `get_file_for_user`: no permission row, then a role that does not meet the
      requirement (a required role outside the hierarchy raises `KeyError`, a 500),
      then a missing file, in that order. */
  function GetFileForUser(files: seq<FileRow>, perms: seq<Permission>, fileId: nat, userId: nat,
                          required: string): Result<FileRow, HttpError>
  {
    match FindPermission(perms, fileId, userId)
    case None => Failure(NoAccess)
    case Some(p) =>
      match Allowed(required)
      case None => Failure(UnknownRequiredRole(required))
      case Some(roles) =>
        if p.role !in roles then Failure(MissingRole(required))
        else
          match FindFile(files, fileId)
          case None => Failure(FileNotFound)
          case Some(f) => Success(f)
  }

  /** Which answer the check gives, for every input: 403 exactly when the user holds
      no row for the file; otherwise a 500 for an unknown required role, then 403
      naming the required role exactly when the user's role does not meet it; then 404
      exactly when no file has the id; and the file with that id otherwise. The file
      table is consulted only after both permission checks pass. */
  lemma GetFileForUserSpec(files: seq<FileRow>, perms: seq<Permission>, fileId: nat, userId: nat,
                           required: string)
    requires PermissionKeysUnique(perms)
    ensures var r := GetFileForUser(files, perms, fileId, userId, required);
            var held := exists p :: p in perms && p.fileId == fileId && p.userId == userId;
            var meets := exists p :: p in perms && p.fileId == fileId && p.userId == userId &&
                                     Allowed(required).Some? && p.role in Allowed(required).value;
            var found := exists f :: f in files && f.id == fileId;
            && (r == Failure(NoAccess) <==> !held)
            && (r == Failure(UnknownRequiredRole(required)) <==> held && Allowed(required).None?)
            && (r == Failure(MissingRole(required)) <==> held && Allowed(required).Some? && !meets)
            && (r == Failure(FileNotFound) <==> meets && !found)
            && (r.Success? <==> meets && found)
            && (r.Success? ==> r.value in files && r.value.id == fileId)
            && (r.Failure? ==> r.error.Status() == 403 || r.error.Status() == 404 || r.error.Status() == 500)
  {
    var fp := FindPermission(perms, fileId, userId);
    if fp.Some? {
      forall p | p in perms && p.fileId == fileId && p.userId == userId ensures p == fp.value {
        var i :| 0 <= i < |perms| && perms[i] == p;
        var k :| 0 <= k < |perms| && perms[k] == fp.value;
        assert i == k;
      }
    }
  }

  /** The outcome does not depend on the file table until both permission checks pass. */
  lemma PermissionsCheckedFirst(files: seq<FileRow>, other: seq<FileRow>, perms: seq<Permission>,
                                fileId: nat, userId: nat, required: string)
    ensures var r := GetFileForUser(files, perms, fileId, userId, required);
            r.Failure? && r.error != FileNotFound ==>
              GetFileForUser(other, perms, fileId, userId, required) == r
  {
  }
}
