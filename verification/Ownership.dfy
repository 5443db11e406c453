/** Who may reach a folder: GetFolderOwnership and the climb of CheckFolderOwnership. */
module Ownership {
  import opened Results
  import opened Tables

  datatype Info = Info(id: Id, refId: Id, canModify: bool, isOwner: bool)

  predicate HasRow(f: Folders, folder: Id, user: Id) {
    exists id :: id in f && f[id].refId == folder && f[id].owner == user
  }

  function RowOf(f: Folders, folder: Id, user: Id): (id: Id)
    requires WellFormed(f) && HasRow(f, folder, user)
    ensures id in f && f[id].refId == folder && f[id].owner == user
  {
    var id :| id in f && f[id].refId == folder && f[id].owner == user;
    id
  }

  function GetFolderOwnership(f: Folders, folder: Id, user: Id): (r: Result<Info, Error>)
    requires WellFormed(f)
    ensures r.Ok? <==> HasRow(f, folder, user)
    ensures r.Ok? ==> r.value.id in f && f[r.value.id].owner == user && f[r.value.id].refId == folder
    ensures r.Ok? ==> r.value.canModify == f[r.value.id].canModify
    ensures r.Ok? ==> (r.value.isOwner <==> folder in f && f[folder].refId == folder && f[folder].owner == user)
  {
    if HasRow(f, folder, user) then
      var id := RowOf(f, folder, user);
      Ok(Info(id, folder, f[id].canModify, id == folder))
    else
      Err(NotFound)
  }

  /** Looks up the folder by its id, then the user's row for it, and otherwise asks the parent. */
  function CheckFolderOwnership(f: Folders, user: Id, folder: Id): (r: Result<Info, Error>)
    requires WellFormed(f) && Acyclic(f)
    decreases Height(f, folder)
  {
    if folder !in f then Err(NotFound)
    else
      var own := GetFolderOwnership(f, folder, user);
      if own.Ok? then own else CheckFolderOwnership(f, user, f[folder].parent)
  }

  /** The folder, its parent, and so on until there is no such row. */
  ghost function PathUp(f: Folders, folder: Id): (p: seq<Id>)
    requires Acyclic(f)
    decreases Height(f, folder)
  {
    if folder !in f then [] else [folder] + PathUp(f, f[folder].parent)
  }

  /** The path really is the sequence of successive parents, and no folder is met twice. */
  lemma {:induction false} PathUpClimbs(f: Folders, folder: Id)
    requires "" !in f && Acyclic(f)
    ensures var p := PathUp(f, folder);
            && (p != [] ==> p[0] == folder)
            && (forall i :: 0 <= i < |p| ==> p[i] in f)
            && (forall i :: 0 <= i < |p| - 1 ==> p[i + 1] == f[p[i]].parent)
            && (p != [] ==> f[p[|p| - 1]].parent !in f)
            && (forall i, j :: 0 <= i < j < |p| ==> p[i] != p[j])
            && (forall i :: 0 <= i < |p| ==> Height(f, p[i]) <= Height(f, folder))
    decreases Height(f, folder)
  {
    if folder !in f {
    } else {
      PathUpClimbs(f, f[folder].parent);
    }
  }

  /** The i-th folder of a path is the first in which the user has a row. */
  ghost predicate IsNearest(f: Folders, p: seq<Id>, user: Id, i: int) {
    0 <= i < |p| && HasRow(f, p[i], user) && forall j :: 0 <= j < i ==> !HasRow(f, p[j], user)
  }

  /** The user has a row in some folder of the path. */
  ghost predicate HasRowOn(f: Folders, p: seq<Id>, user: Id) {
    exists i :: 0 <= i < |p| && HasRow(f, p[i], user)
  }

  lemma NearestBeyond(f: Folders, folder: Id, up: seq<Id>, user: Id, i: int)
    requires IsNearest(f, [folder] + up, user, i)
    ensures HasRow(f, folder, user) ==> i == 0
    ensures !HasRow(f, folder, user) ==> IsNearest(f, up, user, i - 1) && ([folder] + up)[i] == up[i - 1]
  {
    var p := [folder] + up;
    assert p[0] == folder && forall j :: 0 <= j < |up| ==> up[j] == p[j + 1];
  }

  lemma RowHereOrAbove(f: Folders, folder: Id, up: seq<Id>, user: Id)
    ensures HasRowOn(f, [folder] + up, user) <==> HasRow(f, folder, user) || HasRowOn(f, up, user)
  {
    var p := [folder] + up;
    assert p[0] == folder && forall j :: 0 <= j < |up| ==> up[j] == p[j + 1];
  }

  /** CheckFolderOwnership answers with the user's row at the nearest folder on the way up
      that has one, and succeeds exactly when some folder on the way up has one. */
  lemma {:induction false} CheckFindsNearest(f: Folders, user: Id, folder: Id)
    requires WellFormed(f) && Acyclic(f)
    ensures CheckFolderOwnership(f, user, folder).Ok? <==> HasRowOn(f, PathUp(f, folder), user)
    ensures forall i :: IsNearest(f, PathUp(f, folder), user, i) ==>
                          CheckFolderOwnership(f, user, folder) == GetFolderOwnership(f, PathUp(f, folder)[i], user)
    decreases Height(f, folder)
  {
    if folder !in f {
    } else {
      var up := PathUp(f, f[folder].parent);
      CheckFindsNearest(f, user, f[folder].parent);
      RowHereOrAbove(f, folder, up, user);
      forall i | IsNearest(f, [folder] + up, user, i)
        ensures CheckFolderOwnership(f, user, folder) == GetFolderOwnership(f, ([folder] + up)[i], user)
      {
        NearestBeyond(f, folder, up, user, i);
      }
    }
  }

  /** Nobody else is taken for the owner, however the folder is reached. */
  lemma {:induction false} OthersAreNotOwners(f: Folders, user: Id, folder: Id)
    requires WellFormed(f) && Acyclic(f) && IsOriginal(f, folder) && f[folder].owner != user
    ensures CheckFolderOwnership(f, user, folder).Ok? ==> !CheckFolderOwnership(f, user, folder).value.isOwner
    decreases Height(f, folder)
  {
    assert RowOk(f, folder);
    if f[folder].parent !in f {
    } else {
      OthersAreNotOwners(f, user, f[folder].parent);
    }
  }

  /** A folder's owner always reaches it as owner, with full rights. */
  lemma OwnerReaches(f: Folders, folder: Id)
    requires WellFormed(f) && Acyclic(f) && IsOriginal(f, folder)
    ensures var r := CheckFolderOwnership(f, f[folder].owner, folder);
            r.Ok? && r.value.isOwner && r.value.id == folder && r.value.canModify
  {
    assert RowOk(f, folder);
  }
}
