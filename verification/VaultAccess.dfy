/** Who may reach a folder, in terms of the entries in `sharing`. */
module VaultAccess {
  import opened Results
  import opened Tables
  import opened Ownership
  import opened VaultOps
  import opened VaultInvariant

  /** The entry shares this folder with the user. */
  predicate Names(t: Tables, s: Id, item: Id, user: Id) {
    s in t.sharing && t.sharing[s].isFolder && t.sharing[s].item == item && t.sharing[s].recipient == user
  }

  ghost predicate IsNamed(t: Tables, item: Id, user: Id) {
    exists s :: Names(t, s, item, user)
  }

  /** Who is not the owner has a row exactly by a sharing entry, and the row has its permission. */
  lemma RowIffNamed(t: Tables, x: Id, user: Id)
    requires Consistent(t) && IsOriginal(t.folders, x) && t.folders[x].owner != user
    ensures HasRow(t.folders, x, user) <==> IsNamed(t, x, user)
    ensures forall s :: Names(t, s, x, user) ==>
                          var r := GetFolderOwnership(t.folders, x, user);
                          r.Ok? && !r.value.isOwner && r.value.canModify == t.sharing[s].canModify
  {
    var f := t.folders;
    if HasRow(f, x, user) {
      var id := RowOf(f, x, user);
      assert RowMatched(t, id);
      var s :| Match(t, s, id);
      assert Names(t, s, x, user);
    }
    forall s | Names(t, s, x, user)
      ensures HasRow(f, x, user) && f[RowOf(f, x, user)].canModify == t.sharing[s].canModify
    {
      assert EntryMatched(t, s);
      var id :| Match(t, s, id);
      assert f[id].refId == x && f[id].owner == user;
      assert RowOf(f, x, user) == id;
    }
  }

  /** A folder and all folders above it are originals of the same owner. */
  lemma {:induction false} PathIsOwned(f: Folders, folder: Id)
    requires WellFormed(f) && Acyclic(f) && IsOriginal(f, folder)
    ensures var p := PathUp(f, folder);
            && p != [] && p[0] == folder
            && forall i :: 0 <= i < |p| ==> IsOriginal(f, p[i]) && f[p[i]].owner == f[folder].owner
    decreases Height(f, folder)
  {
    assert RowOk(f, folder);
    var up := f[folder].parent;
    if up !in f {
      assert PathUp(f, up) == [];
    } else {
      PathIsOwned(f, up);
    }
  }

  /** The i-th folder on the way up is the first one that an entry shares with the user. */
  ghost predicate IsNearestNamed(t: Tables, p: seq<Id>, user: Id, i: int) {
    0 <= i < |p| && IsNamed(t, p[i], user) && forall j :: 0 <= j < i ==> !IsNamed(t, p[j], user)
  }

  lemma {:induction false} NearestNamed(t: Tables, p: seq<Id>, user: Id, k: nat) returns (i: nat)
    requires k < |p| && IsNamed(t, p[k], user)
    ensures IsNearestNamed(t, p, user, i)
  {
    if !exists j :: 0 <= j < k && IsNamed(t, p[j], user) {
      i := k;
    } else {
      var j :| 0 <= j < k && IsNamed(t, p[j], user);
      i := NearestNamed(t, p, user, j);
    }
  }

  lemma NamedOnPath(t: Tables, folder: Id, user: Id)
    requires Consistent(t) && IsOriginal(t.folders, folder) && t.folders[folder].owner != user
    ensures var p := PathUp(t.folders, folder);
            && (forall i :: 0 <= i < |p| ==> (HasRow(t.folders, p[i], user) <==> IsNamed(t, p[i], user)))
            && (forall i, s :: 0 <= i < |p| && Names(t, s, p[i], user) ==>
                                 var r := GetFolderOwnership(t.folders, p[i], user);
                                 r.Ok? && !r.value.isOwner && r.value.canModify == t.sharing[s].canModify)
  {
    var p := PathUp(t.folders, folder);
    PathIsOwned(t.folders, folder);
    forall i | 0 <= i < |p|
      ensures HasRow(t.folders, p[i], user) <==> IsNamed(t, p[i], user)
      ensures forall s :: Names(t, s, p[i], user) ==>
                            var r := GetFolderOwnership(t.folders, p[i], user);
                            r.Ok? && !r.value.isOwner && r.value.canModify == t.sharing[s].canModify
    {
      RowIffNamed(t, p[i], user);
    }
  }

  lemma AccessIsNearest(t: Tables, folder: Id, user: Id)
    requires Consistent(t) && IsOriginal(t.folders, folder) && t.folders[folder].owner != user
    ensures var r, p := CheckFolderOwnership(t.folders, user, folder), PathUp(t.folders, folder);
            && (r.Ok? <==> exists i :: 0 <= i < |p| && IsNamed(t, p[i], user))
            && (r.Ok? ==> !r.value.isOwner)
            && (forall i, e :: IsNearestNamed(t, p, user, i) && Names(t, e, p[i], user) ==>
                                 r.Ok? && r.value.canModify == t.sharing[e].canModify)
  {
    var f, p := t.folders, PathUp(t.folders, folder);
    NamedOnPath(t, folder, user);
    CheckFindsNearest(f, user, folder);
    hide Consistent, HasRow, PathUp, CheckFolderOwnership, Names;
    forall i | IsNearestNamed(t, p, user, i)
      ensures IsNearest(f, p, user, i)
      ensures CheckFolderOwnership(f, user, folder) == GetFolderOwnership(f, p[i], user)
    {
    }
    if CheckFolderOwnership(f, user, folder).Ok? {
      var k :| 0 <= k < |p| && HasRow(f, p[k], user);
      var i := NearestNamed(t, p, user, k);
      var e :| Names(t, e, p[i], user);
    }
  }

  // ----- Any row

  /** The user owns the row, or an entry names the user for a folder on the way up from it. */
  ghost predicate CanSee(t: Tables, x: Id, user: Id)
    requires Acyclic(t.folders)
  {
    x in t.folders
    && (t.folders[x].owner == user || exists i :: 0 <= i < |PathUp(t.folders, x)| && IsNamed(t, PathUp(t.folders, x)[i], user))
  }

  /** The user owns the row, or the nearest such entry allows changes. */
  ghost predicate CanChange(t: Tables, x: Id, user: Id)
    requires Acyclic(t.folders)
  {
    x in t.folders
    && (t.folders[x].owner == user
        || exists i, e :: IsNearestNamed(t, PathUp(t.folders, x), user, i) && Names(t, e, PathUp(t.folders, x)[i], user)
                          && t.sharing[e].canModify)
  }

  /** No entry names a recipient's reference or a root folder. */
  lemma OnlyOriginalsAreNamed(t: Tables, x: Id, user: Id)
    requires Consistent(t) && IsNamed(t, x, user)
    ensures IsOriginal(t.folders, x) && t.folders[x].parent != "" && t.folders[x].owner != user
  {
    var s :| Names(t, s, x, user);
    assert EntryMatched(t, s);
    var id :| Match(t, s, id);
    assert RowOk(t.folders, id);
  }

  /** A reference is reached by its recipient only. */
  lemma ReferenceIsOwn(t: Tables, x: Id, user: Id)
    requires Consistent(t) && IsShareRow(t.folders, x)
    ensures var r := CheckFolderOwnership(t.folders, user, x);
            && (r.Ok? <==> t.folders[x].owner == user) && (r.Ok? ==> r.value.canModify)
    ensures forall i :: 0 <= i < |PathUp(t.folders, x)| ==> !IsNamed(t, PathUp(t.folders, x)[i], user)
  {
    var f, root := t.folders, t.folders[x].owner;
    assert RowOk(f, x) && RowOk(f, root);
    ReferenceIsUnused(t, x);
    assert !HasRow(f, x, user);
    if user == root {
      OwnerReaches(f, root);
    } else {
      forall id | id in f && f[id].refId == root
        ensures f[id].owner == root
      {
        assert RowOk(f, id);
      }
      assert CheckFolderOwnership(f, user, "").Err?;
      assert CheckFolderOwnership(f, user, root).Err?;
    }
    assert CheckFolderOwnership(f, user, x) == CheckFolderOwnership(f, user, root);
    assert PathUp(f, "") == [] && PathUp(f, root) == [root] + [];
    assert PathUp(f, x) == [x] + PathUp(f, root);
    if IsNamed(t, x, user) {
      OnlyOriginalsAreNamed(t, x, user);
    }
    if IsNamed(t, root, user) {
      OnlyOriginalsAreNamed(t, root, user);
    }
  }

  /** CheckFolderOwnership finds exactly the folders that the user can see, and reports the right to
      modify exactly for those that the user can change. */
  lemma FindsWhatIsSeen(t: Tables, x: Id, user: Id)
    requires Consistent(t)
    ensures var r := CheckFolderOwnership(t.folders, user, x);
            && (r.Ok? <==> CanSee(t, x, user))
            && (r.Ok? && r.value.canModify <==> CanChange(t, x, user))
  {
    var f := t.folders;
    if IsOriginal(f, x) {
      if f[x].owner == user {
        OwnerReaches(f, x);
      } else {
        SeenIffNamed(t, x, user);
        hide CanSee;
        AccessIsNearest(t, x, user);
        NearestIsFound(t, x, user);
      }
    } else if x in f {
      ReferenceIsOwn(t, x, user);
    }
  }

  lemma SeenIffNamed(t: Tables, x: Id, user: Id)
    requires Consistent(t) && IsOriginal(t.folders, x) && t.folders[x].owner != user
    ensures CheckFolderOwnership(t.folders, user, x).Ok? <==> CanSee(t, x, user)
  {
    AccessIsNearest(t, x, user);
    if CanSee(t, x, user) {
      assert exists i :: 0 <= i < |PathUp(t.folders, x)| && IsNamed(t, PathUp(t.folders, x)[i], user);
    }
  }

  lemma NearestIsFound(t: Tables, x: Id, user: Id)
    requires Consistent(t) && IsOriginal(t.folders, x) && t.folders[x].owner != user
    ensures CheckFolderOwnership(t.folders, user, x).Ok? ==>
              exists i, e :: IsNearestNamed(t, PathUp(t.folders, x), user, i) && Names(t, e, PathUp(t.folders, x)[i], user)
  {
    var p := PathUp(t.folders, x);
    AccessIsNearest(t, x, user);
    hide Consistent, CheckFolderOwnership, PathUp, Names;
    if CheckFolderOwnership(t.folders, user, x).Ok? {
      var k :| 0 <= k < |p| && IsNamed(t, p[k], user);
      var i := NearestNamed(t, p, user, k);
      var e :| Names(t, e, p[i], user);
    }
  }
}
