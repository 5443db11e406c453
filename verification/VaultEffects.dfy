/** What the requests of the vault are accepted for, and what they do to rows, entries and access. */
module VaultEffects {
  import opened Results
  import opened Tables
  import opened Ownership
  import opened VaultOps
  import opened VaultInvariant
  import opened VaultAccess
  import opened FolderDelete

  /** Rows under other identifiers stay as they are, and none appear. */
  ghost predicate SameBut<V>(m: map<Id, V>, n: map<Id, V>, but: set<Id>) {
    forall x :: x !in but ==> (x in m <==> x in n) && (x in m ==> m[x] == n[x])
  }

  /** A row of the folder lets the user change it. */
  ghost predicate HoldsFolder(f: Folders, item: Id, user: Id) {
    exists x :: x in f && f[x].refId == item && f[x].owner == user && f[x].canModify
  }

  // ----- Folders

  /** A folder can be created where the user can see the parent; it gets what was asked for and belongs to
      the owner of the parent. */
  lemma FolderIsCreated(t: Tables, user: Id, parent: Id, key: Wrapped, name: string, pw: bool, id: Id)
    requires Consistent(t)
    ensures var r := NewFolder(t, user, parent, key, name, pw, id);
            && (r.Ok? <==> parent == "" || CanSee(t, parent, user))
            && (r.Ok? ==>
                  && id in r.value.folders && SameBut(t.folders, r.value.folders, {id})
                  && r.value.files == t.files && r.value.sharing == t.sharing
                  && var row := r.value.folders[id];
                     && row.refId == id && row.key == key && row.name == name && row.pw == pw && row.canModify
                     && if parent == "" then row.owner == user && row.parent == user
                        else row.owner == t.folders[parent].owner && row.parent == parent)
  {
    FolderIsAccepted(t, user, parent, key, name, pw, id);
    hide Consistent, CheckFolderOwnership, CanSee;
  }

  lemma FolderIsAccepted(t: Tables, user: Id, parent: Id, key: Wrapped, name: string, pw: bool, id: Id)
    requires Consistent(t)
    ensures NewFolder(t, user, parent, key, name, pw, id).Ok? <==> parent == "" || CanSee(t, parent, user)
  {
    FindsWhatIsSeen(t, parent, user);
    hide Consistent, CheckFolderOwnership, IsNamed;
  }

  /** A new user has a root folder. */
  lemma RootIsCreated(t: Tables, user: Id, key: Wrapped)
    ensures var t' := NewRoot(t, user, key);
            && IsRoot(t'.folders, user) && t'.folders[user].canModify && t'.folders[user].key == key
            && SameBut(t.folders, t'.folders, {user}) && t'.files == t.files && t'.sharing == t.sharing
  {
  }

  /** A folder can be renamed by those who can change it; all its rows get the name that is given. */
  lemma FolderIsRenamed(t: Tables, user: Id, id: Id, name: string)
    requires Consistent(t)
    ensures var r := Rename(t, user, id, name);
            && (r.Ok? <==> CanChange(t, id, user))
            && (r.Ok? ==>
                  && r.value.folders.Keys == t.folders.Keys && r.value.files == t.files && r.value.sharing == t.sharing
                  && forall x :: x in t.folders ==>
                       var before, after := t.folders[x], r.value.folders[x];
                       && after.name == (if before.refId == id then name else before.name)
                       && after.refId == before.refId && after.owner == before.owner && after.parent == before.parent
                       && after.key == before.key && after.canModify == before.canModify && after.pw == before.pw)
  {
    FindsWhatIsSeen(t, id, user);
    hide Consistent, CheckFolderOwnership;
  }

  /** An owner can share a folder below the root with another user, once. Row and entry carry the permission
      that is given. */
  lemma FolderIsShared(t: Tables, item: Id, user: Id, recipient: Id, key: Wrapped, canModify: bool, id: Id, shareId: Id)
    requires Consistent(t)
    ensures var r := ShareFolder(t, item, user, recipient, key, canModify, id, shareId);
            && (r.Ok? <==>
                  && IsRoot(t.folders, recipient) && recipient != user && item != user
                  && IsOriginal(t.folders, item) && t.folders[item].owner == user && !IsNamed(t, item, recipient))
            && (r.Ok? ==>
                  && id in r.value.folders && SameBut(t.folders, r.value.folders, {id}) && r.value.files == t.files
                  && shareId in r.value.sharing && SameBut(t.sharing, r.value.sharing, {shareId})
                  && (var row := r.value.folders[id];
                      && row.refId == item && row.owner == recipient && row.parent == recipient && row.key == key
                      && row.canModify == canModify && row.name == t.folders[item].name && row.pw == t.folders[item].pw)
                  && r.value.sharing[shareId] == Share(user, recipient, item, true, canModify))
  {
    ShareIsAccepted(t, item, user, recipient, key, canModify, id, shareId);
    hide Consistent, IsNamed, IsSharedWith, GetFolderOwnership;
  }

  lemma ShareIsAccepted(t: Tables, item: Id, user: Id, recipient: Id, key: Wrapped, canModify: bool, id: Id, shareId: Id)
    requires Consistent(t)
    ensures ShareFolder(t, item, user, recipient, key, canModify, id, shareId).Ok? <==>
              && IsRoot(t.folders, recipient) && recipient != user && item != user
              && IsOriginal(t.folders, item) && t.folders[item].owner == user && !IsNamed(t, item, recipient)
  {
    assert "" !in t.folders;
    var own := GetFolderOwnership(t.folders, item, user);
    if IsOriginal(t.folders, item) && t.folders[item].owner == user {
      SharedIffNamed(t, item, user, recipient);
      assert HasRow(t.folders, item, user);
    }
    assert own.Ok? && own.value.isOwner <==> IsOriginal(t.folders, item) && t.folders[item].owner == user;
    hide Consistent, IsNamed, IsSharedWith, GetFolderOwnership, WellFormed;
  }

  /** Entries for a folder are those of its owner. */
  lemma SharedIffNamed(t: Tables, item: Id, user: Id, recipient: Id)
    requires Consistent(t) && IsOriginal(t.folders, item) && t.folders[item].owner == user
    ensures IsSharedWith(t, user, item, recipient) <==> IsNamed(t, item, recipient)
  {
    if IsNamed(t, item, recipient) {
      var s :| Names(t, s, item, recipient);
      assert EntryMatched(t, s);
      var id :| Match(t, s, id);
    }
    if IsSharedWith(t, user, item, recipient) {
      var s :| s in t.sharing && t.sharing[s].owner == user && t.sharing[s].item == item && t.sharing[s].recipient == recipient;
      assert Names(t, s, item, recipient);
    }
  }

  lemma EditsIffHolds(t: Tables, item: Id, user: Id)
    requires WellFormed(t.folders)
    ensures CanEditFolder(t.folders, item, user).None? <==> HoldsFolder(t.folders, item, user)
  {
    if HoldsFolder(t.folders, item, user) {
      var x :| x in t.folders && t.folders[x].refId == item && t.folders[x].owner == user && t.folders[x].canModify;
      assert HasRow(t.folders, item, user) && RowOf(t.folders, item, user) == x;
    }
  }

  // ----- Permissions

  /** The permission of an entry becomes the one that is given, if the entry is the user's, and so does
      that of the rows of its item that the recipient holds. Nothing else changes. */
  lemma EntryIsEdited(t: Tables, user: Id, shareId: Id, canModify: bool)
    ensures var t' := EditEntry(t, user, shareId, canModify);
            if shareId !in t.sharing || t.sharing[shareId].owner != user then t' == t
            else
              var e := t.sharing[shareId];
              && shareId in t'.sharing && SameBut(t.sharing, t'.sharing, {shareId})
              && t'.sharing[shareId] == Share(e.owner, e.recipient, e.item, e.isFolder, canModify)
              && t'.folders.Keys == t.folders.Keys && t'.files.Keys == t.files.Keys
              && (forall x :: x in t.folders ==>
                    if e.isFolder && t.folders[x].refId == e.item && t.folders[x].owner == e.recipient
                    then t'.folders[x].canModify == canModify && t'.folders[x] == t.folders[x].(canModify := t'.folders[x].canModify)
                    else t'.folders[x] == t.folders[x])
              && (forall z :: z in t.files ==>
                    if !e.isFolder && t.files[z].refId == e.item && t.files[z].owner == e.recipient
                    then t'.files[z].canModify == canModify && t'.files[z] == t.files[z].(canModify := t'.files[z].canModify)
                    else t'.files[z] == t.files[z])
  {
  }

  /** So the recipient of a folder has the new permission for it. */
  lemma RecipientGetsPermission(t: Tables, user: Id, shareId: Id, item: Id, canModify: bool)
    requires Consistent(t) && shareId in t.sharing && t.sharing[shareId].isFolder && t.sharing[shareId].owner == user
    ensures var r := ModifyShare(t, user, shareId, item, canModify);
            && (r.Ok? <==> HoldsFolder(t.folders, item, user))
            && (r.Ok? ==>
                  && Consistent(r.value)
                  && var own := CheckFolderOwnership(r.value.folders, t.sharing[shareId].recipient, t.sharing[shareId].item);
                     own.Ok? && own.value.canModify == canModify)
  {
    EditsIffHolds(t, item, user);
    var r := ModifyShare(t, user, shareId, item, canModify);
    if r.Ok? {
      var e := t.sharing[shareId];
      EntryIsEdited(t, user, shareId, canModify);
      ModifyShareKeeps(t, user, shareId, item, canModify);
      NamedFolder(t, shareId);
      hide EditEntry;
      assert IsOriginal(r.value.folders, e.item);
      RowIffNamed(r.value, e.item, e.recipient);
      assert Names(r.value, shareId, e.item, e.recipient);
    }
  }

  lemma NamedFolder(t: Tables, s: Id)
    requires Consistent(t) && s in t.sharing && t.sharing[s].isFolder
    ensures IsOriginal(t.folders, t.sharing[s].item) && t.folders[t.sharing[s].item].owner == t.sharing[s].owner
    ensures t.sharing[s].recipient != t.sharing[s].owner
  {
    assert EntryMatched(t, s);
    var id :| Match(t, s, id);
    assert RowOk(t.folders, id);
  }

  // ----- Shares that end

  /** The path up depends on the folders themselves only. */
  lemma {:induction false} SamePath(f: Folders, g: Folders, x: Id)
    requires WellFormed(f) && Acyclic(f) && WellFormed(g) && Acyclic(g) && IsOriginal(f, x)
    requires g.Keys <= f.Keys && forall y :: y in g ==> g[y] == f[y]
    requires forall y :: IsOriginal(f, y) ==> y in g
    ensures PathUp(g, x) == PathUp(f, x)
    decreases Height(f, x)
  {
    assert RowOk(f, x);
    var up := f[x].parent;
    if up !in f {
      assert PathUp(f, up) == [] && PathUp(g, up) == [];
    } else {
      SamePath(f, g, up);
    }
  }

  /** Removing the share of a folder takes the recipient's row and the entry, and nothing else; the
      recipient then reaches the folder exactly if a folder above it is shared, too. */
  lemma ShareIsRemoved(t: Tables, user: Id, item: Id, shareId: Id)
    requires Consistent(t) && shareId in t.sharing && t.sharing[shareId].isFolder
    requires t.sharing[shareId].item == item && t.sharing[shareId].owner == user
    ensures var r, recipient := RemoveShare(t, user, item, shareId), t.sharing[shareId].recipient;
            && r.Ok? && Consistent(r.value) && IsOriginal(t.folders, item)
            && !HasRow(r.value.folders, item, recipient) && shareId !in r.value.sharing
            && SameBut(t.sharing, r.value.sharing, {shareId}) && r.value.files == t.files
            && (forall x :: x in t.folders && !(t.folders[x].refId == item && t.folders[x].owner == recipient) ==>
                              x in r.value.folders && r.value.folders[x] == t.folders[x])
            && r.value.folders.Keys <= t.folders.Keys
            && (CheckFolderOwnership(r.value.folders, recipient, item).Ok? <==>
                  exists i :: 1 <= i < |PathUp(t.folders, item)| && IsNamed(t, PathUp(t.folders, item)[i], recipient))
  {
    NamedFolder(t, shareId);
    assert RowOk(t.folders, item);
    assert t.folders[item].canModify && HoldsFolder(t.folders, item, user);
    EditsIffHolds(t, item, user);
    RemoveShareKeepsIff(t, user, item, shareId);
    var t', recipient := RemoveShare(t, user, item, shareId).value, t.sharing[shareId].recipient;
    RemovedRows(t, user, item, shareId);
    hide Consistent, RemoveShare;
    AccessFromAbove(t, t', item, recipient, shareId);
  }

  lemma RemovedRows(t: Tables, user: Id, item: Id, shareId: Id)
    requires WellFormed(t.folders) && RemoveShare(t, user, item, shareId).Ok? && shareId in t.sharing
    requires t.sharing[shareId].item == item && t.sharing[shareId].owner == user
    ensures var t', recipient := RemoveShare(t, user, item, shareId).value, t.sharing[shareId].recipient;
            && !HasRow(t'.folders, item, recipient) && shareId !in t'.sharing
            && SameBut(t.sharing, t'.sharing, {shareId}) && t'.files == t.files && t'.folders.Keys <= t.folders.Keys
            && (forall x :: x in t'.folders ==> t'.folders[x] == t.folders[x])
            && (forall x :: x in t.folders && !(t.folders[x].refId == item && t.folders[x].owner == recipient) ==> x in t'.folders)
  {
    var t', recipient := RemoveShare(t, user, item, shareId).value, t.sharing[shareId].recipient;
    forall x | x in t'.folders
      ensures !(t'.folders[x].refId == item && t'.folders[x].owner == recipient)
    {
      assert x !in RowsOf(t.folders, item, recipient);
    }
  }

  lemma AccessFromAbove(t: Tables, t': Tables, item: Id, recipient: Id, shareId: Id)
    requires Consistent(t) && Consistent(t') && IsOriginal(t.folders, item) && t.folders[item].owner != recipient
    requires shareId in t.sharing && t.sharing[shareId].item == item && !HasRow(t'.folders, item, recipient)
    requires SameBut(t.sharing, t'.sharing, {shareId}) && shareId !in t'.sharing
    requires t'.folders.Keys <= t.folders.Keys && forall x :: x in t'.folders ==> t'.folders[x] == t.folders[x]
    requires forall x :: x in t.folders && !(t.folders[x].refId == item && t.folders[x].owner == recipient) ==> x in t'.folders
    ensures CheckFolderOwnership(t'.folders, recipient, item).Ok? <==>
              exists i :: 1 <= i < |PathUp(t.folders, item)| && IsNamed(t, PathUp(t.folders, item)[i], recipient)
  {
    var p := PathUp(t.folders, item);
    assert forall y :: IsOriginal(t.folders, y) ==> y in t'.folders;
    SamePath(t.folders, t'.folders, item);
    PathUpClimbs(t.folders, item);
    RowIffNamed(t', item, recipient);
    forall i | 0 <= i < |p|
      ensures IsNamed(t', p[i], recipient) <==> i >= 1 && IsNamed(t, p[i], recipient)
    {
      NamedElsewhere(t, t', shareId, item, p[i], recipient);
    }
    FindsWhatIsSeen(t', item, recipient);
    hide Consistent, IsNamed, CheckFolderOwnership;
    assert CanSee(t', item, recipient) <==> exists i :: 0 <= i < |p| && IsNamed(t', p[i], recipient);
  }

  lemma NamedElsewhere(t: Tables, t': Tables, shareId: Id, item: Id, x: Id, user: Id)
    requires SameBut(t.sharing, t'.sharing, {shareId}) && shareId in t.sharing && t.sharing[shareId].item == item
    requires shareId !in t'.sharing
    ensures x != item ==> (IsNamed(t', x, user) <==> IsNamed(t, x, user))
  {
    forall s | x != item
      ensures Names(t, s, x, user) <==> Names(t', s, x, user)
    {
    }
  }

  /** A user gives up the row of a share: row and entries go, and nothing else. */
  lemma ShareIsLeft(t: Tables, id: Id, user: Id)
    ensures var t' := LeaveShare(t, id, user);
            if id !in t.folders || t.folders[id].owner != user then t' == t
            else
              && id !in t'.folders && SameBut(t.folders, t'.folders, {id}) && t'.files == t.files
              && forall s :: s in t'.sharing <==>
                   s in t.sharing && !(t.sharing[s].item == t.folders[id].refId && t.sharing[s].recipient == user)
    ensures var t' := LeaveShare(t, id, user);
            forall s :: s in t'.sharing ==> s in t.sharing && t'.sharing[s] == t.sharing[s]
  {
  }

  lemma LeftIsUnreached(t: Tables, id: Id, user: Id)
    requires Consistent(t) && IsShareRow(t.folders, id) && t.folders[id].owner == user
    ensures !HasRow(LeaveShare(t, id, user).folders, t.folders[id].refId, user)
  {
    ShareIsLeft(t, id, user);
  }

  // ----- Files

  /** A file can be added where the user can change the folder; it gets what was asked for. */
  lemma FileIsAdded(t: Tables, user: Id, name: string, folder: Id, length: int, chunks: nat, pw: bool, id: Id)
    requires Consistent(t)
    ensures var r, at := AddVaultItem(t, user, name, folder, length, chunks, pw, id), if folder == "" then user else folder;
            && (r.Ok? <==> user != "" && name != "" && length != 0 && chunks != 0 && CanChange(t, at, user))
            && (r.Ok? ==>
                  && r.value.folders == t.folders && r.value.sharing == t.sharing
                  && id in r.value.files && SameBut(t.files, r.value.files, {id})
                  && var row := r.value.files[id];
                     && row.refId == id && row.owner == user && row.folder == at && row.canModify
                     && row.length == length && row.chunks == chunks && row.pw == pw)
  {
    FindsWhatIsSeen(t, if folder == "" then user else folder, user);
    hide Consistent, CheckFolderOwnership;
  }

  /** A copy lies in the recipient's root folder, is of the size and kind of the row that was read and has
      the permission that is given, as has the entry. */
  lemma FileIsCopied(t: Tables, item: Id, user: Id, recipient: Id, canModify: bool, id: Id, shareId: Id, from: Id)
    requires from in t.files
    ensures var t' := WithCopy(t, item, user, recipient, canModify, id, shareId, from);
            && t'.folders == t.folders && id in t'.files && SameBut(t.files, t'.files, {id})
            && shareId in t'.sharing && SameBut(t.sharing, t'.sharing, {shareId})
            && (var row, read := t'.files[id], t.files[from];
                && row.refId == from && row.owner == recipient && row.folder == recipient && row.canModify == canModify
                && row.length == read.length && row.chunks == read.chunks && row.pw == read.pw)
            && t'.sharing[shareId] == Share(user, recipient, item, false, canModify)
  {
  }

  /** Removing the share of a file takes the recipient's rows of it if the entry is the user's and of that
      file, and the entry in any case. */
  lemma FileShareIsRemoved(t: Tables, user: Id, item: Id, shareId: Id)
    ensures var t' := WithoutFileShare(t, user, item, shareId);
            && t'.folders == t.folders && shareId !in t'.sharing && SameBut(t.sharing, t'.sharing, {shareId})
            && (forall z :: z in t'.files <==>
                  (z in t.files
                   && (shareId in t.sharing && t.sharing[shareId].item == item && t.sharing[shareId].owner == user ==>
                         t.files[z].refId != item || t.files[z].owner != t.sharing[shareId].recipient)))
            && (forall z :: z in t'.files ==> t'.files[z] == t.files[z])
  {
  }

  /** A user gives up a row of a file: row and entries go, and nothing else. */
  lemma FileIsLeft(t: Tables, id: Id, user: Id)
    ensures var t' := LeaveFile(t, id, user);
            if id !in t.files || t.files[id].owner != user then t' == t
            else
              && id !in t'.files && SameBut(t.files, t'.files, {id}) && t'.folders == t.folders
              && forall s :: s in t'.sharing <==>
                   s in t.sharing && !(t.sharing[s].item == t.files[id].refId && t.sharing[s].recipient == user)
    ensures var t' := LeaveFile(t, id, user);
            forall s :: s in t'.sharing ==> s in t.sharing && t'.sharing[s] == t.sharing[s]
  {
  }

  /** A finished upload sets the length of the file's own row, an edit the kind of all its rows. */
  lemma FileIsUpdated(t: Tables, id: Id, length: int, pw: bool)
    ensures var t' := Finished(t, id, length);
            && t'.folders == t.folders && t'.sharing == t.sharing && t'.files.Keys == t.files.Keys
            && SameBut(t.files, t'.files, {id})
            && (id in t.files ==> t'.files[id].length == length && t'.files[id] == t.files[id].(length := t'.files[id].length))
    ensures var files := SetKind(t.files, id, pw);
            && files.Keys == t.files.Keys
            && forall z :: z in files ==>
                 && files[z].pw == (if t.files[z].refId == id then pw else t.files[z].pw)
                 && files[z] == t.files[z].(pw := files[z].pw)
  {
  }

  // ----- Deletion

  /** A deletion that succeeds takes every row and every entry that refers to a folder of the subtree or
      to a file in it, and leaves all others as they are. */
  lemma DeletionIsExact(t: Tables, now: Tables, top: Id, pw: bool, r: Result<int, Error>, user: Id)
    requires Acyclic(t.folders) && TreeOutcome(t, now, top, pw, r, user) && r.Ok?
    ensures var all := Subtree(t.folders, top, {pw}); var files := FilesIn(t, all, {pw});
            && (forall x :: x in now.folders <==> x in t.folders && t.folders[x].refId !in all)
            && (forall x :: x in now.folders ==> now.folders[x] == t.folders[x])
            && (forall z :: z in now.files <==> z in t.files && t.files[z].refId !in files)
            && (forall z :: z in now.files ==> now.files[z] == t.files[z])
            && (forall s :: s in now.sharing <==> s in t.sharing && t.sharing[s].item !in all && t.sharing[s].item !in files)
            && (forall s :: s in now.sharing ==> now.sharing[s] == t.sharing[s])
  {
    hide Subtree, FilesIn;
  }
}
