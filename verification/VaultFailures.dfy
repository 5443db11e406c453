/** Concrete tables in which requests that the server accepts go wrong. */
module VaultFailures {
  import opened Results
  import opened Tables
  import opened Ownership
  import opened VaultOps
  import opened VaultInvariant
  import opened FolderDelete
  import opened FileCopies

  const NOTHING := Tables(map[], map[], map[])

  /** Users a and b with their root folders. */
  function TwoUsers(): Tables {
    NewRoot(NewRoot(NOTHING, "a", Rsa("a", 1)), "b", Rsa("b", 2))
  }

  lemma TwoUsersAreConsistent()
    ensures Consistent(TwoUsers())
  {
    assert Ranked(map[], map[]);
    NewRootKeeps(NOTHING, "a", Rsa("a", 1));
    NewRootKeeps(NewRoot(NOTHING, "a", Rsa("a", 1)), "b", Rsa("b", 2));
  }

  /** Folders f and g of user a. */
  function TwoFolders(): Tables {
    var t := TwoUsers();
    t.(folders := t.folders["f" := Folder("f", "a", "a", Rsa("a", 3), "", true, false)]
                           ["g" := Folder("g", "a", "a", Rsa("a", 4), "", true, false)])
  }

  lemma FolderBelowRoot(t: Tables, id: Id, key: Wrapped)
    requires Consistent(t) && Fresh(t, id) && IsRoot(t.folders, "a")
    ensures Consistent(t.(folders := t.folders[id := Folder(id, "a", "a", key, "", true, false)]))
  {
    assert IsRoot(t.folders, "a") && "" !in t.folders;
    NewFolderKeepsIff(t, "a", "", key, "", false, id);
  }

  lemma TwoFoldersAreConsistent()
    ensures Consistent(TwoFolders())
  {
    TwoUsersAreConsistent();
    hide Consistent;
    var t := TwoUsers();
    FolderBelowRoot(t, "f", Rsa("a", 3));
    FolderBelowRoot(t.(folders := t.folders["f" := Folder("f", "a", "a", Rsa("a", 3), "", true, false)]), "g", Rsa("a", 4));
  }

  lemma OwnRow(f: Folders, id: Id)
    requires WellFormed(f) && IsOriginal(f, id) && f[id].owner == "a"
    ensures HasRow(f, id, "a") && RowOf(f, id, "a") == id
  {
  }

  /** Folder f is shared with user b: entry s, reference r. */
  function Shared(): Tables {
    var t := TwoFolders();
    t.(folders := t.folders["r" := Folder("f", "b", "b", Rsa("b", 3), "", true, false)],
       sharing := map["s" := Share("a", "b", "f", true, true)])
  }

  lemma SharingSucceeds()
    requires WellFormed(TwoFolders().folders)
    ensures ShareFolder(TwoFolders(), "f", "a", "b", Rsa("b", 3), true, "r", "s") == Ok(Shared())
  {
    hide WellFormed;
    OwnRow(TwoFolders().folders, "f");
  }

  lemma NewIdentifiers()
    ensures Fresh(TwoFolders(), "r") && Fresh(TwoFolders(), "s")
  {
  }

  lemma SharedIsConsistent()
    ensures Consistent(Shared())
  {
    TwoFoldersAreConsistent();
    SharingSucceeds();
    NewIdentifiers();
    hide Consistent, TwoFolders, Shared, ShareFolder, Fresh;
    ShareFolderKeeps(TwoFolders(), "f", "a", "b", Rsa("b", 3), true, "r", "s");
  }

  lemma SharedRows()
    ensures var f := Shared().folders;
            && IsShareRow(f, "r") && f["r"].owner == "b" && f["r"].refId == "f" && IsRoot(f, "b") && Fresh(Shared(), "n")
            && IsOriginal(f, "f") && f["f"].owner == "a"
  {
  }

  /** User b creates a folder below the reference r instead of f: the request succeeds, and the new
      folder is outside of every tree. */
  lemma ReferenceAsParent()
    ensures Consistent(Shared())
    ensures var r := NewFolder(Shared(), "b", "r", Rsa("b", 5), "", false, "n");
            r.Ok? && !Consistent(r.value)
  {
    hide Shared, Corresponds, EntriesApart, SameNames, NoOrphans, WellFormed, Acyclic;
    SharedIsConsistent();
    SharedRows();
    NewFolderKeepsIff(Shared(), "b", "r", Rsa("b", 5), "", false, "n");
  }

  /** User a removes share s of folder f in the name of folder g: the entry goes, the row r stays, and
      b keeps the access. */
  lemma MismatchedShare()
    ensures Consistent(Shared())
    ensures var r := RemoveShare(Shared(), "a", "g", "s");
            r.Ok? && !Consistent(r.value) && "r" in r.value.folders && r.value.sharing == map[]
  {
    SharedIsConsistent();
    var t := Shared();
    OwnRow(t.folders, "g");
    RemoveShareKeepsIff(t, "a", "g", "s");
  }

  /** User a deletes folder f in the way in which b would give up the share: the folder's own row goes. */
  lemma OwnFolderLeft()
    ensures Consistent(Shared()) && !Consistent(LeaveShare(Shared(), "f", "a"))
  {
    SharedRows();
    SharedIsConsistent();
    hide Shared, Consistent, LeaveShare;
    LeaveShareKeepsIff(Shared(), "f", "a");
  }

  /** The same tables with a file y of user a in folder f. */
  function WithFile(): Tables {
    Shared().(files := map["y" := File("y", "a", "f", 128, 1, true, false)])
  }

  lemma WithFileRows()
    ensures var t := WithFile();
            && t.folders == Shared().folders && t.sharing == Shared().sharing && "s" in t.sharing && t.sharing["s"].isFolder
            && t.sharing.Keys == {"s"} && IsHit(t.files, "y", "a", "y") && t.files["y"].folder == "f"
  {
    assert FileRows(WithFile().files, "y") == {"y"};
  }

  /** User a names share s of folder f to the endpoint for files: the entry goes, b's row stays. */
  lemma FolderShareAsFileShare()
    ensures var t := WithFile();
            && Consistent(t) && WellFormed(t.folders) && Acyclic(t.folders) && FileEdits(t, "y", "a", true)
            && !Consistent(WithoutFileShare(t, "a", "y", "s"))
  {
    var t := WithFile();
    SharedIsConsistent();
    WithFileRows();
    SharedRows();
    hide Shared, WithFile, WithoutFileShare, Corresponds, EntriesApart, NoOrphans, SameNames, WellFormed, Acyclic;
    FilesOnly(Shared(), t);
    OwnerReaches(t.folders, "f");
    assert Allows(t, "y", "a", "y");
    FileUnshareKeepsIff(t, "a", "y", "s");
  }

  /** The share lets b read only. */
  function ReadOnlyShare(): Tables {
    EditEntry(Shared(), "a", "s", false)
  }

  lemma ReadOnlyRow()
    ensures var f := ReadOnlyShare().folders;
            && "r" in f && f["r"].refId == "f" && f["r"].owner == "b" && !f["r"].canModify
            && IsOriginal(f, "f") && f["f"].owner == "a"
  {
  }

  lemma ReadOnlyReaches()
    ensures Consistent(ReadOnlyShare())
    ensures var f := ReadOnlyShare().folders;
            && WellFormed(f) && Acyclic(f)
            && CheckFolderOwnership(f, "b", "f").Ok? && !CheckFolderOwnership(f, "b", "f").value.canModify
  {
    var f := ReadOnlyShare().folders;
    SharedIsConsistent();
    EditEntryKeeps(Shared(), "a", "s", false);
    ReadOnlyRow();
    hide ReadOnlyShare, Shared, EditEntry, Corresponds, EntriesApart, NoOrphans, SameNames, Acyclic;
    assert "r" in f && f["r"].refId == "f" && f["r"].owner == "b";
    assert HasRow(f, "f", "b") && RowOf(f, "f", "b") == "r";
  }

  /** Then b may create folders in f, but not upload files. */
  lemma ReadOnlyCreatesFolders(key: Wrapped)
    ensures var t := ReadOnlyShare();
            && Consistent(t) && WellFormed(t.folders) && Acyclic(t.folders)
            && NewFolder(t, "b", "f", key, "", false, "n").Ok?
            && AddVaultItem(t, "b", "name", "f", 128, 1, false, "y") == Err(ReadOnly)
  {
    ReadOnlyReaches();
    ReadOnlyRow();
    hide ReadOnlyShare, Consistent, WellFormed, Acyclic, CheckFolderOwnership;
  }

  /** User b has uploaded file y into folder f. */
  function Uploaded(): Tables {
    Shared().(files := map["y" := File("y", "b", "f", 128, 1, true, false)])
  }

  /** User a, the owner of folder f, has then shared y with b, who gets the copy z in the root folder,
      while a has no row of y. */
  function Foreign(): Tables {
    var t := Shared();
    t.(files := map["y" := File("y", "b", "f", 128, 1, true, false), "z" := File("y", "b", "b", 128, 1, true, false)],
       sharing := t.sharing["v" := Share("a", "b", "y", false, true)])
  }

  lemma RowsOfF()
    ensures var f := Shared().folders;
            && WellFormed(f) && Acyclic(f)
            && CheckFolderOwnership(f, "b", "f").Ok? && CheckFolderOwnership(f, "b", "f").value.canModify
            && CheckFolderOwnership(f, "a", "f").Ok? && OwnsFolder(f, "f", "a")
  {
    var f := Shared().folders;
    SharedIsConsistent();
    OwnRow(f, "f");
    assert "r" in f && f["r"].refId == "f" && f["r"].owner == "b" && f["r"].canModify;
    assert HasRow(f, "f", "b") && RowOf(f, "f", "b") == "r";
  }

  /** The server accepts both requests. */
  lemma ForeignArises()
    ensures var (t, u) := (Shared(), Uploaded());
            && WellFormed(t.folders) && Acyclic(t.folders) && u.folders == t.folders
            && AddVaultItem(t, "b", "name", "f", 128, 1, false, "y") == Ok(u)
            && IsHit(u.files, "y", "a", "y") && OwnsFolder(u.folders, u.files["y"].folder, "a")
            && !IsSharedWith(u, "a", "y", "b") && Retrieves(u, "y", "a", "y")
            && Foreign() == WithCopy(u, "y", "a", "b", true, "z", "v", "y")
  {
    RowsOfF();
    var u := Uploaded();
    assert FileRows(u.files, "y") == {"y"};
    assert IsRead(u, "y", "a", "y", "y");
    hide WellFormed, Acyclic, CheckFolderOwnership, OwnsFolder;
    assert HasAccess(u, "y", "a", "y");
  }

  lemma ForeignTables()
    ensures Foreign().folders == Shared().folders && "y" !in Shared().folders
    ensures Shared().sharing.Keys == {"s"} && Shared().sharing["s"].isFolder
    ensures Foreign().sharing == Shared().sharing["v" := Share("a", "b", "y", false, true)]
  {
  }

  lemma ForeignIsConsistent()
    ensures Consistent(Foreign()) && FilesOk(Foreign())
  {
    var t := Foreign();
    assert IsRoot(t.folders, "b");
    assert FileOk(t, "y") && FileOk(t, "z");
    assert FilesOk(t);
    SharedIsConsistent();
    ForeignTables();
    hide FilesOk, Consistent, Foreign, Shared;
    FilesOnly(Shared(), t);
  }

  lemma ForeignIsOneKind()
    ensures WellFormed(Foreign().folders) && Acyclic(Foreign().folders)
    ensures OneKind(Foreign(), "f", false) && FilesIn(Foreign(), Subtree(Foreign().folders, "f", {false}), {false}) == {"y"}
  {
    ForeignLeaf();
    ForeignIsConsistent();
    var f := Foreign().folders;
    hide Subtree, Corresponds, NoOrphans, EntriesApart, SameNames, WellFormed, Acyclic, Foreign, FilesIn;
    NothingBelow(f, "f", {false});
    NothingBelow(f, "f", {true, false});
    assert Subtree(f, "f", {false}) == Subtree(f, "f", {true, false}) == {"f"};
  }

  lemma ForeignLeaf()
    ensures var t := Foreign();
            && FilesIn(t, {"f"}, {false}) == FilesIn(t, {"f"}, {true, false}) == {"y"} && !t.files["y"].pw
            && IsOriginal(t.folders, "f") && forall x :: x in t.folders ==> t.folders[x].parent != "f"
  {
  }

  /** A folder without subfolders is its own subtree. */
  lemma NothingBelow(f: Folders, top: Id, kinds: set<bool>)
    requires Acyclic(f) && IsOriginal(f, top) && forall x :: x in f ==> f[x].parent != top
    ensures Subtree(f, top, kinds) == {top}
  {
    forall x | x in f && Under(f, x, top, kinds)
      ensures x == top
    {
      OnlyTop(f, x, top, kinds);
    }
  }

  lemma {:induction false} OnlyTop(f: Folders, x: Id, top: Id, kinds: set<bool>)
    requires Acyclic(f) && Under(f, x, top, kinds) && forall z :: z in f ==> f[z].parent != top
    ensures x == top
    decreases Height(f, x)
  {
    if x == top {
    } else {
      OnlyTop(f, f[x].parent, top, kinds);
    }
  }

  /** Then user a cannot delete folder f: any outcome is an error. */
  lemma ForeignFileSticks(now: Tables, r: Result<int, Error>)
    ensures WellFormed(Foreign().folders) && Acyclic(Foreign().folders)
    ensures OwnsBelowRoot(Foreign().folders, "f", "a") && OneKind(Foreign(), "f", false)
    ensures TreeOutcome(Foreign(), now, "f", false, r, "a") ==> r.Err?
  {
    ForeignIsOneKind();
    NobodysRow();
    hide Subtree, Resolvable, TreeOutcome, WellFormed, Acyclic, OneKind, FilesIn;
    if TreeOutcome(Foreign(), now, "f", false, r, "a") {
      UnresolvableFails(Foreign(), now, "f", false, r, "a", "y");
    }
  }

  lemma NobodysRow()
    ensures !Resolvable(Foreign(), "y", "a")
  {
    assert FileRows(Foreign().files, "y") == {"y", "z"};
  }

  /** User a's own file y in folder f, shared by a with a for reading only. */
  function SelfShared(): Tables {
    var t := TwoFolders();
    t.(files := map["y" := File("y", "a", "f", 128, 1, true, false), "z" := File("y", "a", "a", 128, 1, false, false)],
       sharing := map["v" := Share("a", "a", "y", false, false)])
  }

  /** The server accepts the request: ShareFile does not look whether the recipient is the owner. */
  lemma SelfSharedArises()
    ensures var u := TwoFolders().(files := map["y" := File("y", "a", "f", 128, 1, true, false)]);
            && WellFormed(u.folders) && Acyclic(u.folders)
            && IsHit(u.files, "y", "a", "y") && OwnsFolder(u.folders, u.files["y"].folder, "a")
            && !IsSharedWith(u, "a", "y", "a") && Retrieves(u, "y", "a", "y")
            && SelfShared() == WithCopy(u, "y", "a", "a", false, "z", "v", "y")
  {
    var u := TwoFolders().(files := map["y" := File("y", "a", "f", 128, 1, true, false)]);
    SelfReaches();
    OwnRow(u.folders, "f");
    assert FileRows(u.files, "y") == {"y"};
    assert IsRead(u, "y", "a", "y", "y");
    hide WellFormed, Acyclic, CheckFolderOwnership;
    assert HasAccess(u, "y", "a", "y");
  }

  lemma SelfRows()
    ensures var files := SelfShared().files;
            && FileRowsOf(files, "y", "a") == {"y", "z"}
            && IsHit(files, "y", "a", "y") && IsHit(files, "y", "a", "z")
            && files["y"].canModify && !files["z"].canModify && files["y"].folder == "f" && files["z"].folder == "a"
  {
  }

  lemma SelfReaches()
    ensures var f := SelfShared().folders;
            && WellFormed(f) && Acyclic(f)
            && CheckFolderOwnership(f, "a", "f").Ok? && CheckFolderOwnership(f, "a", "f").value.canModify
  {
    var f := SelfShared().folders;
    assert IsOriginal(f, "f") && f["f"].owner == "a";
    TwoFoldersAreConsistent();
    assert f == TwoFolders().folders;
    hide SelfShared, TwoFolders, WellFormed, Acyclic, CheckFolderOwnership;
    OwnerReaches(f, "f");
  }

  /** Whether a may then edit or delete y depends on the row that the queries return first. */
  lemma SelfShareIsAmbiguous()
    ensures WellFormed(SelfShared().folders) && Acyclic(SelfShared().folders)
    ensures FileEdits(SelfShared(), "y", "a", true) && FileEdits(SelfShared(), "y", "a", false)
    ensures Resolvable(SelfShared(), "y", "a") && !Deletable(SelfShared(), "y", "a")
  {
    var t := SelfShared();
    SelfRows();
    SelfReaches();
    hide SelfShared, WellFormed, Acyclic, IsHit, FileRowsOf, CheckFolderOwnership;
    assert Allows(t, "y", "a", "y");
    assert Refuses(t, "y", "a", "z");
  }

  /** User b, who may only read folder f, deletes user a's file y in it: whatever the order of the rows,
      the request fails and the stored object is lost. */
  lemma ReaderLosesObject(r: Result<int, Error>, erased: bool)
    ensures var t := ReadOnlyShare().(files := WithFile().files);
            && WellFormed(t.folders) && Acyclic(t.folders)
            && (Deletes(t, "y", "b", r, erased) ==> r.Err? && erased)
  {
    var t := ReadOnlyShare().(files := WithFile().files);
    ReadOnlyReaches();
    WithFileRows();
    assert FileRows(t.files, "y") == {"y"};
    hide ReadOnlyShare, WithFile, Consistent, WellFormed, Acyclic, CheckFolderOwnership, Deletes;
    if Deletes(t, "y", "b", r, erased) {
      ErasedInVainIff(t, "y", "b", r, erased);
    }
  }

  /** A file y of user a in folder f with the copy z of user b; there is also a user c. */
  function CopiedOnce(): Tables {
    NewRoot(TwoFolders(), "c", Rsa("c", 6)).(
      files := map["y" := File("y", "a", "f", 128, 1, true, false), "z" := File("y", "b", "b", 128, 1, true, false)],
      sharing := map["v" := Share("a", "b", "y", false, true)])
  }

  lemma ThreeUsersAreConsistent()
    ensures Consistent(NewRoot(TwoFolders(), "c", Rsa("c", 6)))
  {
    TwoFoldersAreConsistent();
    hide Consistent;
    NewRootKeeps(TwoFolders(), "c", Rsa("c", 6));
  }

  lemma ThreeUsersRows()
    ensures var f := CopiedOnce().folders;
            && f == NewRoot(TwoFolders(), "c", Rsa("c", 6)).folders
            && IsRoot(f, "c") && IsOriginal(f, "f") && f["f"].owner == "a"
  {
  }

  lemma CopiedOnceIsFlat()
    ensures Flat(CopiedOnce())
  {
    var files := CopiedOnce().files;
    assert IsFlat(files, "y") && IsFlat(files, "z");
  }

  lemma CopiedOnceIsSound()
    ensures var t := CopiedOnce();
            && WellFormed(t.folders) && Acyclic(t.folders) && IsRoot(t.folders, "c")
            && OwnsFolder(t.folders, "f", "a") && CheckFolderOwnership(t.folders, "a", "f").Ok?
  {
    var f := CopiedOnce().folders;
    ThreeUsersAreConsistent();
    ThreeUsersRows();
    hide CopiedOnce, TwoFolders, NewRoot;
    OwnRow(f, "f");
  }

  lemma CopiedRows()
    ensures var files := CopiedOnce().files;
            && FileRows(files, "y") == {"y", "z"} && FileRowsOf(files, "y", "a") == {"y"}
            && files["y"].owner == "a" && files["y"].folder == "f" && files["z"].refId == "y" && files["z"].owner == "b"
  {
  }

  /** User a shares y once more, with c. The server may read row z for that, and then deleting y leaves
      c's row, which refers to z, without y, z and the sharing entry. */
  lemma SecondShareCopiesCopy()
    ensures var t := CopiedOnce();
            && WellFormed(t.folders) && Acyclic(t.folders) && Flat(t)
            && IsHit(t.files, "y", "a", "y") && OwnsFolder(t.folders, t.files["y"].folder, "a")
            && !IsSharedWith(t, "a", "y", "c") && Retrieves(t, "y", "a", "z")
            && var u := WithCopy(t, "y", "a", "c", true, "w", "u", "z");
               var now := Drop(u, {}, {"y"});
               !Flat(u) && Deletable(u, "y", "a") && now.files.Keys == {"w"} && now.files["w"].refId == "z" && now.sharing == map[]
  {
    var t := CopiedOnce();
    CopiedOnceIsSound();
    CopiedOnceIsFlat();
    CopiedRows();
    assert IsRead(t, "y", "a", "y", "z");
    hide WellFormed, Acyclic, CheckFolderOwnership, OwnsFolder, Flat;
    assert HasAccess(t, "y", "a", "y");
    AfterSecondShare();
  }

  lemma AfterSecondShare()
    ensures var u := WithCopy(CopiedOnce(), "y", "a", "c", true, "w", "u", "z");
            var now := Drop(u, {}, {"y"});
            !Flat(u) && Deletable(u, "y", "a") && now.files.Keys == {"w"} && now.files["w"].refId == "z" && now.sharing == map[]
  {
    var u := WithCopy(CopiedOnce(), "y", "a", "c", true, "w", "u", "z");
    assert u.files["w"].refId == "z" && u.files["z"].refId == "y";
    assert !IsFlat(u.files, "w");
    assert FileRows(u.files, "y") == {"y", "z"};
    assert IsHit(u.files, "y", "a", "y");
    assert forall z :: IsHit(u.files, "y", "a", z) ==> z == "y";
  }
}
