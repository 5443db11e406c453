/** The vault tables as the server changes them, one statement after another. */
module VaultDb {
  import opened Results
  import opened Tables
  import opened Ownership
  import opened VaultOps
  import opened VaultInvariant
  import opened FolderDelete
  import opened FileAccess

  class Db {
    var folders: Folders
    var files: map<Id, File>
    var sharing: map<Id, Share>

    ghost function T(): Tables
      reads this
    {
      Tables(folders, files, sharing)
    }

    // ----- backend/db/folders.go

    method NewFolder(user: Id, parentId: Id, key: Wrapped, name: string, pw: bool, id: Id)
      returns (r: Result<Id, Error>)
      requires WellFormed(folders) && Acyclic(folders)
      modifies this
      ensures match VaultOps.NewFolder(old(T()), user, parentId, key, name, pw, id)
              case Ok(t) => r == Ok(id) && T() == t
              case Err(e) => r == Err(e) && T() == old(T())
    {
      var parent, owner := parentId, user;
      if parentId == "" {
        parent := user;
      } else {
        if parentId !in folders {
          return Err(NotFound);
        }
        var parentOwner := folders[parentId].owner;
        if parentOwner != user {
          var own := CheckFolderOwnership(folders, user, parentId);
          if own.Err? {
            return Err(NotFound);
          }
        }
        owner := parentOwner;
      }
      folders := folders[id := Folder(id, owner, parent, key, name, true, pw)];
      r := Ok(id);
    }

    method ShareFolder(item: Id, user: Id, recipient: Id, key: Wrapped, canModify: bool, id: Id, shareId: Id)
      returns (r: Result<Id, Error>)
      requires WellFormed(folders)
      modifies this
      ensures match VaultOps.ShareFolder(old(T()), item, user, recipient, key, canModify, id, shareId)
              case Ok(t) => r == Ok(shareId) && T() == t
              case Err(e) => r == Err(e) && T() == old(T())
    {
      if !IsRoot(folders, recipient) {
        return Err(BadRecipient);
      }
      if item == user {
        return Err(RootShare);
      } else if recipient == "" {
        return Err(BadRecipient);
      } else if recipient == user {
        return Err(SelfShare);
      }
      var own := GetFolderOwnership(folders, item, user);
      if own.Err? {
        return Err(own.error);
      } else if !own.value.isOwner {
        return Err(NotOwner);
      }
      if IsSharedWith(Tables(folders, files, sharing), user, item, recipient) {
        return Err(AlreadyShared);
      }
      folders := folders[id := Folder(item, recipient, recipient, key, folders[item].name, canModify, folders[item].pw)];
      sharing := sharing[shareId := Share(user, recipient, item, true, canModify)];
      r := Ok(shareId);
    }

    method UpdateVaultFolderName(user: Id, id: Id, name: string) returns (r: Result<(), Error>)
      requires WellFormed(folders) && Acyclic(folders)
      modifies this`folders
      ensures match VaultOps.Rename(old(T()), user, id, name)
              case Ok(t) => r.Ok? && T() == t
              case Err(e) => r == Err(e) && T() == old(T())
    {
      var own := CheckFolderOwnership(folders, user, id);
      if own.Err? {
        return Err(own.error);
      } else if !own.value.canModify {
        return Err(ReadOnly);
      }
      folders := map x | x in folders ::
        if folders[x].refId == id then folders[x].(name := name) else folders[x];
      r := Ok(());
    }

    method DeleteSharedFolder(id: Id, user: Id)
      modifies this
      ensures T() == VaultOps.LeaveShare(old(T()), id, user)
    {
      if id in folders && folders[id].owner == user {
        var refId := folders[id].refId;
        folders := folders - {id};
        sharing := sharing - EntriesOf(sharing, refId, user);
      }
    }

    // ----- backend/db/sharing.go

    method ModifyShare(user: Id, shareId: Id, item: Id, canModify: bool, isFolder: bool) returns (r: Result<(), Error>)
      requires WellFormed(folders) && Acyclic(folders)
      modifies this
      ensures isFolder ==>
                match VaultOps.ModifyShare(old(T()), user, shareId, item, canModify)
                case Ok(t) => r.Ok? && T() == t
                case Err(e) => r == Err(e) && T() == old(T())
      ensures !isFolder ==>
                if r.Ok? then FileEdits(old(T()), item, user, true) && T() == EditEntry(old(T()), user, shareId, canModify)
                else FileEdits(old(T()), item, user, false) && T() == old(T())
    {
      var refused := CanEditItem(item, user, isFolder);
      if refused.Some? {
        return Err(refused.value);
      }
      if shareId in sharing && sharing[shareId].owner == user {
        var e := sharing[shareId].(canModify := canModify);
        sharing := sharing[shareId := e];
        if e.isFolder {
          folders := SetFolderPermission(folders, e.item, e.recipient, canModify);
        } else {
          files := SetFilePermission(files, e.item, e.recipient, canModify);
        }
      }
      r := Ok(());
    }

    method RemoveShare(user: Id, item: Id, shareId: Id, isFolder: bool) returns (r: Result<(), Error>)
      requires WellFormed(folders) && Acyclic(folders)
      modifies this
      ensures isFolder ==>
                match VaultOps.RemoveShare(old(T()), user, item, shareId)
                case Ok(t) => r.Ok? && T() == t
                case Err(e) => r == Err(e) && T() == old(T())
      ensures !isFolder ==>
                if r.Ok? then FileEdits(old(T()), item, user, true) && T() == WithoutFileShare(old(T()), user, item, shareId)
                else FileEdits(old(T()), item, user, false) && T() == old(T())
    {
      var refused := CanEditItem(item, user, isFolder);
      if refused.Some? {
        return Err(refused.value);
      }
      if shareId in sharing && sharing[shareId].item == item && sharing[shareId].owner == user {
        var recipient := sharing[shareId].recipient;
        if isFolder {
          folders := folders - RowsOf(folders, item, recipient);
        } else {
          files := files - FileRowsOf(files, item, recipient);
        }
      } else {
        assert folders - {} == folders && files - {} == files;
      }
      sharing := sharing - {shareId};
      r := Ok(());
    }

    /** UserCanEditItem */
    method CanEditItem(item: Id, user: Id, isFolder: bool) returns (r: Option<Error>)
      requires WellFormed(folders) && Acyclic(folders)
      ensures isFolder ==> r == CanEditFolder(folders, item, user)
      ensures !isFolder ==> FileEdits(T(), item, user, r.None?)
    {
      if isFolder {
        r := CanEditFolder(folders, item, user);
      } else {
        r := CanEditFile(item, user);
      }
    }

    method RemoveShareEntryByItemID(item: Id)
      modifies this`sharing
      ensures T() == old(T()).(sharing := map s | s in old(sharing) && old(sharing)[s].item != item :: old(sharing)[s])
    {
      sharing := map s | s in sharing && sharing[s].item != item :: sharing[s];
    }

    // ----- backend/db/vault.go

    /** The folder of the only row of a file, or of a row of the user when there are several. */
    method GetFileFolderID(file: Id, user: Id) returns (r: Result<Id, Error>)
      ensures r.Ok? ==> exists z :: IsHit(files, file, user, z) && r.value == files[z].folder
      ensures r.Err? ==> forall z :: !IsHit(files, file, user, z)
    {
      var rows := FileRows(files, file);
      var hits := set z | z in rows && (|rows| == 1 || files[z].owner == user);
      forall z | z in rows
        ensures |rows| == 1 <==> rows == {z}
      {
        if |rows| == 1 {
          assert |rows - {z}| == 0;
        }
      }
      if hits == {} {
        assert forall z :: z in rows ==> z !in hits;
        r := Err(NotFound);
      } else {
        var z :| z in hits;
        r := Ok(files[z].folder);
      }
    }

    /** GetFileOwnership: false also when the user has no row. */
    method FileCanModify(file: Id, user: Id) returns (r: bool)
      ensures r ==> exists z :: z in FileRowsOf(files, file, user) && files[z].canModify
      ensures !r ==> FileRowsOf(files, file, user) == {} || exists z :: z in FileRowsOf(files, file, user) && !files[z].canModify
    {
      var rows := FileRowsOf(files, file, user);
      if rows == {} {
        return false;
      }
      var z :| z in rows;
      r := files[z].canModify;
    }

    /** What makes UserCanEditItem allow or refuse a file is stated by FileEdits. */
    method CanEditFile(file: Id, user: Id) returns (r: Option<Error>)
      requires WellFormed(folders) && Acyclic(folders)
      ensures FileEdits(T(), file, user, r.None?)
      ensures Consistent(T()) ==> if r.None? then MayEdit(T(), file, user) else MayNotEdit(T(), file, user)
    {
      if Consistent(T()) {
        EditsWhatIsAllowed(T(), file, user);
      }
      hide Consistent, MayEdit, MayNotEdit;
      var folder := GetFileFolderID(file, user);
      if folder.Err? {
        return Some(folder.error);
      }
      ghost var z :| IsHit(files, file, user, z) && folder.value == files[z].folder;
      if folder.value == user {
        var canModify := FileCanModify(file, user);
        if !canModify {
          assert Refuses(T(), file, user, z);
          return Some(ReadOnly);
        }
      }
      var own := CheckFolderOwnership(folders, user, folder.value);
      if own.Err? {
        assert Refuses(T(), file, user, z);
        return Some(own.error);
      } else if !own.value.canModify {
        assert Refuses(T(), file, user, z);
        return Some(ReadOnly);
      }
      assert Allows(T(), file, user, z);
      r := None;
    }

    /** RetrieveVaultMetadata, as far as it is used: the row that has been read. */
    method RetrieveVaultMetadata(file: Id, user: Id) returns (r: Result<Id, Error>)
      requires WellFormed(folders) && Acyclic(folders)
      ensures r.Ok? ==> Retrieves(T(), file, user, r.value)
      ensures r.Err? ==> FailsToRetrieve(T(), file, user)
      ensures Consistent(T()) ==>
                if r.Ok? then MayRead(T(), file, user) && r.value in files && files[r.value].refId == file
                else MayNotRead(T(), file, user)
    {
      if Consistent(T()) {
        ReadsWhatIsOpen(T(), file, user);
      }
      hide Consistent, MayRead, MayNotRead;
      var folder := GetFileFolderID(file, user);
      if folder.Err? {
        return Err(NotFound);
      }
      ghost var at :| IsHit(files, file, user, at) && folder.value == files[at].folder;
      if folder.value == "" {
        return Err(NotFound);
      }
      var own := CheckFolderOwnership(folders, user, folder.value);
      if own.Err? {
        if !IsSharedWith(Tables(folders, files, sharing), folder.value, file, user) {
          return Err(Access);
        }
      }
      var rows := set z | z in FileRows(files, file) && (folder.value != user || files[z].owner == user);
      if rows == {} {
        assert forall z :: IsRead(T(), file, user, at, z) ==> z in rows;
        return Err(NotFound);
      }
      var z :| z in rows;
      assert IsRead(T(), file, user, at, z);
      r := Ok(z);
    }

    /** ShareFile. There is no check that the recipient is another user, nor that the upload is
        complete, and the copy refers to the row that was read, whichever that is. */
    method ShareFile(item: Id, user: Id, recipient: Id, canModify: bool, id: Id, shareId: Id) returns (r: Result<Id, Error>)
      requires WellFormed(folders) && Acyclic(folders)
      modifies this`files, this`sharing
      ensures r.Ok? ==>
                && IsRoot(folders, recipient) && !IsSharedWith(old(T()), user, item, recipient)
                && (exists at :: IsHit(old(files), item, user, at) && OwnsFolder(folders, old(files)[at].folder, user))
                && exists from :: Retrieves(old(T()), item, user, from)
                                  && T() == WithCopy(old(T()), item, user, recipient, canModify, id, shareId, from)
      ensures r.Err? ==>
                && T() == old(T())
                && (!IsRoot(folders, recipient) || recipient == "" || IsSharedWith(T(), user, item, recipient)
                    || FailsToRetrieve(T(), item, user)
                    || exists at :: IsHit(files, item, user, at) && !OwnsFolder(folders, files[at].folder, user))
    {
      if !IsRoot(folders, recipient) || recipient == "" {
        return Err(BadRecipient);
      }
      var folder := GetFileFolderID(item, user);
      if folder.Err? {
        return Err(folder.error);
      }
      var own := GetFolderOwnership(folders, folder.value, user);
      if own.Err? {
        return Err(own.error);
      } else if !own.value.isOwner {
        return Err(NotOwner);
      }
      if IsSharedWith(Tables(folders, files, sharing), user, item, recipient) {
        return Err(AlreadyShared);
      }
      var from := RetrieveVaultMetadata(item, user);
      if from.Err? {
        return Err(from.error);
      }
      var row := files[from.value];
      files := files[id := File(from.value, recipient, recipient, row.length, row.chunks, canModify, row.pw)];
      sharing := sharing[shareId := Share(user, recipient, item, false, canModify)];
      r := Ok(shareId);
    }

    /** UpdateVaultFile, for its password data. */
    method UpdateVaultFile(id: Id, user: Id, pw: bool) returns (r: Result<(), Error>)
      requires WellFormed(folders) && Acyclic(folders)
      modifies this`files
      ensures if r.Ok? then FileEdits(old(T()), id, user, true) && T() == old(T()).(files := SetKind(old(files), id, pw))
              else FileEdits(old(T()), id, user, false) && T() == old(T())
    {
      var refused := CanEditFile(id, user);
      if refused.Some? {
        return Err(refused.value);
      }
      files := map z | z in files :: if files[z].refId == id then files[z].(pw := pw) else files[z];
      r := Ok(());
    }

    /** UpdateMetadata when an upload is finished: copies made before keep their length. */
    method UpdateMetadata(id: Id, length: int)
      modifies this`files
      ensures T() == Finished(old(T()), id, length)
    {
      if id in files {
        files := files[id := files[id].(length := length)];
      }
    }

    method DeleteSharedFile(id: Id, user: Id)
      modifies this`files, this`sharing
      ensures T() == LeaveFile(old(T()), id, user)
    {
      if id in files && files[id].owner == user {
        var refId := files[id].refId;
        files := files - {id};
        sharing := sharing - EntriesOf(sharing, refId, user);
      }
    }

    /** deleteVaultFile without the storage meter, which StorageMeter models. `erased` tells whether the
        stored object has been deleted, which comes before the question whether the user may edit. */
    method DeleteVaultFile(id: Id, user: Id, isShared: bool) returns (r: Result<int, Error>, erased: bool)
      requires WellFormed(folders) && Acyclic(folders) && FilesOk(T())
      modifies this`files, this`sharing
      ensures Smaller(old(T()), T()) && FilesOk(T())
      ensures isShared ==> T() == LeaveFile(old(T()), id, user) && r == Ok(0) && !erased
      ensures !isShared ==> T() == if r.Ok? then Drop(old(T()), {}, {id}) else old(T())
      ensures !isShared ==> Deletes(old(T()), id, user, r, erased)
      ensures !isShared && id in old(files) && old(files)[id].refId == id && LiesIn(old(T()), id, user) ==>
                FileOutcome(old(T()), T(), id, r, user)
    {
      if isShared {
        DeleteSharedFile(id, user);
        r, erased := Ok(0), false;
      } else {
        r, erased := DeleteOwnFile(id, user);
      }
      CopiesStill(old(T()), T());
    }

    /** The part for a file that is not a copy. */
    method DeleteOwnFile(id: Id, user: Id) returns (r: Result<int, Error>, erased: bool)
      requires WellFormed(folders) && Acyclic(folders) && FilesOk(T())
      modifies this`files, this`sharing
      ensures Smaller(old(T()), T())
      ensures T() == if r.Ok? then Drop(old(T()), {}, {id}) else old(T())
      ensures Deletes(old(T()), id, user, r, erased)
      ensures id in old(files) && old(files)[id].refId == id && LiesIn(old(T()), id, user) ==>
                FileOutcome(old(T()), T(), id, r, user)
    {
      hide Retrieves, FailsToRetrieve, FileEdits, Deletable, Dropped, WellFormed, FilesOk, Acyclic, LiesIn;
      ghost var t := T();
      if id in files && files[id].refId == id && LiesIn(T(), id, user) {
        OwnersMayDelete(t, id, user);
      }
      SmallerSame(t);
      erased := false;
      var metadata := RetrieveVaultMetadata(id, user);
      if metadata.Err? {
        return Err(metadata.error), false;
      }
      erased := true;
      var refused := CanEditFile(id, user);
      if refused.Some? {
        return Err(refused.value), true;
      }
      FileIsDropped(t, id, user, metadata.value);
      var size := PlainSize(files[metadata.value]);
      DropFile(t, id);
      files := files - FileRows(files, id);
      RemoveShareEntryByItemID(id);
      r := Ok(size);
    }

    /** DeleteVaultFolder of backend/db: the rows of one folder. */
    method DeleteFolderRows(id: Id, user: Id, ghost rank: map<Id, nat>, ghost bound: nat) returns (r: Result<(), Error>)
      requires Sound(T(), rank, bound)
      modifies this
      ensures Smaller(old(T()), T()) && Bounded(folders, rank, bound)
      ensures id != user ==> Sound(T(), rank, bound)
      ensures r.Ok? <==> CheckFolderOwnership(old(folders), user, id).Ok?
                         && CheckFolderOwnership(old(folders), user, id).value.isOwner
      ensures OwnsBelowRoot(old(folders), id, user) ==> r.Ok?
      ensures T() == if r.Ok? then Drop(old(T()), {id}, {}) else old(T())
    {
      ghost var t := T();
      if OwnsBelowRoot(folders, id, user) {
        OwnerReaches(folders, id);
      }
      var own := CheckFolderOwnership(folders, user, id);
      if own.Err? {
        return Err(own.error);
      } else if !own.value.isOwner {
        return Err(NotOwner);
      }
      OnlyOwnRoot(folders, user, id);
      folders := map x | x in folders && folders[x].refId != id :: folders[x];
      if id != user {
        RowsGoneKeep(t.folders, folders, id);
      }
      // RemoveShareEntryByItemID, which the handler calls next
      RemoveShareEntryByItemID(id);
      DropFolder(t, id);
      RankedSmaller(t, T(), rank, bound);
      CopiesStill(t, T());
      r := Ok(());
    }

    /** GetVaultItems: the file rows of a folder of one kind; for a root folder, of both. */
    method GetVaultItems(id: Id, user: Id, passVault: bool) returns (r: Result<set<Id>, Error>)
      requires WellFormed(folders) && Acyclic(folders)
      ensures id == user ==> r == Ok(set z | z in files && files[z].folder == id && files[z].owner == user)
      ensures id != user ==>
                r == if CheckFolderOwnership(folders, user, id).Ok? then Ok(Items(files, id, passVault)) else Err(Access)
      ensures r.Ok? ==> r.value <= files.Keys
      ensures OwnsBelowRoot(folders, id, user) ==> r == Ok(Items(files, id, passVault))
    {
      if id == user {
        if OwnsBelowRoot(folders, id, user) {
          KidsAreBelow(folders, id, user);
        }
        return Ok(set z | z in files && files[z].folder == id && files[z].owner == user);
      }
      if OwnsBelowRoot(folders, id, user) {
        OwnerReaches(folders, id);
      }
      var own := CheckFolderOwnership(folders, user, id);
      if own.Err? {
        return Err(Access);
      }
      r := Ok(Items(files, id, passVault));
    }

    /** GetSubfolders: the folder rows below a folder of one kind; for a root folder, of both. */
    method GetSubfolders(id: Id, user: Id, passVault: bool, ghost rank: map<Id, nat>, ghost bound: nat)
      returns (r: Result<set<Id>, Error>)
      requires Sound(T(), rank, bound)
      ensures r.Ok? <==> CheckFolderOwnership(folders, user, id).Ok?
      ensures r.Ok? ==>
                r.value == set s | s in folders && folders[s].parent == id && (folders[s].pw == passVault || id == user)
      ensures r.Ok? ==> forall s :: s in r.value ==>
                          s in folders && s != user && 0 <= Steps(s, rank, bound) < Steps(id, rank, bound)
      ensures OwnsBelowRoot(folders, id, user) ==>
                && r == Ok(Kids(folders, id, passVault))
                && forall s :: s in r.value ==> folders[s].pw == passVault
    {
      if OwnsBelowRoot(folders, id, user) {
        KidsAreBelow(folders, id, user);
        OwnerReaches(folders, id);
      }
      var own := CheckFolderOwnership(folders, user, id);
      if own.Err? {
        return Err(own.error);
      }
      var rows := set s | s in folders && folders[s].parent == id && (folders[s].pw == passVault || id == user);
      forall s | s in rows
        ensures s != user && 0 <= Steps(s, rank, bound) < Steps(id, rank, bound)
      {
        NotTheUser(folders, user, id, s);
        StepsDecrease(folders, id, s, rank, bound);
      }
      assert OwnsBelowRoot(folders, id, user) ==> rows == Kids(folders, id, passVault);
      r := Ok(rows);
    }

    /** One file of the folder, as GetVaultItems returned its row. */
    method DeleteItem(y: Id, isShared: bool, user: Id, ghost t: Tables, ghost start: Tables, ghost id: Id,
                      ghost passVault: bool, ghost todo: set<Id>, ghost freed: int, ghost owns: bool)
      returns (r: Result<int, Error>)
      requires WellFormed(folders) && Acyclic(folders)
      requires y in todo && ItemsWalk(t, start, T(), id, passVault, todo, freed, owns, user)
      requires y in start.files && (isShared <==> start.files[y].refId != y)
      modifies this`files, this`sharing
      ensures r.Ok? ==> ItemsWalk(t, start, T(), id, passVault, todo - {y}, freed + r.value, owns, user)
      ensures r.Err? ==> Smaller(start, T()) && FilesOk(T())
      ensures r.Err? && owns ==> Acyclic(t.folders) && ItemsOutcome(t, T(), id, passVault, r, user)
    {
      ghost var mid := T();
      if owns {
        ItemLies(t, mid, id, FilesIn(t, {id}, {passVault}) - todo, y, passVault, freed, user);
      }
      var erased;
      r, erased := DeleteVaultFile(y, user, isShared);
      SmallerTrans(start, mid, T());
      WalkStep(t, start, mid, T(), id, passVault, todo, y, freed, r, owns, user);
    }

    /** These files of the folder, one after another. */
    method DeleteAll(items: set<Id>, freedBefore: int, user: Id, ghost t: Tables, ghost start: Tables, ghost id: Id,
                     ghost passVault: bool, ghost owns: bool)
      returns (r: Result<int, Error>)
      requires WellFormed(folders) && Acyclic(folders) && T() == start && items <= files.Keys
      requires ItemsWalk(t, start, T(), id, passVault, items, freedBefore, owns, user)
      modifies this`files, this`sharing
      ensures Smaller(start, T()) && FilesOk(T())
      ensures owns ==> Acyclic(t.folders) && ItemsOutcome(t, T(), id, passVault, r, user)
    {
      hide ItemsWalk, ItemsOutcome, Smaller, FilesOk, WellFormed, Acyclic;
      var snapshot := files;
      var todo := items;
      var freed := freedBefore;
      while todo != {}
        invariant todo <= items
        invariant ItemsWalk(t, start, T(), id, passVault, todo, freed, owns, user)
        decreases |todo|
      {
        var y :| y in todo;
        var f := DeleteItem(y, snapshot[y].refId != y, user, t, start, id, passVault, todo, freed, owns);
        if f.Err? {
          return Err(f.error);
        }
        todo := todo - {y};
        freed := freed + f.value;
      }
      WalkEnds(t, start, T(), id, passVault, freed, owns, user);
      r := Ok(freed);
    }

    /** The files of a folder. `t` is the state before the subfolders went. */
    method DeleteItems(id: Id, user: Id, passVault: bool, freedBefore: int, ghost t: Tables,
                       ghost rank: map<Id, nat>, ghost bound: nat)
      returns (r: Result<int, Error>)
      requires Sound(T(), rank, bound) && Sound(t, rank, bound)
      modifies this`files, this`sharing
      ensures Smaller(old(T()), T()) && Sound(T(), rank, bound) && folders == old(folders)
      ensures OwnsBelowRoot(t.folders, id, user) && KidsOutcome(t, old(T()), id, passVault, Ok(freedBefore), user) ==>
                ItemsOutcome(t, T(), id, passVault, r, user)
    {
      hide ItemsWalk, ItemsOutcome, Stuck;
      ghost var start := T();
      ghost var owns := OwnsBelowRoot(t.folders, id, user) && KidsOutcome(t, T(), id, passVault, Ok(freedBefore), user);
      if owns {
        ItemsLeft(t, T(), id, passVault, freedBefore, user);
      }
      SmallerSame(start);
      var items := GetVaultItems(id, user, passVault);
      if items.Err? {
        return Err(items.error);
      }
      WalkStarts(t, start, id, passVault, items.value, freedBefore, owns, user);
      r := DeleteAll(items.value, freedBefore, user, t, start, id, passVault, owns);
      SoundStill(start, T(), rank, bound);
    }

    /** One subfolder with everything below it. `t` is the state before any of them went. */
    method DeleteSubfolder(s: Id, user: Id, pw: bool, ghost rank: map<Id, nat>, ghost bound: nat, ghost t: Tables,
                           ghost id: Id, ghost passVault: bool, ghost kids: set<Id>, ghost todo: set<Id>, ghost freed: int)
      returns (r: Result<int, Error>)
      requires KidsWalk(t, T(), id, passVault, kids, todo, freed, user, rank, bound) && s in todo && s != user
      requires s in t.folders && pw == t.folders[s].pw
      modifies this
      decreases Steps(s, rank, bound), 2
      ensures r.Ok? ==> KidsWalk(t, T(), id, passVault, kids, todo - {s}, freed + r.value, user, rank, bound)
      ensures r.Err? ==> KidsFailed(t, T(), id, passVault, user, rank, bound)
    {
      hide KidsOutcome, TreeOutcome, GotStuck, KidsGone;
      ghost var mid := T();
      KidInWalk(t, mid, id, passVault, kids, todo, s, freed, user, rank, bound);
      r := DeleteFolderTree(s, user, pw, rank, bound);
      KidWalked(t, mid, T(), id, passVault, kids, todo, s, freed, r, user, rank, bound);
    }

    /** The subfolders, each with everything below it. */
    method DeleteSubfolders(id: Id, user: Id, passVault: bool, ghost rank: map<Id, nat>, ghost bound: nat)
      returns (r: Result<int, Error>)
      requires Sound(T(), rank, bound)
      modifies this
      decreases Steps(id, rank, bound), 0
      ensures Smaller(old(T()), T()) && Sound(T(), rank, bound)
      ensures OwnsBelowRoot(old(folders), id, user) ==> KidsOutcome(old(T()), T(), id, passVault, r, user)
      ensures IsOthers(old(folders), id, user) ==> folders == old(folders) && (r.Ok? ==> T() == old(T()))
    {
      hide KidsWalk, KidsFailed, KidsOutcome, Smaller, WellFormed, Acyclic, Bounded, FilesOk, Kids, Steps, OwnsBelowRoot, IsOthers;
      ghost var t := T();
      SmallerSame(t);
      var subfolders := GetSubfolders(id, user, passVault, rank, bound);
      if subfolders.Err? {
        return Err(subfolders.error);
      }
      var snapshot := folders;
      var todo := subfolders.value;
      var freed := 0;
      KidsWalkStarts(t, id, passVault, todo, user, rank, bound);
      while todo != {}
        invariant todo <= subfolders.value
        invariant KidsWalk(t, T(), id, passVault, subfolders.value, todo, freed, user, rank, bound)
        decreases |todo|
      {
        var s :| s in todo;
        var sub := DeleteSubfolder(s, user, snapshot[s].pw, rank, bound, t, id, passVault, subfolders.value, todo, freed);
        if sub.Err? {
          KidsStopped(t, T(), id, passVault, sub.error, user, rank, bound);
          return Err(sub.error);
        }
        todo := todo - {s};
        freed := freed + sub.value;
      }
      KidsWalkEnds(t, T(), id, passVault, subfolders.value, freed, user, rank, bound);
      r := Ok(freed);
    }

    /** Subfolders first, then files, then the folder itself; in each case the rows come in any
        order. For a root folder both kinds are deleted. */
    method DeleteFolderTree(id: Id, user: Id, passVault: bool, ghost rank: map<Id, nat>, ghost bound: nat)
      returns (r: Result<int, Error>)
      requires Sound(T(), rank, bound)
      modifies this
      decreases Steps(id, rank, bound), 1
      ensures Smaller(old(T()), T()) && Bounded(folders, rank, bound)
      ensures id != user ==> Sound(T(), rank, bound)
      ensures OwnsBelowRoot(old(folders), id, user) ==> TreeOutcome(old(T()), T(), id, passVault, r, user)
      ensures IsOthers(old(folders), id, user) ==> r.Err? && folders == old(folders)
    {
      ghost var t := T();
      var subs := DeleteSubfolders(id, user, passVault, rank, bound);
      if subs.Err? {
        return subs;
      }
      ghost var mid := T();
      var items := DeleteItems(id, user, passVault, subs.value, t, rank, bound);
      SmallerTrans(t, mid, T());
      if items.Err? {
        return items;
      }
      mid := T();
      if OwnsBelowRoot(t.folders, id, user) {
        StillThere(t, mid, id, passVault, items.value, user);
      }
      if IsOthers(folders, id, user) {
        OthersAreNotOwners(folders, user, id);
      }
      var rows := DeleteFolderRows(id, user, rank, bound);
      SmallerTrans(t, mid, T());
      if rows.Err? {
        return Err(rows.error);
      }
      if OwnsBelowRoot(t.folders, id, user) {
        AllDeleted(t, mid, T(), id, passVault, items.value, user);
      }
      r := items;
    }

    /** DeleteVaultFolder of the vault handlers. */
    method DeleteVaultFolder(id: Id, user: Id, isShared: bool, passVault: bool,
                             ghost rank: map<Id, nat>, ghost bound: nat)
      returns (r: Result<int, Error>)
      requires Sound(T(), rank, bound)
      modifies this
      ensures isShared ==> T() == LeaveShare(old(T()), id, user) && r == Ok(0)
      ensures !isShared && OwnsBelowRoot(old(folders), id, user) ==>
                && TreeOutcome(old(T()), T(), id, passVault, r, user) && Sound(T(), rank, bound)
      ensures !isShared && IsOthers(old(folders), id, user) ==> r.Err? && folders == old(folders)
    {
      if isShared {
        DeleteSharedFolder(id, user);
        return Ok(0);
      }
      if OwnsBelowRoot(folders, id, user) {
        KidsAreBelow(folders, id, user);
      }
      r := DeleteFolderTree(id, user, passVault, rank, bound);
    }
  }
}
