/** What the folder operations do to the tables: backend/db/folders.go and sharing.go. */
module VaultOps {
  import opened Results
  import opened Tables
  import opened Ownership

  /** NewRootFolder: the row whose id is the user's id. */
  function NewRoot(t: Tables, user: Id, key: Wrapped): Tables {
    t.(folders := t.folders[user := Folder(user, user, "", key, "", true, false)])
  }

  /** NewFolder: the new folder belongs to the owner of its parent. */
  function NewFolder(t: Tables, user: Id, parent: Id, key: Wrapped, name: string, pw: bool, id: Id): Result<Tables, Error>
    requires WellFormed(t.folders) && Acyclic(t.folders)
  {
    if parent == "" then
      Ok(t.(folders := t.folders[id := Folder(id, user, user, key, name, true, pw)]))
    else if parent !in t.folders then
      Err(NotFound)
    else
      var owner := t.folders[parent].owner;
      if owner != user && CheckFolderOwnership(t.folders, user, parent).Err? then
        Err(NotFound)
      else
        Ok(t.(folders := t.folders[id := Folder(id, owner, parent, key, name, true, pw)]))
  }

  predicate IsSharedWith(t: Tables, owner: Id, item: Id, recipient: Id) {
    exists s :: s in t.sharing && t.sharing[s].owner == owner && t.sharing[s].item == item
                && t.sharing[s].recipient == recipient
  }

  /** ShareFolder, after the handler has looked up the recipient: a user is known exactly if
      the user's root folder is. */
  function ShareFolder(t: Tables, item: Id, user: Id, recipient: Id, key: Wrapped, canModify: bool,
                       id: Id, shareId: Id): Result<Tables, Error>
    requires WellFormed(t.folders)
  {
    var f := t.folders;
    if !IsRoot(f, recipient) then Err(BadRecipient)
    else if item == user then Err(RootShare)
    else if recipient == "" then Err(BadRecipient)
    else if recipient == user then Err(SelfShare)
    else
      var own := GetFolderOwnership(f, item, user);
      if own.Err? then Err(own.error)
      else if !own.value.isOwner then Err(NotOwner)
      else if IsSharedWith(t, user, item, recipient) then Err(AlreadyShared)
      else
        Ok(t.(folders := f[id := Folder(item, recipient, recipient, key, f[item].name, canModify, f[item].pw)],
              sharing := t.sharing[shareId := Share(user, recipient, item, true, canModify)]))
  }

  /** UserCanEditItem for a folder. */
  function CanEditFolder(f: Folders, item: Id, user: Id): Option<Error>
    requires WellFormed(f)
  {
    var own := GetFolderOwnership(f, item, user);
    if own.Err? then Some(own.error) else if !own.value.canModify then Some(ReadOnly) else None
  }

  /** ChangeFolderPermission */
  function SetFolderPermission(f: Folders, item: Id, user: Id, canModify: bool): Folders {
    map id | id in f :: if f[id].refId == item && f[id].owner == user then f[id].(canModify := canModify) else f[id]
  }

  /** ChangeFilePermission */
  function SetFilePermission(files: map<Id, File>, item: Id, user: Id, canModify: bool): map<Id, File> {
    map id | id in files ::
      if files[id].refId == item && files[id].owner == user then files[id].(canModify := canModify) else files[id]
  }

  /** What ModifyShare changes once the user may edit the item: the rows are found through the
      sharing entry itself. */
  function EditEntry(t: Tables, user: Id, shareId: Id, canModify: bool): Tables {
    if shareId !in t.sharing || t.sharing[shareId].owner != user then t
    else
      var e := t.sharing[shareId].(canModify := canModify);
      var t' := t.(sharing := t.sharing[shareId := e]);
      if e.isFolder then t'.(folders := SetFolderPermission(t.folders, e.item, e.recipient, canModify))
      else t'.(files := SetFilePermission(t.files, e.item, e.recipient, canModify))
  }

  /** ModifyShare for a folder. */
  function ModifyShare(t: Tables, user: Id, shareId: Id, item: Id, canModify: bool): Result<Tables, Error>
    requires WellFormed(t.folders)
  {
    var refused := CanEditFolder(t.folders, item, user);
    if refused.Some? then Err(refused.value) else Ok(EditEntry(t, user, shareId, canModify))
  }

  /** Rows of a folder held by a user: what DELETE ... WHERE ref_id AND owner_id removes. */
  function RowsOf(f: Folders, item: Id, user: Id): set<Id> {
    set id | id in f && f[id].refId == item && f[id].owner == user
  }

  /** RemoveShare: the recipient's row goes if the entry matches; the entry goes in any case. */
  function RemoveShare(t: Tables, user: Id, item: Id, shareId: Id): Result<Tables, Error>
    requires WellFormed(t.folders)
  {
    var refused := CanEditFolder(t.folders, item, user);
    if refused.Some? then Err(refused.value)
    else
      var found := shareId in t.sharing && t.sharing[shareId].item == item && t.sharing[shareId].owner == user;
      var gone := if found then RowsOf(t.folders, item, t.sharing[shareId].recipient) else {};
      Ok(t.(folders := t.folders - gone, sharing := t.sharing - {shareId}))
  }

  function EntriesOf(sharing: map<Id, Share>, item: Id, recipient: Id): set<Id> {
    set s | s in sharing && sharing[s].item == item && sharing[s].recipient == recipient
  }

  /** DeleteSharedFolder: a recipient gives up a share. */
  function LeaveShare(t: Tables, id: Id, user: Id): Tables {
    if id in t.folders && t.folders[id].owner == user then
      t.(folders := t.folders - {id},
         sharing := t.sharing - EntriesOf(t.sharing, t.folders[id].refId, user))
    else t
  }

  /** UpdateVaultFolderName */
  function Rename(t: Tables, user: Id, id: Id, name: string): Result<Tables, Error>
    requires WellFormed(t.folders) && Acyclic(t.folders)
  {
    var own := CheckFolderOwnership(t.folders, user, id);
    if own.Err? then Err(own.error)
    else if !own.value.canModify then Err(ReadOnly)
    else
      Ok(t.(folders := map x | x in t.folders ::
                         if t.folders[x].refId == id then t.folders[x].(name := name) else t.folders[x]))
  }

  /** AddVaultItem: a new file in a folder that the user may change. */
  function AddVaultItem(t: Tables, user: Id, name: string, folder: Id, length: int, chunks: nat, pw: bool, id: Id): Result<Tables, Error>
    requires WellFormed(t.folders) && Acyclic(t.folders)
  {
    if user == "" || name == "" || length == 0 || chunks == 0 then Err(NotFound)
    else
      var at := if folder == "" then user else folder;
      var own := CheckFolderOwnership(t.folders, user, at);
      if own.Err? then Err(own.error)
      else if !own.value.canModify then Err(ReadOnly)
      else Ok(t.(files := t.files[id := File(id, user, at, length, chunks, true, pw)]))
  }

  // ----- Files

  /** The rows of a file: its own and the recipients' copies. */
  function FileRows(files: map<Id, File>, file: Id): set<Id> {
    set z | z in files && files[z].refId == file
  }

  /** GetFileFolderID may answer with this row: the only one, or one of the user's. */
  predicate IsHit(files: map<Id, File>, file: Id, user: Id, z: Id) {
    z in FileRows(files, file) && (files[z].owner == user || FileRows(files, file) == {z})
  }

  /** RetrieveVaultMetadata may read this row when `at` has given the folder. */
  predicate IsRead(t: Tables, file: Id, user: Id, at: Id, z: Id) {
    && IsHit(t.files, file, user, at) && t.files[at].folder != ""
    && z in FileRows(t.files, file) && (t.files[at].folder == user ==> t.files[z].owner == user)
  }

  /** What ShareFile adds when it has read the row `from`: a copy in the recipient's root folder,
      which refers to the row that was read, and a sharing entry for the file. */
  function WithCopy(t: Tables, item: Id, user: Id, recipient: Id, canModify: bool, id: Id, shareId: Id, from: Id): Tables
    requires from in t.files
  {
    var r := t.files[from];
    t.(files := t.files[id := File(from, recipient, recipient, r.length, r.chunks, canModify, r.pw)],
       sharing := t.sharing[shareId := Share(user, recipient, item, false, canModify)])
  }

  /** UpdateMetadata for a finished upload: the file's own row gets the stored length. */
  function Finished(t: Tables, id: Id, length: int): Tables {
    if id in t.files then t.(files := t.files[id := t.files[id].(length := length)]) else t
  }

  /** The rows of a file that a user holds, the original included. */
  function FileRowsOf(files: map<Id, File>, item: Id, user: Id): set<Id> {
    set z | z in files && files[z].refId == item && files[z].owner == user
  }

  /** What RemoveShare removes for a file once the user may edit it. */
  function WithoutFileShare(t: Tables, user: Id, item: Id, shareId: Id): Tables {
    var found := shareId in t.sharing && t.sharing[shareId].item == item && t.sharing[shareId].owner == user;
    t.(files := t.files - if found then FileRowsOf(t.files, item, t.sharing[shareId].recipient) else {},
       sharing := t.sharing - {shareId})
  }

  /** DeleteSharedFile: a recipient gives up a copy. */
  function LeaveFile(t: Tables, id: Id, user: Id): Tables {
    if id in t.files && t.files[id].owner == user then
      t.(files := t.files - {id}, sharing := t.sharing - EntriesOf(t.sharing, t.files[id].refId, user))
    else t
  }

  /** UpdateVaultFile: all rows of the file get the password data of the request, or its lack. */
  function SetKind(files: map<Id, File>, item: Id, pw: bool): map<Id, File> {
    map z | z in files :: if files[z].refId == item then files[z].(pw := pw) else files[z]
  }

  /** The tables without every row that refers to one of these folders or files. */
  function Drop(t: Tables, folders: set<Id>, files: set<Id>): Tables {
    Tables(map id | id in t.folders && t.folders[id].refId !in folders :: t.folders[id],
           map id | id in t.files && t.files[id].refId !in files :: t.files[id],
           map id | id in t.sharing && t.sharing[id].item !in folders + files :: t.sharing[id])
  }

  // ----- Correspondence of sharing entries and recipients' rows

  /** The entry and the row record the same share. */
  predicate Match(t: Tables, s: Id, id: Id) {
    && s in t.sharing && t.sharing[s].isFolder && IsShareRow(t.folders, id)
    && t.sharing[s].item == t.folders[id].refId
    && t.sharing[s].recipient == t.folders[id].owner
    && t.sharing[s].canModify == t.folders[id].canModify
    && IsOriginal(t.folders, t.sharing[s].item) && t.folders[t.sharing[s].item].owner == t.sharing[s].owner
  }

  ghost predicate EntryMatched(t: Tables, s: Id) {
    exists id :: Match(t, s, id)
  }

  ghost predicate RowMatched(t: Tables, id: Id) {
    exists s :: Match(t, s, id)
  }

  /** Every entry for a folder has a row and every reference has an entry. No two entries share
      a row; that no two rows share an entry is OneRowPerUser. */
  ghost predicate Corresponds(t: Tables) {
    && (forall s {:trigger EntryMatched(t, s)} :: s in t.sharing && t.sharing[s].isFolder ==> EntryMatched(t, s))
    && (forall id {:trigger RowMatched(t, id)} :: IsShareRow(t.folders, id) ==> RowMatched(t, id))
    && (forall s, s', id :: Match(t, s, id) && Match(t, s', id) ==> s == s')
  }

  ghost predicate SameNames(f: Folders) {
    forall a, b :: a in f && b in f && f[a].refId == f[b].refId ==> f[a].name == f[b].name
  }
}
