/** Clients and server together: every state that a run of the vault can reach. */
module VaultRun {
  import opened Results
  import opened Tables
  import opened Ownership
  import opened VaultOps
  import opened KeyChain
  import opened VaultInvariant
  import opened VaultAccess
  import opened FolderDelete
  import opened VaultDb

  /** The tables, and the key that each folder was created with. */
  datatype State = State(t: Tables, keys: map<Id, Key>)

  /** `picks` are the rows the server selected when it answered the client's request. */
  datatype Op =
    | SignUp(user: Id, key: Key)
    | CreateFolder(user: Id, parent: Id, name: string, pw: bool, id: Id, key: Key, picks: seq<Id>)
    | Share(user: Id, item: Id, recipient: Id, canModify: bool, id: Id, shareId: Id, picks: seq<Id>)
    | EditShare(user: Id, shareId: Id, item: Id, canModify: bool)
    | Unshare(user: Id, shareId: Id, item: Id)
    | Leave(user: Id, id: Id)
    | RenameFolder(user: Id, id: Id, name: string)
    | Upload(user: Id, name: string, folder: Id, length: int, chunks: nat, pw: bool, id: Id)
    | FinishUpload(id: Id, length: int)
    | EditFile(user: Id, id: Id, pw: bool)
    | ShareFile(user: Id, item: Id, recipient: Id, canModify: bool, id: Id, shareId: Id, from: Id)
    | EditFileShare(user: Id, shareId: Id, canModify: bool)
    | UnshareFile(user: Id, shareId: Id, item: Id)
    | LeaveFile(user: Id, id: Id)
    | DeleteFile(id: Id)
    | DeleteFolder(user: Id, id: Id, pw: bool)

  // ----- What clients do with keys

  /** DeriveVaultCryptoContext with its encryption function: a key to be stored in the folder is
      wrapped under the folder's own key, or in a root folder under the user's public key. */
  ghost function ClientWrap(f: Folders, user: Id, picks: seq<Id>, key: Key): Option<Wrapped>
    requires picks != [] && AllIn(f, picks)
  {
    if |picks| == 1 then Some(Rsa(user, key))
    else
      match ClientKey(f, user, picks)
      case None => None
      case Some(outer) => Some(Aes(outer, key))
  }

  /** The same context with its decryption function. */
  ghost function ClientOpen(f: Folders, user: Id, picks: seq<Id>, w: Wrapped): Option<Key>
    requires picks != [] && AllIn(f, picks)
  {
    if |picks| == 1 then OpenRsa(user, w)
    else
      match ClientKey(f, user, picks)
      case None => None
      case Some(outer) => OpenAes(outer, w)
  }

  ghost predicate FreshKey(s: State, id: Id, key: Key) {
    Fresh(s.t, id) && id !in s.keys && key !in s.keys.Values
  }

  /** One request. Folders are named by their reference id, a share is removed by its own entry and at
      the endpoint for its kind, only references and folders without any other rows are given up, and
      trees of one kind are deleted; the client software sees to that. The first three conditions are
      exactly those under which the tables stay consistent (see VaultInvariant).
      The first line only makes the operations defined: RunKeeps shows that no run ever fails it.
      Requests about files name the outcome that the methods of VaultDb allow. */
  ghost predicate Step(s: State, op: Op, s': State) {
    var f := s.t.folders;
    && WellFormed(f) && Acyclic(f)
    && match op
    case SignUp(user, key) =>
      FreshKey(s, user, key) && s' == State(NewRoot(s.t, user, Rsa(user, key)), s.keys[user := key])
    case CreateFolder(user, parent, name, pw, id, key, picks) =>
      && IsRoot(f, user) && !IsShareRow(f, parent) && FreshKey(s, id, key)
      && IsSelection(f, if parent == "" then user else parent, user, picks) && picks != [] && AllIn(f, picks)
      && var w := ClientWrap(f, user, picks, key);
         && w.Some? && NewFolder(s.t, user, parent, w.value, name, pw, id) == Ok(s'.t)
         && s'.keys == s.keys[id := key]
    case Share(user, item, recipient, canModify, id, shareId, picks) =>
      && Fresh(s.t, id) && Fresh(s.t, shareId) && item in f
      && IsSelection(f, f[item].parent, user, picks) && picks != [] && AllIn(f, picks)
      && var key := ClientOpen(f, user, picks, f[item].key);
         && key.Some? && ShareFolder(s.t, item, user, recipient, Rsa(recipient, key.value), canModify, id, shareId) == Ok(s'.t)
         && s'.keys == s.keys
    case EditShare(user, shareId, item, canModify) =>
      ModifyShare(s.t, user, shareId, item, canModify) == Ok(s'.t) && s'.keys == s.keys
    case Unshare(user, shareId, item) =>
      && (shareId in s.t.sharing && s.t.sharing[shareId].isFolder ==>
            s.t.sharing[shareId].item == item && s.t.sharing[shareId].owner == user)
      && RemoveShare(s.t, user, item, shareId) == Ok(s'.t) && s'.keys == s.keys
    case Leave(user, id) =>
      && (id in f && f[id].owner == user ==> !IsUsed(f, id))
      && s' == State(LeaveShare(s.t, id, user), s.keys)
    case RenameFolder(user, id, name) =>
      Rename(s.t, user, id, name) == Ok(s'.t) && s'.keys == s.keys
    case Upload(user, name, folder, length, chunks, pw, id) =>
      Fresh(s.t, id) && AddVaultItem(s.t, user, name, folder, length, chunks, pw, id) == Ok(s'.t) && s'.keys == s.keys
    case FinishUpload(id, length) => s' == State(Finished(s.t, id, length), s.keys)
    case EditFile(user, id, pw) =>
      FileEdits(s.t, id, user, true) && s' == State(s.t.(files := SetKind(s.t.files, id, pw)), s.keys)
    case ShareFile(user, item, recipient, canModify, id, shareId, from) =>
      && Fresh(s.t, id) && Fresh(s.t, shareId) && IsRoot(f, recipient) && Retrieves(s.t, item, user, from)
      && s' == State(WithCopy(s.t, item, user, recipient, canModify, id, shareId, from), s.keys)
    case EditFileShare(user, shareId, canModify) => s' == State(EditEntry(s.t, user, shareId, canModify), s.keys)
    case UnshareFile(user, shareId, item) =>
      && (shareId in s.t.sharing ==> !s.t.sharing[shareId].isFolder)
      && s' == State(WithoutFileShare(s.t, user, item, shareId), s.keys)
    case LeaveFile(user, id) => s' == State(VaultOps.LeaveFile(s.t, id, user), s.keys)
    case DeleteFile(id) => FileRows(s.t.files, id) != {} && s' == State(Drop(s.t, {}, {id}), s.keys)
    case DeleteFolder(user, id, pw) =>
      && OwnsBelowRoot(f, id, user) && OneKind(s.t, id, pw)
      && Partly(s.t, s'.t, id, pw) && s'.keys == s.keys
  }

  const EMPTY := State(Tables(map[], map[], map[]), map[])

  /** Identifiers of files are not those of folders. */
  ghost predicate FilesApart(t: Tables) {
    t.files.Keys !! t.folders.Keys && forall z :: z in t.files ==> t.files[z].refId !in t.folders
  }

  /** What holds in every reachable state. */
  ghost predicate Invariant(s: State) {
    Consistent(s.t) && KeysOk(s.t.folders, s.keys) && FilesOk(s.t) && FilesApart(s.t)
  }

  lemma InvariantAtStart()
    ensures Invariant(EMPTY)
  {
    assert Ranked(map[], map[]);
  }

  // ----- Chains exist

  /** Every folder has its chain of ancestors up to its owner's root. */
  lemma {:induction false} ChainExists(f: Folders, folder: Id) returns (c: seq<Id>)
    requires WellFormed(f) && Acyclic(f) && NoOrphans(f) && IsOriginal(f, folder)
    ensures IsChain(f, c) && c[0] == folder
    decreases Height(f, folder)
  {
    assert RowOk(f, folder);
    if f[folder].parent == "" {
      c := [folder];
    } else {
      var up := ChainExists(f, f[folder].parent);
      c := [folder] + up;
    }
  }

  // ----- Keys stay in order

  /** Rows that are left, wherever they may be modified otherwise, keep their keys. */
  lemma KeysStill(f: Folders, g: Folders, keys: map<Id, Key>)
    requires KeysOk(f, keys) && g.Keys <= f.Keys
    requires forall id :: id in g ==> g[id].refId == f[id].refId && g[id].owner == f[id].owner
                                      && g[id].parent == f[id].parent && g[id].key == f[id].key
    ensures KeysOk(g, keys)
  {
    forall id | id in g
      ensures KeyOk(g, keys, id)
    {
      assert KeyOk(f, keys, id);
    }
  }

  lemma KeyAdded(s: State, id: Id, row: Folder, key: Key)
    requires KeysOk(s.t.folders, s.keys) && FreshKey(s, id, key) && row.refId == id
    requires KeyOk(map[id := row], s.keys[id := key], id)
    ensures KeysOk(s.t.folders[id := row], s.keys[id := key])
  {
    var f := s.t.folders[id := row];
    forall x | x in f
      ensures KeyOk(f, s.keys[id := key], x)
    {
      if x != id {
        assert KeyOk(s.t.folders, s.keys, x);
      }
    }
  }

  lemma ReferenceKeyAdded(f: Folders, keys: map<Id, Key>, id: Id, row: Folder)
    requires KeysOk(f, keys) && id !in f && row.refId != id && row.refId in keys
    requires row.key == Rsa(row.owner, keys[row.refId])
    ensures KeysOk(f[id := row], keys)
  {
    var g := f[id := row];
    forall x | x in g
      ensures KeyOk(g, keys, x)
    {
      if x != id {
        assert KeyOk(f, keys, x);
      }
    }
  }

  // ----- The steps that use keys

  /** What a client wraps for a folder is wrapped the way the folder's place demands. */
  lemma ClientWrapsRight(f: Folders, keys: map<Id, Key>, at: Id, user: Id, picks: seq<Id>, key: Key)
    requires WellFormed(f) && Acyclic(f) && NoOrphans(f) && KeysOk(f, keys) && IsOriginal(f, at)
    requires IsSelection(f, at, user, picks) && picks != [] && AllIn(f, picks)
    ensures var w := ClientWrap(f, user, picks, key);
            w.Some? ==> if f[at].parent == "" then w.value == Rsa(user, key)
                        else at in keys && w.value == Aes(keys[at], key)
  {
    var c := ChainExists(f, at);
    SelectionLength(f, c, user, picks);
    if |c| > 1 {
      UnwindIsSound(f, keys, c, user, picks);
      ChainOwner(f, c, 0);
    }
  }

  lemma CreateKeeps(s: State, op: Op, s': State)
    requires Consistent(s.t) && KeysOk(s.t.folders, s.keys) && op.CreateFolder? && Step(s, op, s')
    ensures Consistent(s'.t) && KeysOk(s'.t.folders, s'.keys)
  {
    var f := s.t.folders;
    var at := if op.parent == "" then op.user else op.parent;
    var w := ClientWrap(f, op.user, op.picks, op.key);
    NewFolderKeepsIff(s.t, op.user, op.parent, w.value, op.name, op.pw, op.id);
    assert IsOriginal(f, at);
    ClientWrapsRight(f, s.keys, at, op.user, op.picks, op.key);
    var row := s'.t.folders[op.id];
    assert RowOk(f, at);
    CreatedKeyOk(f, s.keys, op.user, at, row, op.id, op.key);
    KeyAdded(s, op.id, row, op.key);
  }

  lemma CreatedKeyOk(f: Folders, keys: map<Id, Key>, user: Id, at: Id, row: Folder, id: Id, key: Key)
    requires WellFormed(f) && Acyclic(f) && IsOriginal(f, at) && id !in f && at != ""
    requires row.refId == id && row.owner == f[at].owner && row.parent == at
    requires f[at].owner != user ==> CheckFolderOwnership(f, user, at).Ok?
    requires if f[at].parent == "" then row.key == Rsa(user, key) else at in keys && row.key == Aes(keys[at], key)
    ensures KeyOk(map[id := row], keys[id := key], id)
  {
    assert RowOk(f, at);
    if f[at].parent == "" && f[at].owner != user {
      OnlyOwnRoot(f, user, at);
    }
  }

  /** What a client opens with is the body of the wrapped key. */
  lemma OpensTheKey(f: Folders, keys: map<Id, Key>, user: Id, picks: seq<Id>, item: Id)
    requires KeysOk(f, keys) && item in f && picks != [] && AllIn(f, picks)
    ensures f[item].refId in keys
    ensures ClientOpen(f, user, picks, f[item].key).Some? ==>
              ClientOpen(f, user, picks, f[item].key).value == keys[f[item].refId]
  {
    assert KeyOk(f, keys, item);
  }

  lemma ShareKeeps(s: State, op: Op, s': State)
    requires Consistent(s.t) && KeysOk(s.t.folders, s.keys) && op.Share? && Step(s, op, s')
    ensures Consistent(s'.t) && KeysOk(s'.t.folders, s'.keys)
  {
    hide Corresponds, Acyclic, NoOrphans, EntriesApart, SameNames, ClientOpen, IsSelection, KeysOk, WellFormed;
    var f := s.t.folders;
    var key := ClientOpen(f, op.user, op.picks, f[op.item].key);
    OpensTheKey(f, s.keys, op.user, op.picks, op.item);
    ShareFolderKeeps(s.t, op.item, op.user, op.recipient, Rsa(op.recipient, key.value), op.canModify, op.id, op.shareId);
    ReferenceKeyAdded(f, s.keys, op.id, s'.t.folders[op.id]);
  }

  lemma SharingStaysConsistent(s: State, op: Op, s': State)
    requires Consistent(s.t) && (op.EditShare? || op.Unshare? || op.Leave? || op.EditFileShare?) && Step(s, op, s')
    ensures Consistent(s'.t)
  {
    hide Consistent, WellFormed, Acyclic, ModifyShare, RemoveShare, LeaveShare, EditEntry;
    match op {
      case EditFileShare(user, shareId, canModify) => EditEntryKeeps(s.t, user, shareId, canModify);
      case EditShare(user, shareId, item, canModify) => ModifyShareKeeps(s.t, user, shareId, item, canModify);
      case Unshare(user, shareId, item) => RemoveShareKeepsIff(s.t, user, item, shareId);
      case Leave(user, id) => LeaveShareKeepsIff(s.t, id, user);
    }
  }

  lemma SharingKeeps(s: State, op: Op, s': State)
    requires Consistent(s.t) && KeysOk(s.t.folders, s.keys)
    requires (op.EditShare? || op.Unshare? || op.Leave? || op.EditFileShare?) && Step(s, op, s')
    ensures Consistent(s'.t) && KeysOk(s'.t.folders, s'.keys)
  {
    hide Corresponds, Ranked, NoOrphans, EntriesApart, SameNames, OneRowPerUser;
    SharingStaysConsistent(s, op, s');
    KeysStill(s.t.folders, s'.t.folders, s.keys);
  }

  lemma RenameOrDeleteKeeps(s: State, op: Op, s': State)
    requires Consistent(s.t) && KeysOk(s.t.folders, s.keys) && s.t.files.Keys !! s.t.folders.Keys
    requires (op.RenameFolder? || op.DeleteFolder?) && Step(s, op, s')
    ensures Consistent(s'.t) && KeysOk(s'.t.folders, s'.keys)
  {
    hide Corresponds, Ranked, NoOrphans, EntriesApart, SameNames, OneRowPerUser, OneKind, Under, Kids;
    match op {
      case RenameFolder(user, id, name) => RenameKeeps(s.t, user, id, name);
      case DeleteFolder(user, id, pw) => DeletionKeeps(s.t, s'.t, id, pw, user);
    }
    KeysStill(s.t.folders, s'.t.folders, s.keys);
  }

  lemma FileRequestKeeps(s: State, op: Op, s': State)
    requires Invariant(s) && Step(s, op, s')
    requires op.Upload? || op.FinishUpload? || op.EditFile? || op.ShareFile? || op.UnshareFile? || op.LeaveFile? || op.DeleteFile?
    ensures Consistent(s'.t) && s'.t.folders == s.t.folders && s'.keys == s.keys
  {
    hide WellFormed, Acyclic, NoOrphans, SameNames, FileOk, KeysOk;
    EntriesOnFolders(s.t);
    hide Corresponds;
    match op {
      case ShareFile(user, item, recipient, canModify, id, shareId, from) =>
        ReadRowOf(s.t, item, user, from);
      case DeleteFile(id) =>
        DropFile(s.t, id);
      case _ =>
    }
    FilesOnly(s.t, s'.t);
  }

  /** Entries for folders name folders. */
  lemma EntriesOnFolders(t: Tables)
    requires Consistent(t)
    ensures forall x :: x in t.sharing && t.sharing[x].isFolder ==> t.sharing[x].item in t.folders
  {
    forall x | x in t.sharing && t.sharing[x].isFolder
      ensures t.sharing[x].item in t.folders
    {
      assert EntryMatched(t, x);
    }
  }

  lemma ReadRowOf(t: Tables, item: Id, user: Id, from: Id)
    requires WellFormed(t.folders) && Acyclic(t.folders) && Retrieves(t, item, user, from)
    ensures from in t.files && t.files[from].refId == item
  {
    var at :| IsRead(t, item, user, at, from) && HasAccess(t, item, user, at);
  }

  // ----- Files stay in order

  /** Rows go, or change in their permission, name, size or kind only. */
  ghost predicate RowsShrink(t: Tables, t': Tables) {
    && t'.files.Keys <= t.files.Keys && t'.folders.Keys <= t.folders.Keys
    && (forall z :: z in t'.files ==> t'.files[z].refId == t.files[z].refId && t'.files[z].owner == t.files[z].owner
                                      && t'.files[z].folder == t.files[z].folder)
    && (forall x :: x in t'.folders ==> t'.folders[x].refId == t.folders[x].refId
                                        && t'.folders[x].owner == t.folders[x].owner
                                        && t'.folders[x].parent == t.folders[x].parent)
  }

  lemma FilesShrink(t: Tables, t': Tables)
    requires FilesOk(t) && FilesApart(t) && RowsShrink(t, t')
    ensures FilesOk(t') && FilesApart(t')
  {
    forall z | z in t'.files
      ensures FileOk(t', z)
    {
      assert FileOk(t, z);
    }
  }

  /** A folder row under a fresh identifier is no place of a file. */
  lemma FolderAppears(t: Tables, t': Tables, id: Id)
    requires FilesOk(t) && FilesApart(t) && Fresh(t, id)
    requires t'.files == t.files && id in t'.folders && t'.folders == t.folders[id := t'.folders[id]]
    ensures FilesOk(t') && FilesApart(t')
  {
    forall z | z in t'.files
      ensures FileOk(t', z)
    {
      assert FileOk(t, z);
    }
  }

  /** A file row under a fresh identifier: the file itself, or a copy in a root folder. */
  lemma FileAppears(t: Tables, t': Tables, id: Id)
    requires FilesOk(t) && FilesApart(t) && Fresh(t, id)
    requires t'.folders == t.folders && id in t'.files && t'.files == t.files[id := t'.files[id]]
    requires var row := t'.files[id];
             row.refId == id || (row.refId in t.files && row.folder == row.owner && IsRoot(t.folders, row.owner))
    ensures FilesOk(t') && FilesApart(t')
  {
    forall z | z in t'.files
      ensures FileOk(t', z)
    {
      if z != id {
        assert FileOk(t, z);
      }
    }
  }

  lemma EditShrinks(t: Tables, user: Id, shareId: Id, canModify: bool)
    ensures RowsShrink(t, EditEntry(t, user, shareId, canModify))
  {
  }

  lemma FolderRowsShrink(s: State, op: Op, s': State)
    requires Step(s, op, s')
    requires op.EditShare? || op.Unshare? || op.Leave? || op.RenameFolder? || op.EditFileShare?
    ensures RowsShrink(s.t, s'.t)
  {
    hide WellFormed, Acyclic, CanEditFolder, CheckFolderOwnership;
    if op.EditShare? {
      EditShrinks(s.t, op.user, op.shareId, op.canModify);
    } else if op.EditFileShare? {
      EditShrinks(s.t, op.user, op.shareId, op.canModify);
    }
    hide EditEntry;
  }

  lemma FileRowsShrink(s: State, op: Op, s': State)
    requires Step(s, op, s')
    requires op.FinishUpload? || op.EditFile? || op.UnshareFile? || op.LeaveFile? || op.DeleteFile? || op.DeleteFolder?
    ensures RowsShrink(s.t, s'.t)
  {
    hide WellFormed, Acyclic, OneKind, IsPart;
  }

  lemma FilesStayInOrder(s: State, op: Op, s': State)
    requires Invariant(s) && Step(s, op, s')
    ensures FilesOk(s'.t) && FilesApart(s'.t)
  {
    hide Consistent, WellFormed, Acyclic, FilesOk, FilesApart, KeysOk, RowsShrink;
    if op.EditShare? || op.Unshare? || op.Leave? || op.RenameFolder? || op.EditFileShare? {
      FolderRowsShrink(s, op, s');
      FilesShrink(s.t, s'.t);
    } else if op.FinishUpload? || op.EditFile? || op.UnshareFile? || op.LeaveFile? || op.DeleteFile? || op.DeleteFolder? {
      FileRowsShrink(s, op, s');
      FilesShrink(s.t, s'.t);
    } else {
      RowsAppear(s, op, s');
    }
  }

  lemma RowsAppear(s: State, op: Op, s': State)
    requires Invariant(s) && Step(s, op, s')
    requires op.SignUp? || op.CreateFolder? || op.Share? || op.Upload? || op.ShareFile?
    ensures FilesOk(s'.t) && FilesApart(s'.t)
  {
    hide Consistent, WellFormed, Acyclic, FilesOk, FilesApart, KeysOk;
    match op {
      case SignUp(user, key) => FolderAppears(s.t, s'.t, user);
      case CreateFolder(_, _, _, _, id, _, _) => FolderAppears(s.t, s'.t, id);
      case Share(_, _, _, _, id, _, _) => FolderAppears(s.t, s'.t, id);
      case Upload(_, _, _, _, _, _, id) => FileAppears(s.t, s'.t, id);
      case ShareFile(user, item, _, _, id, _, from) =>
        ReadRowOf(s.t, item, user, from);
        FileAppears(s.t, s'.t, id);
    }
  }

  lemma FoldersStayInOrder(s: State, op: Op, s': State)
    requires Invariant(s) && Step(s, op, s')
    ensures Consistent(s'.t) && KeysOk(s'.t.folders, s'.keys)
  {
    hide Consistent, KeysOk, WellFormed, Acyclic, FilesOk;
    match op {
      case SignUp(user, key) =>
        NewRootKeeps(s.t, user, Rsa(user, key));
        SignedUpKeys(s, user, key);
      case CreateFolder(_, _, _, _, _, _, _) => CreateKeeps(s, op, s');
      case Share(_, _, _, _, _, _, _) => ShareKeeps(s, op, s');
      case EditShare(_, _, _, _) => SharingKeeps(s, op, s');
      case Unshare(_, _, _) => SharingKeeps(s, op, s');
      case Leave(_, _) => SharingKeeps(s, op, s');
      case EditFileShare(_, _, _) => SharingKeeps(s, op, s');
      case RenameFolder(_, _, _) => RenameOrDeleteKeeps(s, op, s');
      case DeleteFolder(_, _, _) => RenameOrDeleteKeeps(s, op, s');
      case _ => FileRequestKeeps(s, op, s');
    }
  }

  lemma SignedUpKeys(s: State, user: Id, key: Key)
    requires KeysOk(s.t.folders, s.keys) && FreshKey(s, user, key)
    ensures KeysOk(NewRoot(s.t, user, Rsa(user, key)).folders, s.keys[user := key])
  {
    KeyAdded(s, user, NewRoot(s.t, user, Rsa(user, key)).folders[user], key);
  }

  lemma StepKeeps(s: State, op: Op, s': State)
    requires Invariant(s) && Step(s, op, s')
    ensures Invariant(s')
  {
    FoldersStayInOrder(s, op, s');
    FilesStayInOrder(s, op, s');
    hide Step;
  }

  // ----- Runs

  /** The operations, one after another, can lead from empty tables to this state. */
  ghost predicate Reaches(ops: seq<Op>, last: State) {
    if ops == [] then last == EMPTY
    else
      var before, op := ops[..|ops| - 1], ops[|ops| - 1];
      exists s :: Reaches(before, s) && Step(s, op, last)
  }

  /** Every reachable state is consistent: the folders form trees with one owner each, entries
      and references correspond one to one with equal permissions, the rows of a folder agree on
      its name, and every key is wrapped as its place demands. */
  lemma {:induction false} RunKeeps(ops: seq<Op>, last: State)
    requires Reaches(ops, last)
    ensures Invariant(last)
  {
    if ops == [] {
      InvariantAtStart();
    } else {
      var s :| Reaches(ops[..|ops| - 1], s) && Step(s, ops[|ops| - 1], last);
      RunKeeps(ops[..|ops| - 1], s);
      StepKeeps(s, ops[|ops| - 1], last);
    }
  }

  /** In every reachable state the owner of a folder, at any depth and whatever is shared, gets
      from the server a key sequence that unwraps to the key the folder was created with. For a
      root folder the sequence is empty. */
  lemma OwnersAlwaysUnwrap(ops: seq<Op>, s: State, folder: Id, picks: seq<Id>)
    requires Reaches(ops, s) && IsOriginal(s.t.folders, folder)
    requires IsSelection(s.t.folders, folder, s.t.folders[folder].owner, picks)
    ensures picks != [] && AllIn(s.t.folders, picks) && folder in s.keys
    ensures if s.t.folders[folder].parent == "" then Sequence(s.t.folders, picks) == []
            else |picks| > 1 && ClientKey(s.t.folders, s.t.folders[folder].owner, picks) == Some(s.keys[folder])
  {
    hide Corresponds, EntriesApart, SameNames;
    RunKeeps(ops, s);
    var c := ChainExists(s.t.folders, folder);
    OwnerUnwinds(s.t.folders, s.keys, c, picks);
    ChainOwner(s.t.folders, c, 0);
  }

  /** In no reachable state does any user unwrap a key that is not the folder's. */
  lemma NobodyUnwrapsWrongKeys(ops: seq<Op>, s: State, folder: Id, user: Id, picks: seq<Id>)
    requires Reaches(ops, s) && IsOriginal(s.t.folders, folder) && s.t.folders[folder].parent != ""
    requires IsSelection(s.t.folders, folder, user, picks)
    ensures |picks| > 1 && AllIn(s.t.folders, picks) && folder in s.keys
    ensures ClientKey(s.t.folders, user, picks).Some? ==> ClientKey(s.t.folders, user, picks).value == s.keys[folder]
  {
    RunKeeps(ops, s);
    SoundInTree(s.t.folders, s.keys, folder, user, picks);
  }

  lemma SoundInTree(f: Folders, keys: map<Id, Key>, folder: Id, user: Id, picks: seq<Id>)
    requires WellFormed(f) && Acyclic(f) && NoOrphans(f) && KeysOk(f, keys)
    requires IsOriginal(f, folder) && f[folder].parent != "" && IsSelection(f, folder, user, picks)
    ensures |picks| > 1 && AllIn(f, picks) && folder in keys
    ensures ClientKey(f, user, picks).Some? ==> ClientKey(f, user, picks).value == keys[folder]
  {
    var c := ChainExists(f, folder);
    UnwindIsSound(f, keys, c, user, picks);
  }

  /** In every reachable state a user who is not the owner unwraps the folder's key, whatever rows
      the server picks, if and only if the one share above the folder is at the top of the tree. */
  lemma RecipientsUnwrapIff(ops: seq<Op>, s: State, folder: Id, user: Id) returns (c: seq<Id>)
    requires Reaches(ops, s) && IsOriginal(s.t.folders, folder) && s.t.folders[folder].parent != ""
    requires user != s.t.folders[folder].owner
    ensures IsChain(s.t.folders, c) && |c| > 1 && c[0] == folder && folder in s.keys
    ensures SharedAtTop(s.t.folders, c, user)
            <==> forall picks :: IsSelection(s.t.folders, folder, user, picks) && |picks| > 1 && AllIn(s.t.folders, picks)
                   ==> ClientKey(s.t.folders, user, picks) == Some(s.keys[folder])
  {
    hide Corresponds, EntriesApart, SameNames, FilesOk, FilesApart, Reaches;
    hide ClientKey, IsSelection, AllIn, SharedAtTop, WellFormed, KeysOk, Acyclic;
    RunKeeps(ops, s);
    c := ChainExists(s.t.folders, folder);
    ChainOwner(s.t.folders, c, 0);
    RecipientUnwindsIffSharedAtTop(s.t.folders, s.keys, c, user);
  }

  // ----- Deletion in reachable states

  lemma {:induction false} RanksAreBounded(rank: map<Id, nat>, ids: set<Id>) returns (bound: nat)
    requires ids <= rank.Keys
    ensures forall x :: x in ids ==> rank[x] <= bound
  {
    if ids == {} {
      bound := 0;
    } else {
      var x :| x in ids;
      bound := RanksAreBounded(rank, ids - {x});
      bound := if rank[x] > bound then rank[x] else bound;
    }
  }

  /** Every reachable state is one that deletion can start from. */
  lemma ReachableIsSound(ops: seq<Op>, s: State) returns (rank: map<Id, nat>, bound: nat)
    requires Reaches(ops, s)
    ensures Sound(s.t, rank, bound)
  {
    RunKeeps(ops, s);
    rank := RankOf(s.t.folders);
    bound := RanksAreBounded(rank, s.t.folders.Keys);
  }

  /** Deleting a folder of one kind in a reachable state: either all of its subtree is gone, or part
      of it because some file could not be deleted; in both cases the state is reachable again. */
  method DeleteReachable(db: Db, user: Id, id: Id, pw: bool, ghost ops: seq<Op>, ghost s: State)
    returns (r: Result<int, Error>)
    requires Reaches(ops, s) && db.T() == s.t && OwnsBelowRoot(db.folders, id, user)
    requires WellFormed(s.t.folders) && Acyclic(s.t.folders) && OneKind(s.t, id, pw)
    modifies db
    ensures TreeOutcome(s.t, db.T(), id, pw, r, user)
    ensures Reaches(ops + [Op.DeleteFolder(user, id, pw)], State(db.T(), s.keys))
    ensures Invariant(State(db.T(), s.keys))
  {
    ghost var rank, bound := ReachableIsSound(ops, s);
    r := db.DeleteVaultFolder(id, user, false, pw, rank, bound);
    DeletionIsStep(ops, s, db.T(), user, id, pw, r);
  }

  lemma DeletionIsStep(ops: seq<Op>, s: State, now: Tables, user: Id, id: Id, pw: bool, r: Result<int, Error>)
    requires Reaches(ops, s) && WellFormed(s.t.folders) && Acyclic(s.t.folders)
    requires OwnsBelowRoot(s.t.folders, id, user) && OneKind(s.t, id, pw) && TreeOutcome(s.t, now, id, pw, r, user)
    ensures Reaches(ops + [Op.DeleteFolder(user, id, pw)], State(now, s.keys)) && Invariant(State(now, s.keys))
  {
    hide OneKind, TreeOutcome, Reaches, Step, Invariant, OwnsBelowRoot, WellFormed, Acyclic;
    var op, next := Op.DeleteFolder(user, id, pw), State(now, s.keys);
    OutcomeIsStep(s, now, user, id, pw, r);
    OneMoreStep(ops, s, op, next);
    RunKeeps(ops + [op], next);
  }

  /** A finished deletion and one that got stuck are both steps. */
  lemma OutcomeIsStep(s: State, now: Tables, user: Id, id: Id, pw: bool, r: Result<int, Error>)
    requires WellFormed(s.t.folders) && Acyclic(s.t.folders)
    requires OwnsBelowRoot(s.t.folders, id, user) && OneKind(s.t, id, pw) && TreeOutcome(s.t, now, id, pw, r, user)
    ensures Step(s, Op.DeleteFolder(user, id, pw), State(now, s.keys))
  {
    hide OneKind, Partly, Dropped, Subtree, Stuck, WellFormed, Acyclic;
    if r.Ok? {
      TreeIsPartly(s.t, now, id, pw, r.value, user);
    }
  }

  lemma OneMoreStep(ops: seq<Op>, s: State, op: Op, next: State)
    requires Reaches(ops, s) && Step(s, op, next)
    ensures Reaches(ops + [op], next)
  {
    hide Step;
    var all := ops + [op];
    assert all[..|all| - 1] == ops && all[|all| - 1] == op;
  }

  /** In every reachable state CheckFolderOwnership gives the owner full rights to a folder. */
  lemma OwnersKeepRights(ops: seq<Op>, s: State, folder: Id)
    requires Reaches(ops, s) && IsOriginal(s.t.folders, folder) && s.t.folders[folder].parent != ""
    ensures Invariant(s)
    ensures var r := CheckFolderOwnership(s.t.folders, s.t.folders[folder].owner, folder);
            r.Ok? && r.value.isOwner && r.value.canModify
  {
    RunKeeps(ops, s);
    assert RowOk(s.t.folders, folder);
    OwnerReaches(s.t.folders, folder);
  }

  /** In every reachable state a folder can be reached by its owner, with full rights, and by those whom
      a sharing entry of the folder or of a folder above it names, with the permission in the entry
      that is nearest; and by nobody else. */
  lemma AccessIffOwnedOrNamed(ops: seq<Op>, s: State, folder: Id, user: Id)
    requires Reaches(ops, s) && IsOriginal(s.t.folders, folder)
    ensures Invariant(s)
    ensures var r, p := CheckFolderOwnership(s.t.folders, user, folder), PathUp(s.t.folders, folder);
            if user == s.t.folders[folder].owner then r.Ok? && r.value.isOwner && r.value.canModify
            else
              && (r.Ok? <==> exists i :: 0 <= i < |p| && IsNamed(s.t, p[i], user))
              && (r.Ok? ==> !r.value.isOwner)
              && (forall i, e :: IsNearestNamed(s.t, p, user, i) && Names(s.t, e, p[i], user) ==>
                                   r.Ok? && r.value.canModify == s.t.sharing[e].canModify)
  {
    RunKeeps(ops, s);
    var f := s.t.folders;
    if user == f[folder].owner {
      OwnerReaches(f, folder);
    } else {
      AccessIsNearest(s.t, folder, user);
    }
  }
}
