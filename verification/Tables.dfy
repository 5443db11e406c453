/** The `folders`, `vault` and `sharing` tables, and what holds of every folder table. */
module Tables {
  import opened Results

  type Id = string

  /** Folder keys are random; two keys are the same exactly when they are the same number. */
  type Key = nat

  /** A wrapped key: under a user's public key, or under another folder's key. */
  datatype Wrapped = Rsa(user: Id, key: Key) | Aes(outer: Key, key: Key)

  /** A row of `folders`. The row's own id is its key in the table. */
  datatype Folder = Folder(refId: Id, owner: Id, parent: Id, key: Wrapped,
                           name: string, canModify: bool, pw: bool)

  /** A row of `vault`; `pw` says that the row carries password data. */
  datatype File = File(refId: Id, owner: Id, folder: Id, length: int, chunks: nat,
                       canModify: bool, pw: bool)

  /** A row of `sharing`. */
  datatype Share = Share(owner: Id, recipient: Id, item: Id, isFolder: bool, canModify: bool)

  type Folders = map<Id, Folder>

  datatype Tables = Tables(folders: Folders, files: map<Id, File>, sharing: map<Id, Share>)

  datatype Error = NotFound | RootShare | BadRecipient | SelfShare | NotOwner | AlreadyShared
                 | ReadOnly | Access

  /** The row is the folder itself, not a recipient's reference to it. */
  predicate IsOriginal(f: Folders, id: Id) {
    id in f && f[id].refId == id
  }

  predicate IsRoot(f: Folders, id: Id) {
    IsOriginal(f, id) && f[id].parent == "" && f[id].owner == id
  }

  predicate IsShareRow(f: Folders, id: Id) {
    id in f && f[id].refId != id
  }

  /** What a single row must satisfy. A folder's parent may have been deleted (see
      FolderDelete), but if it is there it is an original of the same owner. */
  predicate RowOk(f: Folders, id: Id)
    requires id in f
  {
    var r := f[id];
    && IsRoot(f, r.owner)
    && if r.refId != id then
         r.parent == r.owner && IsOriginal(f, r.refId) && f[r.refId].parent != "" && f[r.refId].owner != r.owner
       else if r.parent == "" then
         r.owner == id && r.canModify
       else
         r.canModify && (r.parent in f ==> IsOriginal(f, r.parent) && f[r.parent].owner == r.owner)
  }

  /** A user has at most one row for a folder. */
  ghost predicate OneRowPerUser(f: Folders) {
    forall a, b :: a in f && b in f && f[a].refId == f[b].refId && f[a].owner == f[b].owner ==> a == b
  }

  ghost predicate WellFormed(f: Folders) {
    && "" !in f
    && (forall id {:trigger RowOk(f, id)} :: id in f ==> RowOk(f, id))
    && OneRowPerUser(f)
  }

  /** A root ranks 0 and any other row above 0 and above its parent. */
  ghost predicate RankOk(f: Folders, rank: map<Id, nat>, id: Id)
    requires id in f && f.Keys <= rank.Keys
  {
    && (f[id].parent == "" <==> rank[id] == 0)
    && (f[id].parent in f ==> rank[f[id].parent] < rank[id])
  }

  ghost predicate Ranked(f: Folders, rank: map<Id, nat>) {
    && f.Keys <= rank.Keys
    && forall id {:trigger RankOk(f, rank, id)} :: id in f ==> RankOk(f, rank, id)
  }

  ghost predicate Acyclic(f: Folders) {
    exists rank :: Ranked(f, rank)
  }

  ghost function RankOf(f: Folders): (rank: map<Id, nat>)
    requires Acyclic(f)
    ensures Ranked(f, rank)
  {
    var rank :| Ranked(f, rank);
    rank
  }

  /** Bounds the number of steps from a folder up to where climbing stops. */
  ghost function Height(f: Folders, id: Id): nat
    requires Acyclic(f)
    ensures id in f && f[id].parent in f ==> RankOf(f)[f[id].parent] < RankOf(f)[id]
  {
    if id in f then
      var rank := RankOf(f);
      assert RankOk(f, rank, id);
      rank[id] + 1
    else 0
  }

  /** An identifier that occurs nowhere: what a fresh random identifier is. */
  ghost predicate Fresh(t: Tables, id: Id) {
    && id != ""
    && id !in t.folders && id !in t.files && id !in t.sharing
    && (forall x :: x in t.folders ==> id != t.folders[x].parent && id != t.folders[x].refId)
    && (forall x :: x in t.files ==> id != t.files[x].folder && id != t.files[x].refId)
    && (forall x :: x in t.sharing ==> id != t.sharing[x].item && id != t.sharing[x].recipient)
  }
}
