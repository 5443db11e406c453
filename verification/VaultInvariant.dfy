/** What every operation on the folder tables keeps. */
module VaultInvariant {
  import opened Results
  import opened Tables
  import opened Ownership
  import opened VaultOps
  import opened KeyChain

  /** Every folder but a root has its parent. */
  ghost predicate NoOrphans(f: Folders) {
    forall id :: IsOriginal(f, id) && f[id].parent != "" ==> f[id].parent in f
  }

  /** Entries for files do not name folders. */
  ghost predicate EntriesApart(t: Tables) {
    forall s :: s in t.sharing && !t.sharing[s].isFolder ==> t.sharing[s].item !in t.folders
  }

  ghost predicate Consistent(t: Tables) {
    && WellFormed(t.folders) && Acyclic(t.folders) && NoOrphans(t.folders)
    && Corresponds(t) && EntriesApart(t) && SameNames(t.folders)
  }

  // ----- Changes that leave the shape alone

  /** Same rows with the same places and keys; permissions may differ in references only. */
  ghost predicate SameShape(f: Folders, g: Folders) {
    && f.Keys == g.Keys
    && forall id :: id in f ==>
                      && g[id].(name := f[id].name, canModify := f[id].canModify) == f[id]
                      && (f[id].refId == id ==> g[id].canModify == f[id].canModify)
  }

  lemma SameShapeKeeps(f: Folders, g: Folders, keys: map<Id, Key>)
    requires WellFormed(f) && Acyclic(f) && NoOrphans(f) && SameShape(f, g)
    ensures WellFormed(g) && Acyclic(g) && NoOrphans(g)
    ensures KeysOk(f, keys) ==> KeysOk(g, keys)
  {
    forall id | id in g
      ensures RowOk(g, id)
    {
      assert RowOk(f, id);
    }
    forall id | id in g && KeysOk(f, keys)
      ensures KeyOk(g, keys, id)
    {
      assert KeyOk(f, keys, id);
    }
    var rank := RankOf(f);
    forall id | id in g
      ensures RankOk(g, rank, id)
    {
      assert RankOk(f, rank, id);
    }
    assert Ranked(g, rank);
  }

  // ----- Removing rows

  /** Whole folders or single references may go, but no root. */
  ghost predicate Removable(f: Folders, gone: set<Id>) {
    forall id :: id in gone && id in f && f[id].refId == id ==>
                   f[id].parent != "" && forall x :: x in f && f[x].refId == id ==> x in gone
  }

  lemma RemovalKeeps(f: Folders, gone: set<Id>, keys: map<Id, Key>)
    requires WellFormed(f) && Acyclic(f) && Removable(f, gone)
    ensures WellFormed(f - gone) && Acyclic(f - gone)
    ensures KeysOk(f, keys) ==> KeysOk(f - gone, keys)
    ensures SameNames(f) ==> SameNames(f - gone)
  {
    var g := f - gone;
    forall id | id in g
      ensures RowOk(g, id)
    {
      assert RowOk(f, id);
    }
    forall id | id in g && KeysOk(f, keys)
      ensures KeyOk(g, keys, id)
    {
      assert KeyOk(f, keys, id);
    }
    var rank := RankOf(f);
    forall id | id in g
      ensures RankOk(g, rank, id)
    {
      assert RankOk(f, rank, id);
    }
    assert Ranked(g, rank);
  }

  // ----- Adding a row

  lemma RankAdded(f: Folders, id: Id, row: Folder)
    requires WellFormed(f) && Acyclic(f) && id !in f && id != "" && row.parent != id
    requires row.parent == "" || row.parent in f
    requires forall x :: x in f ==> f[x].parent != id
    ensures Acyclic(f[id := row])
  {
    var rank := RankOf(f);
    var g, rank' := f[id := row], rank[id := if row.parent == "" then 0 else rank[row.parent] + 1];
    forall x | x in g
      ensures RankOk(g, rank', x)
    {
      if x != id {
        assert RankOk(f, rank, x);
      }
    }
    assert Ranked(g, rank');
  }

  lemma OriginalAdded(t: Tables, id: Id, row: Folder)
    requires WellFormed(t.folders) && Acyclic(t.folders) && SameNames(t.folders) && Fresh(t, id)
    requires row.refId == id && row.canModify
    requires if row.parent == "" then row.owner == id
             else IsOriginal(t.folders, row.parent) && t.folders[row.parent].owner == row.owner
    ensures var f := t.folders[id := row];
            WellFormed(f) && Acyclic(f) && SameNames(f) && (NoOrphans(t.folders) ==> NoOrphans(f))
    ensures Corresponds(t) ==> Corresponds(t.(folders := t.folders[id := row]))
  {
    var f := t.folders[id := row];
    if row.parent != "" {
      assert RowOk(t.folders, row.parent);
    }
    forall x | x in f
      ensures RowOk(f, x)
    {
      if x != id {
        assert RowOk(t.folders, x);
      }
    }
    RankAdded(t.folders, id, row);
    var t' := t.(folders := f);
    if Corresponds(t) {
      OriginalKeepsMatches(t, id, row);
    }
  }

  lemma OriginalKeepsMatches(t: Tables, id: Id, row: Folder)
    requires WellFormed(t.folders) && Fresh(t, id) && row.refId == id && Corresponds(t)
    ensures Corresponds(t.(folders := t.folders[id := row]))
  {
    CorrespondsStill(t, t.(folders := t.folders[id := row]));
  }

  // ----- Keeping entries and rows together

  /** No match appears, and none is lost while its entry or its row is still there. */
  ghost predicate MatchesKept(t: Tables, t': Tables) {
    && (forall s :: s in t'.sharing && t'.sharing[s].isFolder ==> s in t.sharing && t.sharing[s].isFolder)
    && (forall id :: IsShareRow(t'.folders, id) ==> IsShareRow(t.folders, id))
    && (forall s, id :: Match(t', s, id) ==> Match(t, s, id))
    && (forall s, id :: Match(t, s, id) && (s in t'.sharing || id in t'.folders) ==> Match(t', s, id))
  }

  lemma CorrespondsStill(t: Tables, t': Tables)
    requires Corresponds(t) && MatchesKept(t, t')
    ensures Corresponds(t')
  {
    forall s | s in t'.sharing && t'.sharing[s].isFolder
      ensures EntryMatched(t', s)
    {
      assert EntryMatched(t, s);
      var id :| Match(t, s, id);
      assert Match(t', s, id);
    }
    forall id | IsShareRow(t'.folders, id)
      ensures RowMatched(t', id)
    {
      assert RowMatched(t, id);
      var s :| Match(t, s, id);
      assert Match(t', s, id);
    }
  }

  /** Rows and entries that are removed in pairs. */
  lemma RemovalMatches(t: Tables, t': Tables, rows: set<Id>, entries: set<Id>)
    requires Corresponds(t)
    requires t'.folders == t.folders - rows && t'.sharing == t.sharing - entries
    requires forall s, id :: Match(t, s, id) ==> (s in entries <==> id in rows)
    requires forall s, id :: Match(t, s, id) && s !in entries ==> t.sharing[s].item !in rows
    ensures Corresponds(t')
  {
    CorrespondsStill(t, t');
  }

  /** Only names change. */
  lemma NamesMatch(t: Tables, t': Tables)
    requires Corresponds(t) && t'.sharing == t.sharing && t'.folders.Keys == t.folders.Keys
    requires forall id :: id in t.folders ==> t'.folders[id] == t.folders[id].(name := t'.folders[id].name)
    ensures Corresponds(t')
  {
    CorrespondsStill(t, t');
  }

  lemma NoOrphansLeft(f: Folders, gone: set<Id>)
    requires NoOrphans(f)
    requires forall id :: IsOriginal(f, id) && id !in gone ==> f[id].parent !in gone
    ensures NoOrphans(f - gone)
  {
  }

  // ----- The operations

  lemma NewRootKeeps(t: Tables, user: Id, key: Wrapped)
    requires Consistent(t) && Fresh(t, user)
    ensures Consistent(NewRoot(t, user, key))
  {
    OriginalAdded(t, user, NewRoot(t, user, key).folders[user]);
  }

  /** A new folder keeps the tables consistent if and only if its parent is named by the id of
      the folder itself and not by the id of a recipient's reference to it. */
  lemma NewFolderKeepsIff(t: Tables, user: Id, parent: Id, key: Wrapped, name: string, pw: bool, id: Id)
    requires Consistent(t) && Fresh(t, id) && IsRoot(t.folders, user)
    requires NewFolder(t, user, parent, key, name, pw, id).Ok?
    ensures Consistent(NewFolder(t, user, parent, key, name, pw, id).value) <==> !IsShareRow(t.folders, parent)
  {
    var t' := NewFolder(t, user, parent, key, name, pw, id).value;
    if IsShareRow(t.folders, parent) {
      assert parent != id && IsShareRow(t'.folders, parent) && !RowOk(t'.folders, id);
    } else {
      OriginalAdded(t, id, t'.folders[id]);
    }
  }

  lemma ReferenceAdded(t: Tables, id: Id, row: Folder)
    requires WellFormed(t.folders) && Acyclic(t.folders) && SameNames(t.folders) && NoOrphans(t.folders) && Fresh(t, id)
    requires IsOriginal(t.folders, row.refId) && t.folders[row.refId].parent != ""
    requires t.folders[row.refId].owner != row.owner && t.folders[row.refId].name == row.name
    requires IsRoot(t.folders, row.owner) && row.parent == row.owner
    requires !HasRow(t.folders, row.refId, row.owner)
    ensures var f := t.folders[id := row];
            WellFormed(f) && Acyclic(f) && SameNames(f) && NoOrphans(f)
  {
    ReferenceFits(t, id, row);
    RankAdded(t.folders, id, row);
    hide WellFormed, Acyclic;
  }

  lemma ReferenceFits(t: Tables, id: Id, row: Folder)
    requires WellFormed(t.folders) && Fresh(t, id)
    requires IsOriginal(t.folders, row.refId) && t.folders[row.refId].parent != ""
    requires t.folders[row.refId].owner != row.owner && IsRoot(t.folders, row.owner) && row.parent == row.owner
    requires !HasRow(t.folders, row.refId, row.owner)
    ensures WellFormed(t.folders[id := row]) && forall x :: x in t.folders ==> t.folders[x].parent != id
  {
    var f := t.folders[id := row];
    forall x | x in f
      ensures RowOk(f, x)
    {
      if x != id {
        assert RowOk(t.folders, x);
      }
    }
  }

  /** An owner's folder that has a row of the recipient has a sharing entry that says so. */
  lemma RowHasEntry(t: Tables, item: Id, user: Id, recipient: Id)
    requires Consistent(t) && IsOriginal(t.folders, item) && t.folders[item].owner == user && recipient != user
    requires HasRow(t.folders, item, recipient)
    ensures IsSharedWith(t, user, item, recipient)
  {
    var x := RowOf(t.folders, item, recipient);
    assert RowMatched(t, x);
    var s :| Match(t, s, x);
  }

  lemma ShareFolderKeeps(t: Tables, item: Id, user: Id, recipient: Id, key: Wrapped, canModify: bool, id: Id, shareId: Id)
    requires Consistent(t) && Fresh(t, id) && Fresh(t, shareId)
    requires ShareFolder(t, item, user, recipient, key, canModify, id, shareId).Ok?
    ensures Consistent(ShareFolder(t, item, user, recipient, key, canModify, id, shareId).value)
  {
    var t' := ShareFolder(t, item, user, recipient, key, canModify, id, shareId).value;
    assert RowOk(t.folders, item);
    if HasRow(t.folders, item, recipient) {
      RowHasEntry(t, item, user, recipient);
    }
    ReferenceAdded(t, id, t'.folders[id]);
    PairAdded(t, id, t'.folders[id], shareId);
  }

  /** The tables t' are t with a new entry s and a new row id that record the same share. */
  ghost predicate AddsPair(t: Tables, t': Tables, id: Id, s: Id) {
    && Fresh(t, id) && Fresh(t, s) && id in t'.folders && s in t'.sharing
    && t'.folders == t.folders[id := t'.folders[id]] && t'.sharing == t.sharing[s := t'.sharing[s]]
    && Match(t', s, id) && t'.sharing[s].item != id
  }

  lemma PairKeepsMatch(t: Tables, t': Tables, id: Id, s: Id, x: Id, y: Id)
    requires AddsPair(t, t', id, s) && Match(t, x, y)
    ensures Match(t', x, y)
  {
  }

  lemma PairEntries(t: Tables, t': Tables, id: Id, s: Id)
    requires Corresponds(t) && AddsPair(t, t', id, s)
    ensures forall x :: x in t'.sharing && t'.sharing[x].isFolder ==> EntryMatched(t', x)
  {
    forall x | x in t'.sharing && t'.sharing[x].isFolder
      ensures EntryMatched(t', x)
    {
      if x != s {
        assert EntryMatched(t, x);
        var y :| Match(t, x, y);
        PairKeepsMatch(t, t', id, s, x, y);
      }
    }
  }

  lemma PairRows(t: Tables, t': Tables, id: Id, s: Id)
    requires Corresponds(t) && AddsPair(t, t', id, s)
    ensures forall y :: IsShareRow(t'.folders, y) ==> RowMatched(t', y)
  {
    forall y | IsShareRow(t'.folders, y)
      ensures RowMatched(t', y)
    {
      if y != id {
        assert RowMatched(t, y);
        var x :| Match(t, x, y);
        PairKeepsMatch(t, t', id, s, x, y);
      }
    }
  }

  /** A new entry and a new row that record the same share. */
  lemma PairAdded(t: Tables, id: Id, row: Folder, s: Id)
    requires Corresponds(t) && Fresh(t, id) && Fresh(t, s) && IsOriginal(t.folders, row.refId)
    requires !HasRow(t.folders, row.refId, row.owner)
    ensures var f := t.folders;
            Corresponds(t.(folders := f[id := row],
                           sharing := t.sharing[s := Share(f[row.refId].owner, row.owner, row.refId, true, row.canModify)]))
  {
    var e := Share(t.folders[row.refId].owner, row.owner, row.refId, true, row.canModify);
    var t' := t.(folders := t.folders[id := row], sharing := t.sharing[s := e]);
    assert AddsPair(t, t', id, s);
    PairMatched(t, t', id, s);
  }

  lemma PairMatched(t: Tables, t': Tables, id: Id, s: Id)
    requires Corresponds(t) && AddsPair(t, t', id, s) && !HasRow(t.folders, t'.folders[id].refId, t'.folders[id].owner)
    ensures Corresponds(t')
  {
    PairEntries(t, t', id, s);
    PairRows(t, t', id, s);
    PairUnique(t, t', id, s);
    hide EntryMatched, RowMatched, Match, AddsPair, HasRow;
  }

  /** No two matches share a row. */
  lemma PairUnique(t: Tables, t': Tables, id: Id, s: Id)
    requires Corresponds(t) && AddsPair(t, t', id, s) && !HasRow(t.folders, t'.folders[id].refId, t'.folders[id].owner)
    ensures forall x, y :: Match(t', x, y) ==> (x == s && y == id) || Match(t, x, y)
    ensures forall x, y :: Match(t, x, y) ==> x != s && y != id
  {
    hide HasRow;
    forall x, y | Match(t', x, y)
      ensures (x == s && y == id) || Match(t, x, y)
    {
      PairOnly(t, t', id, s, x, y);
    }
  }

  lemma PairOnly(t: Tables, t': Tables, id: Id, s: Id, x: Id, y: Id)
    requires Corresponds(t) && AddsPair(t, t', id, s) && Match(t', x, y)
    ensures (x == s && y == id) || Match(t, x, y) || HasRow(t.folders, t'.folders[id].refId, t'.folders[id].owner)
  {
    if y == id && x != s {
      assert EntryMatched(t, x);
      var z :| Match(t, x, z);
    }
  }

  lemma EditEntryKeeps(t: Tables, user: Id, shareId: Id, canModify: bool)
    requires Consistent(t)
    ensures Consistent(EditEntry(t, user, shareId, canModify))
  {
    var t' := EditEntry(t, user, shareId, canModify);
    if shareId in t.sharing && t.sharing[shareId].owner == user && t.sharing[shareId].isFolder {
      assert EntryMatched(t, shareId);
      var row :| Match(t, shareId, row);
      PermissionSet(t, t', shareId, row, canModify);
    } else {
      FilesOnly(t, t');
    }
  }

  lemma ModifyShareKeeps(t: Tables, user: Id, shareId: Id, item: Id, canModify: bool)
    requires Consistent(t) && ModifyShare(t, user, shareId, item, canModify).Ok?
    ensures Consistent(ModifyShare(t, user, shareId, item, canModify).value)
  {
    EditEntryKeeps(t, user, shareId, canModify);
  }

  /** Changes to files and to their sharing entries leave the folders consistent. */
  lemma FilesOnly(t: Tables, t': Tables)
    requires Consistent(t) && t'.folders == t.folders
    requires forall s :: (s in t'.sharing && t'.sharing[s].isFolder) <==> (s in t.sharing && t.sharing[s].isFolder)
    requires forall s :: s in t.sharing && t.sharing[s].isFolder ==> t'.sharing[s] == t.sharing[s]
    requires forall s :: s in t'.sharing && !t'.sharing[s].isFolder ==> t'.sharing[s].item !in t.folders
    ensures Consistent(t')
  {
    hide WellFormed, Acyclic, NoOrphans, SameNames;
    CorrespondsStill(t, t');
  }

  /** The permission changes in the entry and in its row alike. */
  lemma PermissionSet(t: Tables, t': Tables, s: Id, row: Id, canModify: bool)
    requires Consistent(t) && Match(t, s, row)
    requires t'.sharing == t.sharing[s := t.sharing[s].(canModify := canModify)]
    requires t'.folders == SetFolderPermission(t.folders, t.sharing[s].item, t.sharing[s].recipient, canModify)
    ensures Consistent(t')
  {
    PermissionOnly(t, t', s, row, canModify);
    hide Corresponds, Match, SetFolderPermission, WellFormed, Acyclic, NoOrphans, EntriesApart, SameNames, SameShape;
    SameShapeKeeps(t.folders, t'.folders, map[]);
    PermissionMatches(t, t', s, row, canModify);
  }

  /** The folder rows differ in the permission of one reference. */
  lemma PermissionOnly(t: Tables, t': Tables, s: Id, row: Id, canModify: bool)
    requires Consistent(t) && Match(t, s, row)
    requires t'.sharing == t.sharing[s := t.sharing[s].(canModify := canModify)]
    requires t'.folders == SetFolderPermission(t.folders, t.sharing[s].item, t.sharing[s].recipient, canModify)
    ensures row in t.folders && t'.folders == t.folders[row := t.folders[row].(canModify := canModify)]
    ensures RowsOf(t.folders, t.sharing[s].item, t.sharing[s].recipient) == {row}
    ensures forall x :: x in EntriesOf(t.sharing, t.sharing[s].item, t.sharing[s].recipient) ==>
                          t.sharing[x].isFolder ==> x == s
    ensures SameShape(t.folders, t'.folders) && EntriesApart(t') && SameNames(t'.folders)
  {
    OneEntry(t, s, row);
    PermissionRows(t.folders, t.sharing[s].item, t.sharing[s].recipient, row, canModify);
    PermissionShape(t.folders, row, canModify);
    hide Corresponds, SetFolderPermission, Acyclic, NoOrphans, WellFormed, SameNames, SameShape, RowsOf, EntriesOf;
    assert t'.folders.Keys == t.folders.Keys;
  }

  lemma PermissionShape(f: Folders, row: Id, canModify: bool)
    requires row in f && f[row].refId != row
    ensures var g := f[row := f[row].(canModify := canModify)];
            SameShape(f, g) && (SameNames(f) ==> SameNames(g))
  {
  }

  lemma PermissionRows(f: Folders, item: Id, user: Id, row: Id, canModify: bool)
    requires RowsOf(f, item, user) == {row}
    ensures row in f
    ensures SetFolderPermission(f, item, user, canModify) == f[row := f[row].(canModify := canModify)]
  {
    assert row in RowsOf(f, item, user);
    var g := SetFolderPermission(f, item, user, canModify);
    forall id | id in f
      ensures g[id] == f[row := f[row].(canModify := canModify)][id]
    {
      assert f[id].refId == item && f[id].owner == user ==> id in RowsOf(f, item, user);
    }
  }

  /** The entry and the row of a share are the only ones for that folder and recipient. */
  lemma OneEntry(t: Tables, s: Id, row: Id)
    requires Corresponds(t) && OneRowPerUser(t.folders) && Match(t, s, row)
    ensures RowsOf(t.folders, t.sharing[s].item, t.sharing[s].recipient) == {row}
    ensures forall x :: x in EntriesOf(t.sharing, t.sharing[s].item, t.sharing[s].recipient) ==>
                          t.sharing[x].isFolder ==> x == s
  {
    forall x | x in EntriesOf(t.sharing, t.sharing[s].item, t.sharing[s].recipient) && t.sharing[x].isFolder
      ensures x == s
    {
      assert EntryMatched(t, x);
      var y :| Match(t, x, y);
      assert y == row;
    }
  }

  lemma PermissionMatches(t: Tables, t': Tables, s: Id, row: Id, canModify: bool)
    requires Corresponds(t) && Match(t, s, row)
    requires RowsOf(t.folders, t.sharing[s].item, t.sharing[s].recipient) == {row}
    requires forall x :: x in EntriesOf(t.sharing, t.sharing[s].item, t.sharing[s].recipient) ==>
                           t.sharing[x].isFolder ==> x == s
    requires t'.sharing == t.sharing[s := t.sharing[s].(canModify := canModify)]
    requires t'.folders == t.folders[row := t.folders[row].(canModify := canModify)]
    ensures Corresponds(t')
  {
    forall x, y
      ensures Match(t', x, y) <==> Match(t, x, y)
    {
      if Match(t', x, y) || Match(t, x, y) {
        assert x == s ==> y in RowsOf(t.folders, t.sharing[s].item, t.sharing[s].recipient);
        assert y == row ==> x in EntriesOf(t.sharing, t.sharing[s].item, t.sharing[s].recipient);
      }
    }
    CorrespondsStill(t, t');
  }

  /** Removing a share keeps the tables consistent if and only if the named entry is not a
      folder share or is one of the named folder by the asking user: an entry of another item
      is deleted all the same, but its recipient's row stays. */
  lemma RemoveShareKeepsIff(t: Tables, user: Id, item: Id, shareId: Id)
    requires Consistent(t) && RemoveShare(t, user, item, shareId).Ok?
    ensures Consistent(RemoveShare(t, user, item, shareId).value)
            <==> (shareId in t.sharing && t.sharing[shareId].isFolder ==>
                    t.sharing[shareId].item == item && t.sharing[shareId].owner == user)
  {
    var t' := RemoveShare(t, user, item, shareId).value;
    if shareId in t.sharing && t.sharing[shareId].isFolder {
      assert EntryMatched(t, shareId);
      var row :| Match(t, shareId, row);
      if t.sharing[shareId].item == item && t.sharing[shareId].owner == user {
        OneEntry(t, shareId, row);
        ReferenceRemoved(t, t', shareId, row);
      } else {
        EntryLost(t, t', shareId, row);
      }
    } else {
      FileEntryRemoved(t, user, item, shareId);
    }
  }

  lemma FileEntryRemoved(t: Tables, user: Id, item: Id, shareId: Id)
    requires Consistent(t) && RemoveShare(t, user, item, shareId).Ok?
    requires shareId in t.sharing ==> !t.sharing[shareId].isFolder
    ensures Consistent(RemoveShare(t, user, item, shareId).value)
  {
    var t' := RemoveShare(t, user, item, shareId).value;
    var own := RowOf(t.folders, item, user);
    assert RowOk(t.folders, own);
    assert t'.folders == t.folders;
    hide WellFormed, Acyclic, NoOrphans, SameNames;
    CorrespondsStill(t, t');
  }

  lemma EntryLost(t: Tables, t': Tables, s: Id, row: Id)
    requires Corresponds(t) && Match(t, s, row)
    requires t'.folders == t.folders && t'.sharing == t.sharing - {s}
    ensures !Corresponds(t')
  {
    if RowMatched(t', row) {
      var x :| Match(t', x, row);
      assert Match(t, x, row);
    }
  }

  /** An entry and its row leave together. */
  lemma ReferenceRemoved(t: Tables, t': Tables, s: Id, row: Id)
    requires Consistent(t) && Match(t, s, row)
    requires t'.folders == t.folders - {row} && t'.sharing == t.sharing - {s}
    ensures Consistent(t')
  {
    RemovalKeeps(t.folders, {row}, map[]);
    forall id | IsOriginal(t.folders, id)
      ensures t.folders[id].parent != row
    {
      assert RowOk(t.folders, id) && IsShareRow(t.folders, row);
    }
    NoOrphansLeft(t.folders, {row});
    RemovalMatches(t, t', {row}, {s});
  }

  lemma LeaveShareKeeps(t: Tables, id: Id, user: Id)
    requires Consistent(t) && !IsOriginal(t.folders, id)
    ensures Consistent(LeaveShare(t, id, user))
  {
    var t' := LeaveShare(t, id, user);
    if id in t.folders && t.folders[id].owner == user {
      assert RowMatched(t, id) && RowOk(t.folders, id);
      var s :| Match(t, s, id);
      OneEntry(t, s, id);
      assert EntriesOf(t.sharing, t.folders[id].refId, user) == {s};
      ReferenceRemoved(t, t', s, id);
    }
  }

  /** Another row lies in the folder or refers to it. */
  ghost predicate IsUsed(f: Folders, id: Id) {
    exists x :: x in f && x != id && (f[x].refId == id || f[x].parent == id)
  }

  /** A user with any other row has one directly in the root folder. */
  lemma {:induction false} RootIsUsed(f: Folders, root: Id, x: Id)
    requires WellFormed(f) && Acyclic(f) && NoOrphans(f) && IsRoot(f, root) && x in f && x != root && f[x].owner == root
    ensures IsUsed(f, root)
    decreases Height(f, x)
  {
    assert RowOk(f, x);
    if f[x].parent == root {
    } else {
      assert IsOriginal(f, x) && f[x].parent in f;
      RootIsUsed(f, root, f[x].parent);
    }
  }

  lemma UnusedFolderGoes(f: Folders, id: Id)
    requires WellFormed(f) && Acyclic(f) && NoOrphans(f) && IsOriginal(f, id) && !IsUsed(f, id)
    ensures WellFormed(f - {id}) && Acyclic(f - {id}) && NoOrphans(f - {id}) && (SameNames(f) ==> SameNames(f - {id}))
  {
    var g := f - {id};
    forall x | x in g
      ensures RowOk(g, x)
    {
      UnusedRowOk(f, id, x);
    }
    StillRanked(f, g);
    NoOrphansLeft(f, {id});
    hide Acyclic, RowOk;
  }

  lemma UnusedRowOk(f: Folders, id: Id, x: Id)
    requires WellFormed(f) && Acyclic(f) && NoOrphans(f) && IsOriginal(f, id) && !IsUsed(f, id) && x in f && x != id
    ensures RowOk(f - {id}, x)
  {
    assert RowOk(f, x);
    if f[x].owner == id {
      RootIsUsed(f, id, x);
    }
  }

  lemma StillRanked(f: Folders, g: Folders)
    requires Acyclic(f) && g.Keys <= f.Keys && forall x :: x in g ==> g[x] == f[x]
    ensures Acyclic(g)
  {
    var rank := RankOf(f);
    forall x | x in g
      ensures RankOk(g, rank, x)
    {
      assert RankOk(f, rank, x);
    }
    assert Ranked(g, rank);
  }

  lemma UsedFolderStays(f: Folders, id: Id)
    requires WellFormed(f) && id in f && IsUsed(f, id)
    ensures !(WellFormed(f - {id}) && NoOrphans(f - {id}))
  {
    var g := f - {id};
    var x :| x in f && x != id && (f[x].refId == id || f[x].parent == id);
    if IsOriginal(g, x) {
      assert g[x].parent == id && id !in g;
    } else {
      assert !RowOk(g, x);
    }
  }

  /** No entry shares a folder that no row refers to. */
  lemma UnusedHasNoEntry(t: Tables, id: Id, user: Id)
    requires Consistent(t) && IsOriginal(t.folders, id) && !IsUsed(t.folders, id)
    ensures EntriesOf(t.sharing, id, user) == {}
  {
    forall s | s in t.sharing
      ensures t.sharing[s].item != id
    {
      if t.sharing[s].isFolder {
        assert EntryMatched(t, s);
        var row :| Match(t, s, row);
        assert row in t.folders && row != t.sharing[s].item;
      }
    }
  }

  /** What DELETE with `shared` does to a user's row: the tables stay consistent if and only if no other
      row lies in the folder or refers to it. A reference can always go; the server does not look
      whether the row is one. */
  lemma LeaveShareKeepsIff(t: Tables, id: Id, user: Id)
    requires Consistent(t)
    ensures Consistent(LeaveShare(t, id, user))
            <==> !(id in t.folders && t.folders[id].owner == user && IsUsed(t.folders, id))
  {
    hide Consistent;
    var f := t.folders;
    if id !in f || f[id].owner != user {
      assert LeaveShare(t, id, user) == t;
    } else if IsOriginal(f, id) {
      LeaveOwnKeepsIff(t, id, user);
    } else {
      LeaveShareKeeps(t, id, user);
      ReferenceIsUnused(t, id);
    }
  }

  lemma ReferenceIsUnused(t: Tables, id: Id)
    requires Consistent(t) && IsShareRow(t.folders, id)
    ensures !IsUsed(t.folders, id)
  {
    forall x | x in t.folders
      ensures t.folders[x].refId != id && t.folders[x].parent != id
    {
      assert RowOk(t.folders, x) && RowOk(t.folders, id);
    }
  }

  lemma LeaveOwnKeepsIff(t: Tables, id: Id, user: Id)
    requires Consistent(t) && IsOriginal(t.folders, id) && t.folders[id].owner == user
    ensures Consistent(LeaveShare(t, id, user)) <==> !IsUsed(t.folders, id)
  {
    var t' := LeaveShare(t, id, user);
    assert t'.folders == t.folders - {id};
    if IsUsed(t.folders, id) {
      UsedFolderStays(t.folders, id);
    } else {
      UnusedFolderGoes(t.folders, id);
      UnusedHasNoEntry(t, id, user);
      assert t'.sharing == t.sharing - {};
      hide WellFormed, Acyclic, NoOrphans, SameNames;
      RemovalMatches(t, t', {id}, {});
    }
  }

  /** RemoveShare for a file, which looks at the item's kind only to remove rows: the tables stay
      consistent if and only if the entry is none of a folder. */
  lemma FileUnshareKeepsIff(t: Tables, user: Id, item: Id, shareId: Id)
    requires Consistent(t)
    ensures Consistent(WithoutFileShare(t, user, item, shareId))
            <==> !(shareId in t.sharing && t.sharing[shareId].isFolder)
  {
    var t' := WithoutFileShare(t, user, item, shareId);
    if shareId in t.sharing && t.sharing[shareId].isFolder {
      assert EntryMatched(t, shareId);
      var row :| Match(t, shareId, row);
      EntryLost(t, t', shareId, row);
    } else {
      FilesOnly(t, t');
    }
  }

  lemma RenameKeeps(t: Tables, user: Id, id: Id, name: string)
    requires Consistent(t) && Rename(t, user, id, name).Ok?
    ensures Consistent(Rename(t, user, id, name).value)
  {
    var t' := Rename(t, user, id, name).value;
    SameShapeKeeps(t.folders, t'.folders, map[]);
    NamesMatch(t, t');
  }

  /** Dropping whole subtrees with the files in them. */
  lemma DropKeeps(t: Tables, folders: set<Id>, files: set<Id>)
    requires Consistent(t) && files !! t.folders.Keys
    requires forall id :: id in folders ==> IsOriginal(t.folders, id) && t.folders[id].parent != ""
    requires forall id :: IsOriginal(t.folders, id) && t.folders[id].parent in folders ==> id in folders
    ensures Consistent(Drop(t, folders, files))
  {
    var t' := Drop(t, folders, files);
    var gone := set id | id in t.folders && t.folders[id].refId in folders;
    assert t'.folders == t.folders - gone;
    assert Removable(t.folders, gone);
    RemovalKeeps(t.folders, gone, map[]);
    forall id | IsOriginal(t.folders, id) && id !in gone
      ensures t.folders[id].parent !in gone
    {
      assert RowOk(t.folders, id);
    }
    NoOrphansLeft(t.folders, gone);
    var entries := set s | s in t.sharing && t.sharing[s].item in folders + files;
    assert t'.sharing == t.sharing - entries;
    RemovalMatches(t, t', gone, entries);
  }
}
