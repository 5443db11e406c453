/** Copies of files: what they refer to, and when their sizes and kinds are those of the files. */
module FileCopies {
  import opened Results
  import opened Tables
  import opened Ownership
  import opened VaultOps
  import opened FolderDelete

  /** The row refers to a file that is there and no copy itself. */
  predicate IsFlat(files: map<Id, File>, z: Id)
    requires z in files
  {
    files[z].refId in files && files[files[z].refId].refId == files[z].refId
  }

  /** Every row is a file or a copy of one. */
  ghost predicate Flat(t: Tables) {
    forall z {:trigger IsFlat(t.files, z)} :: z in t.files ==> IsFlat(t.files, z)
  }

  /** A row other than those that go refers to one that goes. */
  ghost predicate IsReferredTo(files: map<Id, File>, gone: set<Id>) {
    exists w :: w in files && w !in gone && files[w].refId in gone
  }

  /** Rows may go if and only if no other row refers to them. */
  lemma RowsGoFlatIff(t: Tables, t': Tables, gone: set<Id>)
    requires Flat(t) && t'.files == t.files - gone
    ensures Flat(t') <==> !IsReferredTo(t.files, gone)
  {
    if IsReferredTo(t.files, gone) {
      var w :| w in t.files && w !in gone && t.files[w].refId in gone;
      assert !IsFlat(t'.files, w);
    } else {
      forall z | z in t'.files
        ensures IsFlat(t'.files, z)
      {
        assert IsFlat(t.files, z);
      }
    }
  }

  /** A copy of a file, and not of a copy, keeps the rows flat. */
  lemma CopyKeepsFlatIff(t: Tables, item: Id, user: Id, recipient: Id, canModify: bool, id: Id, shareId: Id, from: Id)
    requires Flat(t) && Fresh(t, id) && from in t.files
    ensures Flat(WithCopy(t, item, user, recipient, canModify, id, shareId, from)) <==> t.files[from].refId == from
  {
    var t' := WithCopy(t, item, user, recipient, canModify, id, shareId, from);
    if t.files[from].refId == from {
      forall z | z in t'.files
        ensures IsFlat(t'.files, z)
      {
        assert z != id ==> IsFlat(t.files, z);
      }
    } else {
      assert !IsFlat(t'.files, id);
    }
  }

  /** The row stays although the row that it refers to goes, because that one refers to a deleted file. */
  predicate IsLeftBehind(files: map<Id, File>, deleted: set<Id>, w: Id)
    requires w in files && files[w].refId in files
  {
    files[w].refId !in deleted && files[files[w].refId].refId in deleted
  }

  ghost predicate AllRefer(files: map<Id, File>) {
    forall z :: z in files ==> files[z].refId in files
  }

  /** Deleting files with the rows that refer to them leaves rows that refer to nothing if and only if
      a copy of a deleted file has been copied itself. */
  lemma DropLeavesNoneIff(t: Tables, folders: set<Id>, files: set<Id>)
    requires AllRefer(t.files)
    ensures AllRefer(Drop(t, folders, files).files)
            <==> forall w :: w in t.files ==> !IsLeftBehind(t.files, files, w)
  {
    var left := Drop(t, folders, files).files;
    forall w | w in t.files
      ensures IsLeftBehind(t.files, files, w) <==> w in left && left[w].refId !in left
    {
    }
  }

  /** If every row is a file or a copy of one, deletion takes all copies and leaves it so. */
  lemma DropKeepsFlat(t: Tables, folders: set<Id>, files: set<Id>)
    requires Flat(t)
    ensures Flat(Drop(t, folders, files))
  {
    var t' := Drop(t, folders, files);
    forall z | z in t'.files
      ensures IsFlat(t'.files, z)
    {
      assert IsFlat(t.files, z);
    }
  }

  /** A user gives up a row, as DELETE with `shared` does: rows stay flat unless it is the user's own
      file and has copies. */
  lemma LeaveKeepsFlatIff(t: Tables, id: Id, user: Id)
    requires Flat(t)
    ensures Flat(LeaveFile(t, id, user))
            <==> !(id in t.files && t.files[id].owner == user && IsReferredTo(t.files, {id}))
  {
    var t' := LeaveFile(t, id, user);
    if id in t.files && t.files[id].owner == user {
      RowsGoFlatIff(t, t', {id});
    }
  }

  /** Removing the share of a file keeps them so unless the recipient is the one who has uploaded it,
      so that the file itself goes, and there are copies of others. */
  lemma UnshareKeepsFlatIff(t: Tables, user: Id, item: Id, shareId: Id)
    requires Flat(t)
    ensures Flat(WithoutFileShare(t, user, item, shareId))
            <==> !(shareId in t.sharing && t.sharing[shareId].item == item && t.sharing[shareId].owner == user
                   && IsReferredTo(t.files, FileRowsOf(t.files, item, t.sharing[shareId].recipient)))
  {
    var found := shareId in t.sharing && t.sharing[shareId].item == item && t.sharing[shareId].owner == user;
    var gone := if found then FileRowsOf(t.files, item, t.sharing[shareId].recipient) else {};
    assert t.files - {} == t.files;
    RowsGoFlatIff(t, WithoutFileShare(t, user, item, shareId), gone);
  }
}
