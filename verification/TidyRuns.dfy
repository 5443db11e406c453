/** Runs in which deletion frees exactly what was uploaded and leaves no copies. */
module TidyRuns {
  import opened Results
  import opened Tables
  import opened VaultOps
  import opened FolderDelete
  import opened FileCopies
  import opened VaultRun

  /** Copies are of the same kind as their files. */
  ghost predicate SameKinds(t: Tables) {
    forall z :: z in t.files && t.files[z].refId in t.files ==> t.files[z].pw == t.files[t.files[z].refId].pw
  }

  ghost predicate Orderly(t: Tables) {
    Flat(t) && SameSizes(t, t.files.Keys) && SameKinds(t)
  }

  /** The request keeps files and copies together: an upload is finished while it has no copy, a share
      is made from the file itself, and a row goes with the rows that refer to it. */
  ghost predicate Tidy(t: Tables, op: Op) {
    match op
    case FinishUpload(id, _) => id in t.files ==> FileRows(t.files, id) == {id}
    case ShareFile(_, _, _, _, _, _, from) => from in t.files ==> t.files[from].refId == from
    case LeaveFile(user, id) => id in t.files && t.files[id].owner == user ==> !IsReferredTo(t.files, {id})
    case UnshareFile(user, shareId, item) =>
      shareId in t.sharing && t.sharing[shareId].item == item && t.sharing[shareId].owner == user ==>
        !IsReferredTo(t.files, FileRowsOf(t.files, item, t.sharing[shareId].recipient))
    case _ => true
  }

  lemma OrderlyRest(t: Tables, t': Tables)
    requires SameSizes(t, t.files.Keys) && SameKinds(t)
    requires t'.files.Keys <= t.files.Keys
    requires forall z :: z in t'.files ==> t'.files[z] == t.files[z].(canModify := t'.files[z].canModify)
    ensures SameSizes(t', t'.files.Keys) && SameKinds(t')
  {
  }

  lemma SameRowsFlat(t: Tables, t': Tables)
    requires Flat(t) && t'.files.Keys == t.files.Keys
    requires forall z :: z in t.files ==> t'.files[z].refId == t.files[z].refId
    ensures Flat(t')
  {
    forall z | z in t'.files
      ensures IsFlat(t'.files, z)
    {
      assert IsFlat(t.files, z);
    }
  }

  lemma UploadIsOrderly(t: Tables, t': Tables, id: Id)
    requires Orderly(t) && Fresh(t, id) && id in t'.files && t'.files == t.files[id := t'.files[id]] && t'.files[id].refId == id
    ensures Orderly(t')
  {
    forall z | z in t'.files
      ensures IsFlat(t'.files, z)
    {
      assert z != id ==> IsFlat(t.files, z);
    }
  }

  lemma CopyIsOrderly(t: Tables, item: Id, user: Id, recipient: Id, canModify: bool, id: Id, shareId: Id, from: Id)
    requires Orderly(t) && Fresh(t, id) && from in t.files && t.files[from].refId == from
    ensures Orderly(WithCopy(t, item, user, recipient, canModify, id, shareId, from))
  {
    CopyKeepsFlatIff(t, item, user, recipient, canModify, id, shareId, from);
    CopyKeepsSizes(t, item, user, recipient, canModify, id, shareId, from);
    hide Flat, SameSizes;
  }

  lemma FinishIsOrderly(t: Tables, id: Id, length: int)
    requires Orderly(t) && (id in t.files ==> FileRows(t.files, id) == {id})
    ensures Orderly(Finished(t, id, length))
  {
    var t' := Finished(t, id, length);
    if id in t.files {
      assert id in FileRows(t.files, id);
      FinishKeepsSizesIff(t, id, length);
      hide SameSizes;
      SameRowsFlat(t, t');
    }
  }

  lemma EditIsOrderly(t: Tables, id: Id, pw: bool)
    requires Orderly(t)
    ensures Orderly(t.(files := SetKind(t.files, id, pw)))
  {
    var t' := t.(files := SetKind(t.files, id, pw));
    SameRowsFlat(t, t');
    forall z | z in t'.files && t'.files[z].refId in t'.files
      ensures PlainSize(t'.files[z]) == PlainSize(t'.files[t'.files[z].refId])
      ensures t'.files[z].pw == t'.files[t'.files[z].refId].pw
    {
      assert IsFlat(t.files, z);
    }
  }

  lemma EntryIsOrderly(t: Tables, user: Id, shareId: Id, canModify: bool)
    requires Orderly(t)
    ensures Orderly(EditEntry(t, user, shareId, canModify))
  {
    var t' := EditEntry(t, user, shareId, canModify);
    assert forall z :: z in t.files ==> z in t'.files && t'.files[z] == t.files[z].(canModify := t'.files[z].canModify);
    assert t'.files.Keys == t.files.Keys;
    hide EditEntry;
    SameRowsFlat(t, t');
    OrderlyRest(t, t');
  }

  lemma GoneIsOrderly(t: Tables, t': Tables, gone: set<Id>)
    requires Orderly(t) && t'.files == t.files - gone && !IsReferredTo(t.files, gone)
    ensures Orderly(t')
  {
    RowsGoFlatIff(t, t', gone);
    OrderlyRest(t, t');
  }

  lemma DropIsOrderly(t: Tables, folders: set<Id>, files: set<Id>)
    requires Orderly(t)
    ensures Orderly(Drop(t, folders, files))
  {
    DropKeepsFlat(t, folders, files);
    OrderlyRest(t, Drop(t, folders, files));
  }

  lemma RowsComeOrderly(s: State, op: Op, s': State)
    requires Orderly(s.t) && Step(s, op, s') && Tidy(s.t, op)
    requires op.Upload? || op.FinishUpload? || op.EditFile? || op.ShareFile? || op.EditShare? || op.EditFileShare?
    ensures Orderly(s'.t)
  {
    hide Orderly, WellFormed, Acyclic, EditEntry;
    match op {
      case Upload(_, _, _, _, _, _, id) => UploadIsOrderly(s.t, s'.t, id);
      case FinishUpload(id, length) => FinishIsOrderly(s.t, id, length);
      case EditFile(_, id, pw) => EditIsOrderly(s.t, id, pw);
      case ShareFile(user, item, recipient, canModify, id, shareId, from) =>
        ReadRowOf(s.t, item, user, from);
        CopyIsOrderly(s.t, item, user, recipient, canModify, id, shareId, from);
      case EditShare(user, shareId, _, canModify) => EntryIsOrderly(s.t, user, shareId, canModify);
      case EditFileShare(user, shareId, canModify) => EntryIsOrderly(s.t, user, shareId, canModify);
    }
  }

  lemma RowsGoOrderly(s: State, op: Op, s': State)
    requires Orderly(s.t) && Step(s, op, s') && Tidy(s.t, op)
    requires op.UnshareFile? || op.LeaveFile? || op.DeleteFile? || op.DeleteFolder?
    ensures Orderly(s'.t)
  {
    hide Orderly, WellFormed, Acyclic, IsPart, Drop;
    match op {
      case UnshareFile(user, shareId, item) =>
        var found := shareId in s.t.sharing && s.t.sharing[shareId].item == item && s.t.sharing[shareId].owner == user;
        GoneIsOrderly(s.t, s'.t, if found then FileRowsOf(s.t.files, item, s.t.sharing[shareId].recipient) else {});
      case LeaveFile(user, id) =>
        assert s.t.files - {} == s.t.files;
        GoneIsOrderly(s.t, s'.t, if id in s.t.files && s.t.files[id].owner == user then {id} else {});
      case DeleteFile(id) => DropIsOrderly(s.t, {}, {id});
      case DeleteFolder(user, id, pw) =>
        var folders, files :| IsPartly(s.t, s'.t, id, pw, folders, files);
        DropIsOrderly(s.t, folders, files);
    }
  }

  /** A tidy request keeps files and their copies together. */
  lemma TidyKeeps(s: State, op: Op, s': State)
    requires Orderly(s.t) && Step(s, op, s') && Tidy(s.t, op)
    ensures Orderly(s'.t)
  {
    hide Orderly, Tidy, WellFormed, Acyclic, IsPart, EditEntry, Drop;
    if op.UnshareFile? || op.LeaveFile? || op.DeleteFile? || op.DeleteFolder? {
      RowsGoOrderly(s, op, s');
    } else if op.Upload? || op.FinishUpload? || op.EditFile? || op.ShareFile? || op.EditShare? || op.EditFileShare? {
      RowsComeOrderly(s, op, s');
    } else {
      FilesAlike(s.t, s'.t);
    }
  }

  lemma FilesAlike(t: Tables, t': Tables)
    requires Orderly(t) && t'.files == t.files
    ensures Orderly(t')
  {
    SameRowsFlat(t, t');
  }

  /** A run of tidy requests leads to this state. */
  ghost predicate TidyReaches(ops: seq<Op>, last: State) {
    if ops == [] then last == EMPTY
    else
      var before, op := ops[..|ops| - 1], ops[|ops| - 1];
      exists s :: TidyReaches(before, s) && Step(s, op, last) && Tidy(s.t, op)
  }

  /** After any run of tidy requests, every row is a file or a copy of one, of the same size and kind,
      and the state is one of those of VaultRun. */
  lemma {:induction false} TidyRunKeeps(ops: seq<Op>, last: State)
    requires TidyReaches(ops, last)
    ensures Reaches(ops, last) && Orderly(last.t)
  {
    if ops == [] {
    } else {
      var front := ops[..|ops| - 1];
      var s :| TidyReaches(front, s) && Step(s, ops[|ops| - 1], last) && Tidy(s.t, ops[|ops| - 1]);
      TidyRunKeeps(front, s);
      TidyKeeps(s, ops[|ops| - 1], last);
    }
  }

  /** After such a run an owner's deletion of a folder that succeeds returns exactly the plain sizes of
      the files in the subtree, and no row is left that belonged to one of them. */
  lemma TidyDeletion(ops: seq<Op>, s: State, now: Tables, user: Id, top: Id, pw: bool, r: Result<int, Error>)
    requires TidyReaches(ops, s) && WellFormed(s.t.folders) && Acyclic(s.t.folders)
    requires TreeOutcome(s.t, now, top, pw, r, user)
    ensures r.Ok? ==>
              var files := FilesIn(s.t, Subtree(s.t.folders, top, {pw}), {pw});
              && files <= s.t.files.Keys && r.value == SizeSum(s.t.files, files)
              && forall z :: z in now.files ==> z !in files && now.files[z].refId !in files
    ensures Orderly(now)
  {
    TidyRunKeeps(ops, s);
    if r.Ok? {
      var all := Subtree(s.t.folders, top, {pw});
      var files := FilesIn(s.t, all, {pw});
      assert SameSizes(s.t, files);
      DropIsOrderly(s.t, all, files);
    } else {
      var folders, files :| IsPartly(s.t, now, top, pw, folders, files);
      DropIsOrderly(s.t, folders, files);
    }
  }
}
