/** Who may read and edit a file, in terms of rows and sharing entries. */
module FileAccess {
  import opened Results
  import opened Tables
  import opened Ownership
  import opened VaultOps
  import opened VaultInvariant
  import opened VaultAccess
  import opened FolderDelete

  /** A row by which the file may be looked up: one of the user's, or the only one. */
  ghost predicate LooksAt(files: map<Id, File>, file: Id, user: Id, at: Id) {
    && at in files && files[at].refId == file
    && (files[at].owner == user || forall z :: z in files && files[z].refId == file ==> z == at)
  }

  ghost predicate HoldsRow(files: map<Id, File>, file: Id, user: Id) {
    exists z :: z in files && files[z].refId == file && files[z].owner == user
  }

  /** The owner of the root folder `home` has shared the file with the user. */
  ghost predicate GivenFrom(t: Tables, home: Id, file: Id, user: Id) {
    exists s :: s in t.sharing && t.sharing[s].owner == home && t.sharing[s].item == file && t.sharing[s].recipient == user
  }

  /** By this row the user may read: its folder is the user's or shared with the user on the way up, or
      the file itself is shared from there. */
  ghost predicate OpensAt(t: Tables, file: Id, user: Id, at: Id)
    requires Acyclic(t.folders) && at in t.files
  {
    var x := t.files[at].folder;
    && x != "" && (CanSee(t, x, user) || GivenFrom(t, x, file, user))
    && (x == user ==> HoldsRow(t.files, file, user))
  }

  ghost predicate MayRead(t: Tables, file: Id, user: Id)
    requires Acyclic(t.folders)
  {
    exists at :: LooksAt(t.files, file, user, at) && OpensAt(t, file, user, at)
  }

  ghost predicate MayNotRead(t: Tables, file: Id, user: Id)
    requires Acyclic(t.folders)
  {
    (forall at :: !LooksAt(t.files, file, user, at)) || exists at :: LooksAt(t.files, file, user, at) && !OpensAt(t, file, user, at)
  }

  lemma HitIsLookedAt(t: Tables, file: Id, user: Id, at: Id)
    ensures IsHit(t.files, file, user, at) <==> LooksAt(t.files, file, user, at)
  {
    if LooksAt(t.files, file, user, at) {
      assert forall z :: z in FileRows(t.files, file) ==> z in t.files && t.files[z].refId == file;
      if t.files[at].owner != user {
        assert FileRows(t.files, file) == {at};
      }
    } else if IsHit(t.files, file, user, at) && t.files[at].owner != user {
      forall z | z in t.files && t.files[z].refId == file
        ensures z == at
      {
        assert z in FileRows(t.files, file);
      }
    }
  }

  lemma AccessIsOpen(t: Tables, file: Id, user: Id, at: Id)
    requires Consistent(t) && IsHit(t.files, file, user, at)
    ensures OpensAt(t, file, user, at) <==>
              t.files[at].folder != "" && HasAccess(t, file, user, at) && exists z :: IsRead(t, file, user, at, z)
  {
    var x := t.files[at].folder;
    FindsWhatIsSeen(t, x, user);
    assert IsSharedWith(t, x, file, user) <==> GivenFrom(t, x, file, user);
    hide Consistent, CheckFolderOwnership, CanSee;
    if x != "" && (x == user ==> HoldsRow(t.files, file, user)) {
      var z :| z in t.files && t.files[z].refId == file && (x == user ==> t.files[z].owner == user);
      assert IsRead(t, file, user, at, z);
    }
  }

  /** The row is looked at and something can be read by it. */
  ghost predicate GivesAt(t: Tables, file: Id, user: Id, at: Id)
    requires WellFormed(t.folders) && Acyclic(t.folders)
  {
    && IsHit(t.files, file, user, at) && t.files[at].folder != "" && HasAccess(t, file, user, at)
    && exists z :: IsRead(t, file, user, at, z)
  }

  lemma GivesWhereOpen(t: Tables, file: Id, user: Id)
    requires Consistent(t)
    ensures forall at :: LooksAt(t.files, file, user, at) <==> IsHit(t.files, file, user, at)
    ensures forall at :: GivesAt(t, file, user, at) <==> LooksAt(t.files, file, user, at) && OpensAt(t, file, user, at)
  {
    forall at
      ensures LooksAt(t.files, file, user, at) <==> IsHit(t.files, file, user, at)
      ensures GivesAt(t, file, user, at) <==> LooksAt(t.files, file, user, at) && OpensAt(t, file, user, at)
    {
      HitIsLookedAt(t, file, user, at);
      if IsHit(t.files, file, user, at) {
        AccessIsOpen(t, file, user, at);
      }
    }
  }

  lemma GivesIffRetrieves(t: Tables, file: Id, user: Id)
    requires WellFormed(t.folders) && Acyclic(t.folders)
    ensures (exists z :: Retrieves(t, file, user, z)) <==> exists at :: GivesAt(t, file, user, at)
    ensures FailsToRetrieve(t, file, user) <==>
              (forall at :: !IsHit(t.files, file, user, at)) || exists at :: IsHit(t.files, file, user, at) && !GivesAt(t, file, user, at)
  {
    hide HasAccess, WellFormed, Acyclic;
    forall z | Retrieves(t, file, user, z)
      ensures exists at :: GivesAt(t, file, user, at)
    {
      var at :| IsRead(t, file, user, at, z) && HasAccess(t, file, user, at);
      assert GivesAt(t, file, user, at);
    }
    forall at | GivesAt(t, file, user, at)
      ensures exists z :: Retrieves(t, file, user, z)
    {
      var z :| IsRead(t, file, user, at, z);
      assert Retrieves(t, file, user, z);
    }
  }

  /** RetrieveVaultMetadata can give a row of a file to a user exactly if some row of the file opens it,
      and can fail exactly if some does not or the user has none of several. */
  lemma ReadsWhatIsOpen(t: Tables, file: Id, user: Id)
    requires Consistent(t)
    ensures (exists z :: Retrieves(t, file, user, z)) <==> MayRead(t, file, user)
    ensures FailsToRetrieve(t, file, user) <==> MayNotRead(t, file, user)
    ensures forall z :: Retrieves(t, file, user, z) ==> z in t.files && t.files[z].refId == file
  {
    GivesWhereOpen(t, file, user);
    GivesIffRetrieves(t, file, user);
    hide Consistent, HasAccess, OpensAt, LooksAt, GivesAt, FailsToRetrieve;
  }

  /** For a file without copies there is one answer: a stranger to the folder and to the file is refused. */
  lemma OnlyRowDecides(t: Tables, file: Id, user: Id, z: Id)
    requires Consistent(t) && z in t.files && t.files[z].refId == file
    requires forall w :: w in t.files && t.files[w].refId == file ==> w == z
    ensures MayRead(t, file, user) <==> OpensAt(t, file, user, z)
    ensures MayNotRead(t, file, user) <==> !OpensAt(t, file, user, z)
  {
    hide Consistent, OpensAt;
    assert forall at :: LooksAt(t.files, file, user, at) <==> at == z;
  }

  // ----- Editing

  ghost predicate HoldsRowThat(files: map<Id, File>, file: Id, user: Id, canModify: bool) {
    exists z :: z in files && files[z].refId == file && files[z].owner == user && files[z].canModify == canModify
  }

  /** By this row editing may be allowed: the user can change its folder, and in the own root folder a
      row of the user allows it. */
  ghost predicate AllowsAt(t: Tables, file: Id, user: Id, at: Id)
    requires Acyclic(t.folders) && at in t.files
  {
    var x := t.files[at].folder;
    CanChange(t, x, user) && (x == user ==> HoldsRowThat(t.files, file, user, true))
  }

  ghost predicate RefusesAt(t: Tables, file: Id, user: Id, at: Id)
    requires Acyclic(t.folders) && at in t.files
  {
    var x := t.files[at].folder;
    !CanChange(t, x, user) || (x == user && (HoldsRowThat(t.files, file, user, false) || !HoldsRow(t.files, file, user)))
  }

  ghost predicate MayEdit(t: Tables, file: Id, user: Id)
    requires Acyclic(t.folders)
  {
    exists at :: LooksAt(t.files, file, user, at) && AllowsAt(t, file, user, at)
  }

  ghost predicate MayNotEdit(t: Tables, file: Id, user: Id)
    requires Acyclic(t.folders)
  {
    (forall at :: !LooksAt(t.files, file, user, at)) || exists at :: LooksAt(t.files, file, user, at) && RefusesAt(t, file, user, at)
  }

  lemma RowsThat(t: Tables, file: Id, user: Id)
    ensures HoldsRow(t.files, file, user) <==> FileRowsOf(t.files, file, user) != {}
    ensures forall b :: HoldsRowThat(t.files, file, user, b) <==>
                          exists w :: w in FileRowsOf(t.files, file, user) && t.files[w].canModify == b
  {
    forall z | z in t.files && t.files[z].refId == file && t.files[z].owner == user
      ensures z in FileRowsOf(t.files, file, user)
    {
    }
  }

  lemma AnswersAt(t: Tables, file: Id, user: Id, at: Id)
    requires Consistent(t) && IsHit(t.files, file, user, at)
    ensures Allows(t, file, user, at) <==> AllowsAt(t, file, user, at)
    ensures Refuses(t, file, user, at) <==> RefusesAt(t, file, user, at)
  {
    FindsWhatIsSeen(t, t.files[at].folder, user);
    RowsThat(t, file, user);
    hide Consistent, CheckFolderOwnership, CanSee, CanChange, HoldsRow, HoldsRowThat, FileRowsOf;
  }

  /** UserCanEditItem can allow the edit of a file exactly if some row by which it may be looked up allows
      it, and can refuse it exactly if some refuses or there is none. */
  lemma EditsWhatIsAllowed(t: Tables, file: Id, user: Id)
    requires Consistent(t)
    ensures FileEdits(t, file, user, true) <==> MayEdit(t, file, user)
    ensures FileEdits(t, file, user, false) <==> MayNotEdit(t, file, user)
  {
    forall at
      ensures IsHit(t.files, file, user, at) <==> LooksAt(t.files, file, user, at)
      ensures IsHit(t.files, file, user, at) ==>
                && (Allows(t, file, user, at) <==> AllowsAt(t, file, user, at))
                && (Refuses(t, file, user, at) <==> RefusesAt(t, file, user, at))
    {
      HitIsLookedAt(t, file, user, at);
      if IsHit(t.files, file, user, at) {
        AnswersAt(t, file, user, at);
      }
    }
    assert forall at :: Allows(t, file, user, at) || Refuses(t, file, user, at) ==> IsHit(t.files, file, user, at);
    hide Consistent, Allows, Refuses, AllowsAt, RefusesAt, LooksAt;
  }
}
