/** Exactly when a recursive deletion can end with an error, in whatever order it proceeds. */
module DeleteOrder {
  import opened Results
  import opened Tables
  import opened Ownership
  import opened VaultOps
  import opened VaultInvariant
  import opened FolderDelete

  /** One step of a recursive deletion: a file, or a folder's own rows. */
  datatype Visit = OfFile(id: Id) | OfFolder(id: Id)

  function FilesSeen(visits: seq<Visit>): set<Id> {
    set v | v in visits && v.OfFile? :: v.id
  }

  function FoldersSeen(visits: seq<Visit>): set<Id> {
    set v | v in visits && v.OfFolder? :: v.id
  }

  /** An order in which the rows of a subtree may be deleted: every file and every folder once, and
      no file after a folder that it lies in, directly or further down. */
  ghost predicate IsOrder(t: Tables, top: Id, pw: bool, visits: seq<Visit>)
    requires Acyclic(t.folders)
  {
    var s := Subtree(t.folders, top, {pw});
    && FoldersSeen(visits) == s && FilesSeen(visits) == FilesIn(t, s, {pw})
    && (forall i, j :: 0 <= i < j < |visits| ==> visits[i] != visits[j])
    && (forall i, j :: 0 <= i < j < |visits| && visits[i].OfFolder? && visits[j].OfFile? && visits[j].id in t.files ==>
                         !Under(t.folders, t.files[visits[j].id].folder, visits[i].id, {pw}))
  }

  /** There is such an order: all files first. */
  lemma OrderExists(t: Tables, top: Id, pw: bool) returns (visits: seq<Visit>)
    requires Acyclic(t.folders)
    ensures IsOrder(t, top, pw, visits)
  {
    var s := Subtree(t.folders, top, {pw});
    var files := InSequence(set y | y in FilesIn(t, s, {pw}) :: OfFile(y));
    var folders := InSequence(set x | x in s :: OfFolder(x));
    hide Subtree, FilesIn, Under;
    visits := files + folders;
    forall y | y in FilesIn(t, s, {pw})
      ensures OfFile(y) in visits
    {
      assert OfFile(y) in files;
    }
    forall x | x in s
      ensures OfFolder(x) in visits
    {
      assert OfFolder(x) in folders;
    }
    FilesFirst(files, folders);
  }

  lemma FilesFirst(files: seq<Visit>, folders: seq<Visit>)
    requires forall v :: v in files ==> v.OfFile?
    requires forall v :: v in folders ==> v.OfFolder?
    requires forall i, j :: 0 <= i < j < |files| ==> files[i] != files[j]
    requires forall i, j :: 0 <= i < j < |folders| ==> folders[i] != folders[j]
    ensures var all := files + folders;
            forall i, j :: 0 <= i < j < |all| ==> all[i] != all[j] && !(all[i].OfFolder? && all[j].OfFile?)
  {
    var all := files + folders;
    forall i, j | 0 <= i < j < |all|
      ensures all[i] != all[j] && !(all[i].OfFolder? && all[j].OfFile?)
    {
      assert i < |files| ==> all[i] in files;
      assert i >= |files| ==> all[i] in folders;
      assert j < |files| ==> all[j] in files;
      assert j >= |files| ==> all[j] in folders;
    }
  }

  lemma {:induction false} InSequence(s: set<Visit>) returns (visits: seq<Visit>)
    ensures forall v :: v in visits <==> v in s
    ensures forall i, j :: 0 <= i < j < |visits| ==> visits[i] != visits[j]
  {
    if s == {} {
      visits := [];
    } else {
      var v :| v in s;
      var rest := InSequence(s - {v});
      visits := [v] + rest;
      assert forall j :: 0 <= j < |rest| ==> rest[j] in rest;
    }
  }

  /** The tables before the i-th step. */
  function Before(t: Tables, visits: seq<Visit>, i: nat): Tables
    requires i <= |visits|
  {
    Drop(t, FoldersSeen(visits[..i]), FilesSeen(visits[..i]))
  }

  /** Some order of the rows makes the i-th step end with an error: the queries about the file, or the
      one for the ownership of the folder. */
  ghost predicate MayFail(t: Tables, user: Id, visits: seq<Visit>, i: nat)
    requires i < |visits|
    requires WellFormed(Before(t, visits, i).folders) && Acyclic(Before(t, visits, i).folders)
  {
    var now := Before(t, visits, i);
    match visits[i]
    case OfFile(y) => FailsToRetrieve(now, y, user) || FileEdits(now, y, user, false)
    case OfFolder(x) =>
      !(CheckFolderOwnership(now.folders, user, x).Ok? && CheckFolderOwnership(now.folders, user, x).value.isOwner)
  }

  lemma Seen(visits: seq<Visit>, i: nat)
    requires i <= |visits|
    ensures forall x :: x in FoldersSeen(visits[..i]) <==> exists j :: 0 <= j < i && visits[j] == OfFolder(x)
    ensures forall y :: y in FilesSeen(visits[..i]) <==> exists j :: 0 <= j < i && visits[j] == OfFile(y)
    ensures FoldersSeen(visits[..i]) <= FoldersSeen(visits) && FilesSeen(visits[..i]) <= FilesSeen(visits)
  {
    assert forall j :: 0 <= j < i ==> visits[..i][j] == visits[j] && visits[j] in visits;
    forall x | exists j :: 0 <= j < i && visits[j] == OfFolder(x)
      ensures x in FoldersSeen(visits[..i])
    {
      assert OfFolder(x) in visits[..i];
    }
    forall y | exists j :: 0 <= j < i && visits[j] == OfFile(y)
      ensures y in FilesSeen(visits[..i])
    {
      assert OfFile(y) in visits[..i];
    }
  }

  /** Dropping folders of a subtree leaves well-formed tables. */
  lemma DropIsSound(t: Tables, top: Id, pw: bool, user: Id, a: set<Id>, b: set<Id>)
    requires WellFormed(t.folders) && Acyclic(t.folders) && FilesOk(t) && OwnsBelowRoot(t.folders, top, user)
    requires a <= Subtree(t.folders, top, {pw})
    ensures var u := Drop(t, a, b); WellFormed(u.folders) && Acyclic(u.folders) && FilesOk(u)
  {
    var u := Drop(t, a, b);
    var gone := set x | x in t.folders && t.folders[x].refId in a;
    assert u.folders == t.folders - gone;
    forall x | x in a
      ensures OwnsBelowRoot(t.folders, x, user)
    {
      UnderOwned(t.folders, x, top, pw, user);
    }
    assert Removable(t.folders, gone);
    hide OwnsBelowRoot, Subtree;
    RemovalKeeps(t.folders, gone, map[]);
    hide WellFormed, Acyclic;
    CopiesStill(t, u);
  }

  lemma FolderStays(t: Tables, a: set<Id>, b: set<Id>, x: Id, user: Id)
    requires OwnsBelowRoot(t.folders, x, user) && x !in a
    ensures OwnsBelowRoot(Drop(t, a, b).folders, x, user)
  {
  }

  /** A step may fail exactly if it is for a file that was not deletable in the beginning. */
  lemma FailsExactlyAt(t: Tables, top: Id, pw: bool, user: Id, visits: seq<Visit>, i: nat)
    requires WellFormed(t.folders) && Acyclic(t.folders) && FilesOk(t) && OwnsBelowRoot(t.folders, top, user)
    requires IsOrder(t, top, pw, visits) && i < |visits|
    ensures WellFormed(Before(t, visits, i).folders) && Acyclic(Before(t, visits, i).folders)
    ensures MayFail(t, user, visits, i) <==> visits[i].OfFile? && !Deletable(t, visits[i].id, user)
  {
    var a, b := FoldersSeen(visits[..i]), FilesSeen(visits[..i]);
    Seen(visits, i);
    DropIsSound(t, top, pw, user, a, b);
    match visits[i] {
      case OfFile(y) =>
        assert y in FilesSeen(visits);
        FileStays(t, top, pw, user, visits, i, y);
        ResolvableStill(t, Before(t, visits, i), a, b, y, user);
        OwnersMayDelete(Before(t, visits, i), y, user);
      case OfFolder(x) =>
        assert x in FoldersSeen(visits);
        UnderOwned(t.folders, x, top, pw, user);
        FolderStays(t, a, b, x, user);
        OwnerReaches(Before(t, visits, i).folders, x);
    }
  }

  lemma FileStays(t: Tables, top: Id, pw: bool, user: Id, visits: seq<Visit>, i: nat, y: Id)
    requires WellFormed(t.folders) && Acyclic(t.folders) && OwnsBelowRoot(t.folders, top, user)
    requires IsOrder(t, top, pw, visits) && i < |visits| && visits[i] == OfFile(y)
    ensures y !in FilesSeen(visits[..i])
    ensures var u := Before(t, visits, i); y in u.files && u.files[y].refId == y && LiesIn(u, y, user)
  {
    Seen(visits, i);
    assert y in FilesSeen(visits);
    var x := t.files[y].folder;
    UnderOwned(t.folders, x, top, pw, user);
    if x in FoldersSeen(visits[..i]) {
      var j :| 0 <= j < i && visits[j] == OfFolder(x);
      assert Under(t.folders, x, x, {pw});
      assert false;
    }
    FolderStays(t, FoldersSeen(visits[..i]), FilesSeen(visits[..i]), x, user);
  }

  /** In whatever order an owner's deletion proceeds, it can end with an error if and only if some
      file of the subtree is not deletable; otherwise every order of the rows lets it succeed. */
  lemma MayFailIffStuck(t: Tables, top: Id, pw: bool, user: Id, visits: seq<Visit>)
    requires WellFormed(t.folders) && Acyclic(t.folders) && FilesOk(t) && OwnsBelowRoot(t.folders, top, user)
    requires IsOrder(t, top, pw, visits)
    ensures forall i :: 0 <= i < |visits| ==>
                          WellFormed(Before(t, visits, i).folders) && Acyclic(Before(t, visits, i).folders)
    ensures (exists i :: 0 <= i < |visits| && MayFail(t, user, visits, i)) <==> Stuck(t, top, pw, user)
  {
    forall i | 0 <= i < |visits|
      ensures WellFormed(Before(t, visits, i).folders) && Acyclic(Before(t, visits, i).folders)
      ensures MayFail(t, user, visits, i) <==> visits[i].OfFile? && !Deletable(t, visits[i].id, user)
    {
      FailsExactlyAt(t, top, pw, user, visits, i);
    }
    hide MayFail, Before, Deletable, FilesIn;
    if Stuck(t, top, pw, user) {
      var y :| y in FilesIn(t, Subtree(t.folders, top, {pw}), {pw}) && !Deletable(t, y, user);
      assert y in FilesSeen(visits);
      var i :| 0 <= i < |visits| && visits[i] == OfFile(y);
      assert MayFail(t, user, visits, i);
    } else {
      forall i | 0 <= i < |visits|
        ensures !MayFail(t, user, visits, i)
      {
        assert visits[i].OfFile? ==> visits[i].id in FilesSeen(visits);
      }
    }
  }
}
