/** What recursive deletion removes from the tables. */
module FolderDelete {
  import opened Constants
  import opened Results
  import opened Tables
  import opened Ownership
  import opened VaultOps
  import opened VaultInvariant

  // ----- Files

  /** A file row is the file itself or a copy in the root folder of its owner. */
  predicate FileOk(t: Tables, z: Id)
    requires z in t.files
  {
    var r := t.files[z];
    r.refId != z ==> r.folder == r.owner && (r.folder in t.folders ==> IsRoot(t.folders, r.folder))
  }

  ghost predicate FilesOk(t: Tables) {
    forall z {:trigger FileOk(t, z)} :: z in t.files ==> FileOk(t, z)
  }

  /** Copies stay in order when rows go. */
  lemma CopiesStill(t: Tables, t': Tables)
    requires FilesOk(t)
    requires t'.files.Keys <= t.files.Keys && forall z :: z in t'.files ==> t'.files[z] == t.files[z]
    requires t'.folders.Keys <= t.folders.Keys && forall x :: x in t'.folders ==> t'.folders[x] == t.folders[x]
    ensures FilesOk(t')
  {
    forall z | z in t'.files
      ensures FileOk(t', z)
    {
      assert FileOk(t, z);
    }
  }

  /** Bytes given back when a file goes: the stored length without the encryption overhead. */
  function PlainSize(r: File): int {
    r.length - TOTAL_OVERHEAD * r.chunks
  }

  ghost function SizeSum(files: map<Id, File>, s: set<Id>): int
    requires s <= files.Keys
  {
    if s == {} then 0 else
      var y :| y in s;
      PlainSize(files[y]) + SizeSum(files, s - {y})
  }

  lemma {:induction false} SizeSumRemove(files: map<Id, File>, s: set<Id>, y: Id)
    requires s <= files.Keys && y in s
    ensures SizeSum(files, s) == PlainSize(files[y]) + SizeSum(files, s - {y})
  {
    var x :| x in s && SizeSum(files, s) == PlainSize(files[x]) + SizeSum(files, s - {x});
    if x == y {
    } else {
      SizeSumRemove(files, s - {x}, y);
      SizeSumRemove(files, s - {y}, x);
      assert s - {x} - {y} == s - {y} - {x};
    }
  }

  lemma {:induction false} SizeSumUnion(files: map<Id, File>, a: set<Id>, b: set<Id>)
    requires a <= files.Keys && b <= files.Keys && a !! b
    ensures SizeSum(files, a + b) == SizeSum(files, a) + SizeSum(files, b)
  {
    if a == {} {
      assert a + b == b;
    } else {
      var y :| y in a;
      SizeSumRemove(files, a, y);
      SizeSumRemove(files, a + b, y);
      assert a + b - {y} == (a - {y}) + b;
      SizeSumUnion(files, a - {y}, b);
    }
  }

  lemma {:induction false} SizeSumSame(files: map<Id, File>, files': map<Id, File>, s: set<Id>)
    requires s <= files.Keys && s <= files'.Keys && forall y :: y in s ==> files[y] == files'[y]
    ensures SizeSum(files, s) == SizeSum(files', s)
  {
    if s == {} {
    } else {
      var y :| y in s;
      SizeSumRemove(files, s, y);
      SizeSumRemove(files', s, y);
      SizeSumSame(files, files', s - {y});
    }
  }

  // ----- Subtrees

  /** x is the folder `top` or lies below it through folders of the given kinds only. */
  ghost predicate Under(f: Folders, x: Id, top: Id, kinds: set<bool>)
    requires Acyclic(f)
    decreases Height(f, x)
  {
    IsOriginal(f, x) && (x == top || (f[x].pw in kinds && f[x].parent in f && Under(f, f[x].parent, top, kinds)))
  }

  ghost function Subtree(f: Folders, top: Id, kinds: set<bool>): set<Id>
    requires Acyclic(f)
  {
    set x | x in f && Under(f, x, top, kinds)
  }

  /** Files of the given kinds that lie in one of the folders. */
  ghost function FilesIn(t: Tables, folders: set<Id>, kinds: set<bool>): set<Id> {
    set y | y in t.files && t.files[y].refId == y && t.files[y].folder in folders && t.files[y].pw in kinds
  }

  /** The file rows in a folder of one kind. */
  function Items(files: map<Id, File>, folder: Id, pw: bool): set<Id> {
    set z | z in files && files[z].folder == folder && files[z].pw == pw
  }

  /** GetFileFolderID finds a row of the file for the deleting user. */
  ghost predicate Resolvable(t: Tables, y: Id, user: Id) {
    exists z :: IsHit(t.files, y, user, z)
  }

  /** The user can delete the file whatever rows the queries return first: a row is found, and if it
      may be a copy in the user's own root folder, then all rows of the user allow changes. */
  ghost predicate Deletable(t: Tables, y: Id, user: Id) {
    && Resolvable(t, y, user)
    && ((exists z :: IsHit(t.files, y, user, z) && t.files[z].folder == user) ==>
          forall w :: w in FileRowsOf(t.files, y, user) ==> t.files[w].canModify)
  }

  /** Copies of these files carry the sizes of the files. */
  ghost predicate SameSizes(t: Tables, files: set<Id>) {
    forall z :: z in t.files && t.files[z].refId in files && t.files[z].refId in t.files ==>
                  PlainSize(t.files[z]) == PlainSize(t.files[t.files[z].refId])
  }

  /** Now the tables are the former ones without these folders and files, whose plain sizes
      sum up to `freed` if their copies carry the same sizes. */
  ghost predicate Dropped(t: Tables, now: Tables, folders: set<Id>, files: set<Id>, freed: int, user: Id) {
    && files <= t.files.Keys
    && now == Drop(t, folders, files)
    && (SameSizes(t, files) ==> freed == SizeSum(t.files, files))
    && forall y :: y in files ==> Resolvable(t, y, user)
  }

  lemma {:induction false} UnderHeight(f: Folders, x: Id, top: Id, kinds: set<bool>)
    requires Acyclic(f) && Under(f, x, top, kinds)
    ensures IsOriginal(f, top) && Height(f, x) >= Height(f, top)
    decreases Height(f, x)
  {
    if x == top {
    } else {
      UnderHeight(f, f[x].parent, top, kinds);
    }
  }

  /** Of two folders above a third one, one is above the other. */
  lemma {:induction false} UnderLinear(f: Folders, x: Id, a: Id, b: Id, kinds: set<bool>)
    requires Acyclic(f) && Under(f, x, a, kinds) && Under(f, x, b, kinds)
    ensures Under(f, a, b, kinds) || Under(f, b, a, kinds)
    decreases Height(f, x)
  {
    if x == a || x == b {
    } else {
      UnderLinear(f, f[x].parent, a, b, kinds);
    }
  }

  lemma SiblingsApart(f: Folders, top: Id, a: Id, b: Id, x: Id, kinds: set<bool>)
    requires Acyclic(f) && IsOriginal(f, top) && a in f && b in f && f[a].parent == top && f[b].parent == top && a != b
    requires Under(f, x, a, kinds)
    ensures !Under(f, x, b, kinds)
  {
    if Under(f, x, b, kinds) {
      UnderLinear(f, x, a, b, kinds);
      if Under(f, a, b, kinds) {
        UnderHeight(f, top, b, kinds);
      } else {
        UnderHeight(f, top, a, kinds);
      }
    }
  }

  /** The direct subfolders of one kind. */
  ghost function Kids(f: Folders, top: Id, pw: bool): set<Id> {
    set c | c in f && f[c].parent == top && f[c].pw == pw
  }

  /** The folders below some of these. */
  ghost function Subtrees(f: Folders, tops: set<Id>, kinds: set<bool>): set<Id>
    requires Acyclic(f)
  {
    set x, c | x in f && c in tops && Under(f, x, c, kinds) :: x
  }

  /** A subtree is its top and the subtrees of the direct subfolders of the right kind. */
  lemma {:induction false} UnderKid(f: Folders, x: Id, top: Id, pw: bool) returns (c: Id)
    requires WellFormed(f) && Acyclic(f) && Under(f, x, top, {pw}) && x != top
    ensures c in Kids(f, top, pw) && Under(f, x, c, {pw})
    decreases Height(f, x)
  {
    if f[x].parent == top {
      c := x;
    } else {
      c := UnderKid(f, f[x].parent, top, pw);
    }
  }

  lemma {:induction false} KidUnder(f: Folders, x: Id, c: Id, top: Id, pw: bool)
    requires WellFormed(f) && Acyclic(f) && IsOriginal(f, top) && c in Kids(f, top, pw) && Under(f, x, c, {pw})
    ensures Under(f, x, top, {pw})
    decreases Height(f, x)
  {
    if x == c {
      assert Under(f, top, top, {pw});
    } else {
      KidUnder(f, f[x].parent, c, top, pw);
    }
  }

  lemma SubtreeSplits(f: Folders, top: Id, pw: bool)
    requires WellFormed(f) && Acyclic(f) && IsOriginal(f, top)
    ensures Subtree(f, top, {pw}) == {top} + Subtrees(f, Kids(f, top, pw), {pw})
  {
    assert Under(f, top, top, {pw});
    forall x | x in Subtree(f, top, {pw}) && x != top
      ensures x in Subtrees(f, Kids(f, top, pw), {pw})
    {
      var c := UnderKid(f, x, top, pw);
    }
    forall x | x in Subtrees(f, Kids(f, top, pw), {pw})
      ensures x in Subtree(f, top, {pw})
    {
      var c :| c in Kids(f, top, pw) && Under(f, x, c, {pw});
      KidUnder(f, x, c, top, pw);
    }
  }

  /** Dropping other folders does not change a subtree. */
  lemma {:induction false} UnderSmaller(f: Folders, g: Folders, x: Id, top: Id, kinds: set<bool>)
    requires Acyclic(f) && Acyclic(g) && g.Keys <= f.Keys && forall id :: id in g ==> g[id] == f[id]
    requires Under(g, x, top, kinds)
    ensures Under(f, x, top, kinds)
    decreases Height(g, x)
  {
    if x == top {
    } else {
      UnderSmaller(f, g, g[x].parent, top, kinds);
    }
  }

  lemma {:induction false} UnderSurvives(f: Folders, g: Folders, x: Id, top: Id, kinds: set<bool>)
    requires Acyclic(f) && Acyclic(g) && g.Keys <= f.Keys && forall id :: id in g ==> g[id] == f[id]
    requires forall y :: Under(f, y, top, kinds) ==> y in g
    requires Under(f, x, top, kinds)
    ensures Under(g, x, top, kinds)
    decreases Height(f, x)
  {
    if x == top {
    } else {
      UnderSurvives(f, g, f[x].parent, top, kinds);
    }
  }

  lemma SubtreeSame(f: Folders, g: Folders, top: Id, kinds: set<bool>)
    requires Acyclic(f) && Acyclic(g) && g.Keys <= f.Keys && forall id :: id in g ==> g[id] == f[id]
    requires Subtree(f, top, kinds) <= g.Keys
    ensures Subtree(g, top, kinds) == Subtree(f, top, kinds)
  {
    forall y | Under(f, y, top, kinds)
      ensures y in g
    {
      assert y in Subtree(f, top, kinds);
    }
    forall x | x in Subtree(f, top, kinds)
      ensures x in Subtree(g, top, kinds)
    {
      UnderSurvives(f, g, x, top, kinds);
    }
    forall x | x in Subtree(g, top, kinds)
      ensures x in Subtree(f, top, kinds)
    {
      UnderSmaller(f, g, x, top, kinds);
    }
  }

  // ----- Composing drops

  lemma DropTwice(t: Tables, a: set<Id>, b: set<Id>, a': set<Id>, b': set<Id>)
    ensures Drop(Drop(t, a, b), a', b') == Drop(t, a + a', b + b')
  {
  }

  /** A second drop of other things, seen from the original tables. */
  lemma DroppedThen(t: Tables, mid: Tables, now: Tables, a: set<Id>, b: set<Id>, n: int,
                    a': set<Id>, b': set<Id>, n': int, user: Id)
    requires Dropped(t, mid, a, b, n, user) && Dropped(mid, now, a', b', n', user)
    requires forall y :: y in b ==> t.files[y].refId == y
    ensures Dropped(t, now, a + a', b + b', n + n', user)
  {
    DropTwice(t, a, b, a', b');
    assert forall y :: y in b' ==> y in mid.files && mid.files[y] == t.files[y];
    assert b !! b';
    SizeSumUnion(t.files, b, b');
    SizeSumSame(t.files, mid.files, b');
    SizesStill(t, mid, a, b, b');
    forall y | y in b'
      ensures Resolvable(t, y, user)
    {
      ResolvableStill(t, mid, a, b, y, user);
    }
  }

  lemma SizesStill(t: Tables, mid: Tables, a: set<Id>, b: set<Id>, b': set<Id>)
    requires mid == Drop(t, a, b)
    ensures SameSizes(t, b + b') ==> SameSizes(t, b) && SameSizes(mid, b')
  {
  }

  lemma ResolvableStill(t: Tables, mid: Tables, a: set<Id>, b: set<Id>, y: Id, user: Id)
    requires mid == Drop(t, a, b) && y !in b
    ensures Resolvable(mid, y, user) <==> Resolvable(t, y, user)
    ensures Deletable(mid, y, user) <==> Deletable(t, y, user)
  {
    assert FileRows(mid.files, y) == FileRows(t.files, y);
    assert FileRowsOf(mid.files, y, user) == FileRowsOf(t.files, y, user);
    assert forall z :: IsHit(mid.files, y, user, z) <==> IsHit(t.files, y, user, z);
  }

  // ----- Deleting one thing after another

  /** Rows have only gone. */
  ghost predicate Smaller(t: Tables, t': Tables) {
    && t'.folders.Keys <= t.folders.Keys && (forall x :: x in t'.folders ==> t'.folders[x] == t.folders[x])
    && t'.files.Keys <= t.files.Keys && (forall z :: z in t'.files ==> t'.files[z] == t.files[z])
  }

  ghost predicate Bounded(f: Folders, rank: map<Id, nat>, bound: nat) {
    Ranked(f, rank) && forall x :: x in f ==> rank[x] <= bound
  }

  lemma RankedSmaller(t: Tables, t': Tables, rank: map<Id, nat>, bound: nat)
    requires Bounded(t.folders, rank, bound) && Smaller(t, t')
    ensures Bounded(t'.folders, rank, bound) && Acyclic(t'.folders)
  {
    forall x | x in t'.folders
      ensures RankOk(t'.folders, rank, x)
    {
      assert RankOk(t.folders, rank, x);
    }
  }

  lemma SmallerSame(t: Tables)
    ensures Smaller(t, t)
  {
  }

  lemma SmallerTrans(t: Tables, mid: Tables, now: Tables)
    requires Smaller(t, mid) && Smaller(mid, now)
    ensures Smaller(t, now)
  {
  }

  /** The state that deletion starts from and, except in a root folder, ends in. */
  ghost predicate Sound(t: Tables, rank: map<Id, nat>, bound: nat) {
    WellFormed(t.folders) && FilesOk(t) && Bounded(t.folders, rank, bound) && Acyclic(t.folders)
  }

  /** The user owns this folder, which is not a root. */
  predicate OwnsBelowRoot(f: Folders, id: Id, user: Id) {
    IsOriginal(f, id) && f[id].owner == user && f[id].parent != ""
  }

  lemma KidsAreOriginals(f: Folders, top: Id, pw: bool, user: Id, c: Id)
    requires WellFormed(f) && OwnsBelowRoot(f, top, user) && c in Kids(f, top, pw)
    ensures OwnsBelowRoot(f, c, user) && top != user
  {
    assert RowOk(f, c) && RowOk(f, top);
  }

  /** What is gone once these direct subfolders have been deleted. */
  ghost predicate KidsGone(t: Tables, now: Tables, done: set<Id>, pw: bool, freed: int, user: Id)
    requires Acyclic(t.folders)
  {
    var gone := Subtrees(t.folders, done, {pw});
    Dropped(t, now, gone, FilesIn(t, gone, {pw}), freed, user)
  }

  lemma NoKidGone(t: Tables, pw: bool, user: Id)
    requires Acyclic(t.folders)
    ensures KidsGone(t, t, {}, pw, 0, user)
  {
  }

  /** The subtree of a direct subfolder is untouched while others are deleted. */
  lemma NextKid(t: Tables, mid: Tables, top: Id, done: set<Id>, c: Id, pw: bool, n: int, user: Id)
    requires WellFormed(t.folders) && Acyclic(t.folders) && Acyclic(mid.folders)
    requires OwnsBelowRoot(t.folders, top, user)
    requires done <= Kids(t.folders, top, pw) && c in Kids(t.folders, top, pw) && c !in done
    requires KidsGone(t, mid, done, pw, n, user)
    ensures OwnsBelowRoot(mid.folders, c, user)
    ensures Subtree(mid.folders, c, {pw}) == Subtree(t.folders, c, {pw})
    ensures var s := Subtree(t.folders, c, {pw}); FilesIn(mid, s, {pw}) == FilesIn(t, s, {pw})
  {
    var f, s := t.folders, Subtree(t.folders, c, {pw});
    var gone := Subtrees(f, done, {pw});
    KidsAreOriginals(f, top, pw, user, c);
    forall x | x in s
      ensures x !in gone && x in mid.folders
    {
      if x in gone {
        var b :| b in done && Under(f, x, b, {pw});
        SiblingsApart(f, top, c, b, x, {pw});
      }
    }
    SubtreeSame(f, mid.folders, c, {pw});
    assert Under(f, c, c, {pw});
    assert c in s;
  }

  lemma OneMoreTree(f: Folders, done: set<Id>, c: Id, pw: bool)
    requires Acyclic(f)
    ensures Subtrees(f, done + {c}, {pw}) == Subtrees(f, done, {pw}) + Subtree(f, c, {pw})
  {
  }

  lemma KidDeleted(t: Tables, mid: Tables, now: Tables, top: Id, done: set<Id>, c: Id, pw: bool, n: int, n': int, user: Id)
    requires WellFormed(t.folders) && Acyclic(t.folders) && Acyclic(mid.folders)
    requires OwnsBelowRoot(t.folders, top, user)
    requires done <= Kids(t.folders, top, pw) && c in Kids(t.folders, top, pw) && c !in done
    requires KidsGone(t, mid, done, pw, n, user)
    requires Dropped(mid, now, Subtree(mid.folders, c, {pw}), FilesIn(mid, Subtree(mid.folders, c, {pw}), {pw}), n', user)
    ensures KidsGone(t, now, done + {c}, pw, n + n', user)
  {
    hide Kids, OwnsBelowRoot, WellFormed, Acyclic, Subtrees, Subtree, Dropped;
    NextKid(t, mid, top, done, c, pw, n, user);
    var f := t.folders;
    var gone, s := Subtrees(f, done, {pw}), Subtree(f, c, {pw});
    OneMoreTree(f, done, c, pw);
    RestStays(t, mid, done, pw, n, user);
    assert FilesIn(t, gone + s, {pw}) == FilesIn(t, gone, {pw}) + FilesIn(t, s, {pw});
    DroppedThen(t, mid, now, gone, FilesIn(t, gone, {pw}), n, s, FilesIn(t, s, {pw}), n', user);
  }

  lemma KidStuck(t: Tables, mid: Tables, top: Id, done: set<Id>, c: Id, pw: bool, n: int, user: Id, y: Id)
    requires WellFormed(t.folders) && Acyclic(t.folders) && Acyclic(mid.folders)
    requires OwnsBelowRoot(t.folders, top, user)
    requires done <= Kids(t.folders, top, pw) && c in Kids(t.folders, top, pw) && c !in done
    requires KidsGone(t, mid, done, pw, n, user)
    requires y in FilesIn(mid, Subtree(mid.folders, c, {pw}), {pw}) && !Deletable(mid, y, user)
    ensures y in FilesIn(t, Subtree(t.folders, top, {pw}), {pw}) && !Deletable(t, y, user)
  {
    NextKid(t, mid, top, done, c, pw, n, user);
    SubtreeSplits(t.folders, top, pw);
    var gone := Subtrees(t.folders, done, {pw});
    ResolvableStill(t, mid, gone, FilesIn(t, gone, {pw}), y, user);
    assert Subtree(t.folders, c, {pw}) <= Subtrees(t.folders, Kids(t.folders, top, pw), {pw});
  }

  /** What is gone once all direct subfolders and these files of the folder have been deleted. */
  ghost predicate ItemsGone(t: Tables, now: Tables, top: Id, done: set<Id>, pw: bool, freed: int, user: Id)
    requires Acyclic(t.folders)
  {
    var gone := Subtrees(t.folders, Kids(t.folders, top, pw), {pw});
    Dropped(t, now, gone, FilesIn(t, gone, {pw}) + done, freed, user)
  }

  /** The files of the folder are still there when its subfolders have gone. */
  lemma ItemsLeft(t: Tables, mid: Tables, top: Id, pw: bool, n: int, user: Id)
    requires WellFormed(t.folders) && Acyclic(t.folders) && FilesOk(t) && OwnsBelowRoot(t.folders, top, user)
    requires KidsGone(t, mid, Kids(t.folders, top, pw), pw, n, user)
    ensures ItemsGone(t, mid, top, {}, pw, n, user)
    ensures Items(mid.files, top, pw) == FilesIn(t, {top}, {pw})
    ensures Smaller(t, mid)
    ensures OwnsBelowRoot(mid.folders, top, user)
    ensures FilesIn(t, {top}, {pw}) !! FilesIn(t, Subtrees(t.folders, Kids(t.folders, top, pw), {pw}), {pw})
  {
    var gone := Subtrees(t.folders, Kids(t.folders, top, pw), {pw});
    if top in gone {
      var c :| c in Kids(t.folders, top, pw) && Under(t.folders, top, c, {pw});
      UnderHeight(t.folders, top, c, {pw});
    }
    assert top !in gone;
    var files := FilesIn(t, gone, {pw});
    assert files + {} == files;
    forall z | z in t.files && t.files[z].folder == top
      ensures t.files[z].refId == z
    {
      assert FileOk(t, z);
    }
  }

  lemma ItemDeleted(t: Tables, mid: Tables, now: Tables, top: Id, done: set<Id>, y: Id, pw: bool, n: int, n': int, user: Id)
    requires Acyclic(t.folders) && done <= FilesIn(t, {top}, {pw})
    requires ItemsGone(t, mid, top, done, pw, n, user) && Dropped(mid, now, {}, {y}, n', user)
    ensures ItemsGone(t, now, top, done + {y}, pw, n + n', user)
  {
    var gone := Subtrees(t.folders, Kids(t.folders, top, pw), {pw});
    var files := FilesIn(t, gone, {pw});
    assert gone + {} == gone && files + done + {y} == files + (done + {y});
    DroppedThen(t, mid, now, gone, files + done, n, {}, {y}, n', user);
  }

  /** With the folder's own rows gone too, the whole subtree is. */
  lemma AllDeleted(t: Tables, mid: Tables, now: Tables, top: Id, pw: bool, n: int, user: Id)
    requires WellFormed(t.folders) && Acyclic(t.folders) && IsOriginal(t.folders, top)
    requires ItemsGone(t, mid, top, FilesIn(t, {top}, {pw}), pw, n, user)
    requires now == Drop(mid, {top}, {})
    ensures var s := Subtree(t.folders, top, {pw}); Dropped(t, now, s, FilesIn(t, s, {pw}), n, user)
  {
    SubtreeSplits(t.folders, top, pw);
    var gone := Subtrees(t.folders, Kids(t.folders, top, pw), {pw});
    var files := FilesIn(t, gone, {pw}) + FilesIn(t, {top}, {pw});
    assert FilesIn(t, gone + {top}, {pw}) == files;
    DropTwice(t, gone, files, {top}, {});
    assert gone + {top} == {top} + gone && files + {} == files;
  }

  lemma ItemStuck(t: Tables, mid: Tables, top: Id, done: set<Id>, y: Id, pw: bool, n: int, user: Id)
    requires WellFormed(t.folders) && Acyclic(t.folders) && IsOriginal(t.folders, top)
    requires ItemsGone(t, mid, top, done, pw, n, user)
    requires y in FilesIn(t, {top}, {pw}) && y in mid.files && !Deletable(mid, y, user)
    ensures y in FilesIn(t, Subtree(t.folders, top, {pw}), {pw}) && !Deletable(t, y, user)
  {
    var gone := Subtrees(t.folders, Kids(t.folders, top, pw), {pw});
    ResolvableStill(t, mid, gone, FilesIn(t, gone, {pw}) + done, y, user);
    assert Under(t.folders, top, top, {pw});
  }

  lemma KidsAreBelow(f: Folders, top: Id, user: Id)
    requires WellFormed(f) && OwnsBelowRoot(f, top, user)
    ensures top != user && top != ""
  {
    assert RowOk(f, top);
  }

  /** The file lies in a subfolder of the user's tree. */
  predicate LiesIn(t: Tables, file: Id, user: Id)
    requires file in t.files
  {
    OwnsBelowRoot(t.folders, t.files[file].folder, user)
  }

  // ----- What the queries about a file may answer

  /** UserCanEditItem may refuse the file after it has read the folder of row z. */
  ghost predicate Refuses(t: Tables, file: Id, user: Id, z: Id)
    requires WellFormed(t.folders) && Acyclic(t.folders)
  {
    && IsHit(t.files, file, user, z)
    && ((t.files[z].folder == user
         && (FileRowsOf(t.files, file, user) == {}
             || exists w :: w in FileRowsOf(t.files, file, user) && !t.files[w].canModify))
        || CheckFolderOwnership(t.folders, user, t.files[z].folder).Err?
        || !CheckFolderOwnership(t.folders, user, t.files[z].folder).value.canModify)
  }

  /** It may allow it after that. */
  ghost predicate Allows(t: Tables, file: Id, user: Id, z: Id)
    requires WellFormed(t.folders) && Acyclic(t.folders)
  {
    && IsHit(t.files, file, user, z)
    && (t.files[z].folder == user ==> exists w :: w in FileRowsOf(t.files, file, user) && t.files[w].canModify)
    && CheckFolderOwnership(t.folders, user, t.files[z].folder).Ok?
    && CheckFolderOwnership(t.folders, user, t.files[z].folder).value.canModify
  }

  /** An answer of UserCanEditItem for a file: which one depends on the rows that come first. */
  ghost predicate FileEdits(t: Tables, file: Id, user: Id, allowed: bool)
    requires WellFormed(t.folders) && Acyclic(t.folders)
  {
    if allowed then exists z :: Allows(t, file, user, z)
    else (forall z :: !IsHit(t.files, file, user, z)) || exists z :: Refuses(t, file, user, z)
  }

  ghost predicate HasAccess(t: Tables, file: Id, user: Id, at: Id)
    requires WellFormed(t.folders) && Acyclic(t.folders) && at in t.files
  {
    CheckFolderOwnership(t.folders, user, t.files[at].folder).Ok? || IsSharedWith(t, t.files[at].folder, file, user)
  }

  /** RetrieveVaultMetadata may read row z. */
  ghost predicate Retrieves(t: Tables, file: Id, user: Id, z: Id)
    requires WellFormed(t.folders) && Acyclic(t.folders)
  {
    exists at :: IsRead(t, file, user, at, z) && HasAccess(t, file, user, at)
  }

  /** It may fail. */
  ghost predicate FailsToRetrieve(t: Tables, file: Id, user: Id)
    requires WellFormed(t.folders) && Acyclic(t.folders)
  {
    || (forall z :: !IsHit(t.files, file, user, z))
    || exists at :: IsHit(t.files, file, user, at)
                    && (t.files[at].folder == "" || !HasAccess(t, file, user, at) || forall z :: !IsRead(t, file, user, at, z))
  }

  predicate OwnsFolder(f: Folders, folder: Id, user: Id)
    requires WellFormed(f)
  {
    GetFolderOwnership(f, folder, user).Ok? && GetFolderOwnership(f, folder, user).value.isOwner
  }

  /** For a file in the user's tree a row that may be found is the file's own or a copy in the user's
      root folder, and the user has full rights to both folders. */
  lemma OwnersHit(t: Tables, file: Id, user: Id, z: Id)
    requires WellFormed(t.folders) && Acyclic(t.folders) && FilesOk(t)
    requires file in t.files && t.files[file].refId == file && LiesIn(t, file, user) && IsHit(t.files, file, user, z)
    ensures z == file || (t.files[z].folder == user && t.files[z].owner == user)
    ensures t.files[file].folder != user
    ensures t.files[z].folder != ""
    ensures CheckFolderOwnership(t.folders, user, t.files[z].folder).Ok?
    ensures CheckFolderOwnership(t.folders, user, t.files[z].folder).value.canModify
  {
    assert FileOk(t, z) && file in FileRows(t.files, file);
    assert RowOk(t.folders, t.files[file].folder);
    OwnerReaches(t.folders, t.files[file].folder);
    OwnerReaches(t.folders, user);
  }

  lemma OwnersRetrieve(t: Tables, file: Id, user: Id)
    requires WellFormed(t.folders) && Acyclic(t.folders) && FilesOk(t)
    requires file in t.files && t.files[file].refId == file && LiesIn(t, file, user)
    ensures FailsToRetrieve(t, file, user) <==> !Resolvable(t, file, user)
  {
    forall at | IsHit(t.files, file, user, at)
      ensures t.files[at].folder != "" && HasAccess(t, file, user, at) && IsRead(t, file, user, at, at)
    {
      OwnersHit(t, file, user, at);
    }
  }

  lemma OwnersEdit(t: Tables, file: Id, user: Id)
    requires WellFormed(t.folders) && Acyclic(t.folders) && FilesOk(t)
    requires file in t.files && t.files[file].refId == file && LiesIn(t, file, user)
    ensures FileEdits(t, file, user, false) <==> !Deletable(t, file, user)
  {
    forall z | Refuses(t, file, user, z)
      ensures !Deletable(t, file, user)
    {
      OwnersHit(t, file, user, z);
    }
    if Resolvable(t, file, user) && !Deletable(t, file, user) {
      var z :| IsHit(t.files, file, user, z) && t.files[z].folder == user;
      assert Refuses(t, file, user, z);
    }
  }

  /** For a file in the user's tree, some order of the rows makes one of the two queries of a deletion
      fail if and only if the file is not deletable. */
  lemma OwnersMayDelete(t: Tables, file: Id, user: Id)
    requires WellFormed(t.folders) && Acyclic(t.folders) && FilesOk(t)
    requires file in t.files && t.files[file].refId == file && LiesIn(t, file, user)
    ensures FailsToRetrieve(t, file, user) || FileEdits(t, file, user, false) <==> !Deletable(t, file, user)
  {
    hide FailsToRetrieve, FileEdits;
    OwnersRetrieve(t, file, user);
    OwnersEdit(t, file, user);
  }

  /** What a deletion may answer to any user: the metadata is read first, then the stored object goes,
      and only then editing may be refused. */
  ghost predicate Deletes(t: Tables, file: Id, user: Id, r: Result<int, Error>, erased: bool)
    requires WellFormed(t.folders) && Acyclic(t.folders)
  {
    && (r.Ok? ==> erased && FileEdits(t, file, user, true)
                  && exists z :: z in t.files && Retrieves(t, file, user, z) && r.value == PlainSize(t.files[z]))
    && (r.Err? && erased ==> FileEdits(t, file, user, false) && exists z :: Retrieves(t, file, user, z))
    && (!erased ==> FailsToRetrieve(t, file, user))
  }

  /** For a file without copies outside of the user's root folder a refused deletion loses the stored
      object if and only if the user may see the folder but not change it. */
  lemma ErasedInVainIff(t: Tables, file: Id, user: Id, r: Result<int, Error>, erased: bool)
    requires WellFormed(t.folders) && Acyclic(t.folders) && Deletes(t, file, user, r, erased)
    requires FileRows(t.files, file) == {file} && t.files[file].folder != "" && t.files[file].folder != user
    ensures var own := CheckFolderOwnership(t.folders, user, t.files[file].folder);
            r.Err? && erased <==> HasAccess(t, file, user, file) && (own.Err? || !own.value.canModify)
  {
    assert file in FileRows(t.files, file);
    assert forall z :: IsHit(t.files, file, user, z) <==> z == file;
    assert IsRead(t, file, user, file, file);
    if HasAccess(t, file, user, file) {
      assert !FailsToRetrieve(t, file, user);
    }
  }

  lemma DropFile(t: Tables, file: Id)
    ensures Drop(t, {}, {file}) == Tables(t.folders, t.files - FileRows(t.files, file),
                                          map s | s in t.sharing && t.sharing[s].item != file :: t.sharing[s])
  {
  }

  /** What deletion removes once it has read a row of the file. */
  lemma FileIsDropped(t: Tables, file: Id, user: Id, z: Id)
    requires WellFormed(t.folders) && Acyclic(t.folders) && Retrieves(t, file, user, z)
    ensures z in t.files
    ensures file in t.files && t.files[file].refId == file ==>
              Dropped(t, Drop(t, {}, {file}), {}, {file}, PlainSize(t.files[z]), user)
    ensures Smaller(t, Drop(t, {}, {file}))
  {
    var at :| IsRead(t, file, user, at, z) && HasAccess(t, file, user, at);
    if file in t.files {
      SizeSumRemove(t.files, {file}, file);
    }
  }

  /** The next file of the folder is still there. */
  lemma ItemLies(t: Tables, mid: Tables, top: Id, done: set<Id>, y: Id, pw: bool, n: int, user: Id)
    requires WellFormed(t.folders) && Acyclic(t.folders) && FilesOk(t) && OwnsBelowRoot(t.folders, top, user)
    requires ItemsGone(t, mid, top, done, pw, n, user) && OwnsBelowRoot(mid.folders, top, user)
    requires y in FilesIn(t, {top}, {pw}) && y !in done
    requires FilesIn(t, {top}, {pw}) !! FilesIn(t, Subtrees(t.folders, Kids(t.folders, top, pw), {pw}), {pw})
    ensures y in mid.files && mid.files[y] == t.files[y] && t.files[y].refId == y
    ensures LiesIn(mid, y, user)
  {
  }

  /** Only a user's own root is reached as owner by that user. */
  lemma OnlyOwnRoot(f: Folders, user: Id, id: Id)
    requires WellFormed(f) && Acyclic(f)
    requires CheckFolderOwnership(f, user, id).Ok?
    ensures IsOriginal(f, id) && f[id].parent == "" ==> id == user
  {
    if IsOriginal(f, id) && f[id].parent == "" {
      var own := GetFolderOwnership(f, id, user);
      assert RowOk(f, own.value.id) && RowOk(f, id);
    }
  }

  /** The folder is another user's. */
  predicate IsOthers(f: Folders, id: Id, user: Id) {
    IsOriginal(f, id) && f[id].owner != user
  }

  /** What a user finds below another user's folder is that user's too. */
  lemma KidsAreOthers(f: Folders, id: Id, user: Id, s: Id)
    requires WellFormed(f) && Acyclic(f) && IsOthers(f, id, user) && CheckFolderOwnership(f, user, id).Ok?
    requires s in f && f[s].parent == id
    ensures IsOthers(f, s, user)
  {
    OnlyOwnRoot(f, user, id);
    assert RowOk(f, s) && RowOk(f, id);
  }

  /** No folder has the user's root as a subfolder. */
  lemma NotTheUser(f: Folders, user: Id, id: Id, s: Id)
    requires WellFormed(f) && Acyclic(f) && CheckFolderOwnership(f, user, id).Ok?
    requires s in f && f[s].parent == id
    ensures s != user
  {
    var x := ReachedRow(f, user, id);
    assert RowOk(f, x);
  }

  lemma {:induction false} ReachedRow(f: Folders, user: Id, id: Id) returns (x: Id)
    requires WellFormed(f) && Acyclic(f) && CheckFolderOwnership(f, user, id).Ok?
    ensures x in f && f[x].owner == user && id in f
    decreases Height(f, id)
  {
    if HasRow(f, id, user) {
      x := RowOf(f, id, user);
    } else {
      x := ReachedRow(f, user, f[id].parent);
    }
  }

  /** What the two statements about one folder remove. */
  lemma DropFolder(t: Tables, id: Id)
    ensures Drop(t, {id}, {}) == Tables(map x | x in t.folders && t.folders[x].refId != id :: t.folders[x], t.files,
                                        map s | s in t.sharing && t.sharing[s].item != id :: t.sharing[s])
  {
  }

  /** Bounds the depth of the recursion. */
  ghost function Steps(id: Id, rank: map<Id, nat>, bound: nat): int {
    if id in rank then bound + 1 - rank[id] else 0
  }

  lemma StepsDecrease(f: Folders, id: Id, s: Id, rank: map<Id, nat>, bound: nat)
    requires Bounded(f, rank, bound) && id in f && s in f && f[s].parent == id
    ensures 0 <= Steps(s, rank, bound) < Steps(id, rank, bound)
  {
    assert RankOk(f, rank, s);
  }

  /** Before its own rows go, the folder is still the user's. */
  lemma StillThere(t: Tables, mid: Tables, top: Id, pw: bool, n: int, user: Id)
    requires WellFormed(t.folders) && Acyclic(t.folders) && OwnsBelowRoot(t.folders, top, user)
    requires ItemsGone(t, mid, top, FilesIn(t, {top}, {pw}), pw, n, user)
    ensures OwnsBelowRoot(mid.folders, top, user)
  {
    var gone := Subtrees(t.folders, Kids(t.folders, top, pw), {pw});
    if top in gone {
      var c :| c in Kids(t.folders, top, pw) && Under(t.folders, top, c, {pw});
      UnderHeight(t.folders, top, c, {pw});
    }
  }

  /** A deletion by the owner of a folder's own rows keeps the table well formed. */
  lemma RowsGoneKeep(f: Folders, g: Folders, id: Id)
    requires WellFormed(f) && Acyclic(f) && (IsOriginal(f, id) ==> f[id].parent != "")
    requires g == map x | x in f && f[x].refId != id :: f[x]
    ensures WellFormed(g)
  {
    var gone := set x | x in f && f[x].refId == id;
    assert g == f - gone;
    RemovalKeeps(f, gone, map[]);
  }

  // ----- Deletions that have come part of the way

  /** A downward closed part of a subtree with all files in it, and perhaps more files. */
  ghost predicate IsPart(t: Tables, top: Id, pw: bool, folders: set<Id>, files: set<Id>)
    requires Acyclic(t.folders)
  {
    && folders <= Subtree(t.folders, top, {pw})
    && files <= FilesIn(t, Subtree(t.folders, top, {pw}), {pw})
    && (forall x :: x in folders ==> Kids(t.folders, x, pw) <= folders)
    && FilesIn(t, folders, {pw}) <= files
  }

  ghost predicate IsPartly(t: Tables, now: Tables, top: Id, pw: bool, folders: set<Id>, files: set<Id>)
    requires Acyclic(t.folders)
  {
    IsPart(t, top, pw, folders, files) && now == Drop(t, folders, files)
  }

  /** Exactly such a part is gone. */
  ghost predicate Partly(t: Tables, now: Tables, top: Id, pw: bool)
    requires Acyclic(t.folders)
  {
    exists folders, files :: IsPartly(t, now, top, pw, folders, files)
  }

  lemma {:induction false} UnderOwned(f: Folders, x: Id, top: Id, pw: bool, user: Id)
    requires WellFormed(f) && Acyclic(f) && OwnsBelowRoot(f, top, user) && Under(f, x, top, {pw})
    ensures OwnsBelowRoot(f, x, user)
    decreases Height(f, x)
  {
    if x == top {
    } else {
      UnderOwned(f, f[x].parent, top, pw, user);
      assert RowOk(f, x) && RowOk(f, f[x].parent);
    }
  }

  /** The direct subfolders of a folder in a subtree are in the subtree. */
  lemma SubtreeIsClosed(f: Folders, x: Id, top: Id, pw: bool, user: Id)
    requires WellFormed(f) && Acyclic(f) && OwnsBelowRoot(f, top, user) && x in Subtree(f, top, {pw})
    ensures Kids(f, x, pw) <= Subtree(f, top, {pw})
  {
    UnderOwned(f, x, top, pw, user);
    forall c | c in Kids(f, x, pw)
      ensures c in Subtree(f, top, {pw})
    {
      KidsAreOriginals(f, x, pw, user, c);
    }
  }

  /** The subtrees of some direct subfolders are a part. */
  lemma SubtreesArePart(t: Tables, top: Id, pw: bool, done: set<Id>, user: Id)
    requires WellFormed(t.folders) && Acyclic(t.folders) && OwnsBelowRoot(t.folders, top, user)
    requires done <= Kids(t.folders, top, pw)
    ensures var gone := Subtrees(t.folders, done, {pw}); IsPart(t, top, pw, gone, FilesIn(t, gone, {pw}))
  {
    var f, gone := t.folders, Subtrees(t.folders, done, {pw});
    SubtreeSplits(f, top, pw);
    assert gone <= Subtrees(f, Kids(f, top, pw), {pw});
    forall x | x in gone
      ensures Kids(f, x, pw) <= gone
    {
      var c :| c in done && Under(f, x, c, {pw});
      KidsAreOriginals(f, top, pw, user, c);
      SubtreeIsClosed(f, x, c, pw, user);
    }
  }

  lemma ItemsArePartly(t: Tables, now: Tables, top: Id, done: set<Id>, pw: bool, n: int, user: Id)
    requires WellFormed(t.folders) && Acyclic(t.folders) && OwnsBelowRoot(t.folders, top, user)
    requires done <= FilesIn(t, {top}, {pw}) && ItemsGone(t, now, top, done, pw, n, user)
    ensures Partly(t, now, top, pw)
  {
    var gone := Subtrees(t.folders, Kids(t.folders, top, pw), {pw});
    SubtreesArePart(t, top, pw, Kids(t.folders, top, pw), user);
    SubtreeSplits(t.folders, top, pw);
    assert IsPartly(t, now, top, pw, gone, FilesIn(t, gone, {pw}) + done);
  }

  lemma TreeIsPartly(t: Tables, now: Tables, top: Id, pw: bool, n: int, user: Id)
    requires WellFormed(t.folders) && Acyclic(t.folders) && OwnsBelowRoot(t.folders, top, user)
    requires var s := Subtree(t.folders, top, {pw}); Dropped(t, now, s, FilesIn(t, s, {pw}), n, user)
    ensures Partly(t, now, top, pw)
  {
    var s := Subtree(t.folders, top, {pw});
    forall x | x in s
      ensures Kids(t.folders, x, pw) <= s
    {
      SubtreeIsClosed(t.folders, x, top, pw, user);
    }
    assert IsPartly(t, now, top, pw, s, FilesIn(t, s, {pw}));
  }

  lemma OneTree(f: Folders, c: Id, pw: bool)
    requires Acyclic(f)
    ensures Subtrees(f, {c}, {pw}) == Subtree(f, c, {pw})
  {
  }

  lemma JoinParts(t: Tables, top: Id, pw: bool, a: set<Id>, ya: set<Id>, b: set<Id>, yb: set<Id>)
    requires Acyclic(t.folders) && IsPart(t, top, pw, a, ya) && IsPart(t, top, pw, b, yb)
    ensures IsPart(t, top, pw, a + b, ya + yb)
  {
    hide Subtree, Kids, Acyclic;
    assert FilesIn(t, a + b, {pw}) == FilesIn(t, a, {pw}) + FilesIn(t, b, {pw});
  }

  /** The rows that are still there are as they were. */
  lemma RestStays(t: Tables, mid: Tables, done: set<Id>, pw: bool, n: int, user: Id)
    requires Acyclic(t.folders) && KidsGone(t, mid, done, pw, n, user)
    ensures forall id :: id in mid.folders ==> id in t.folders && mid.folders[id] == t.folders[id]
    ensures forall y :: y in mid.files ==> y in t.files && mid.files[y] == t.files[y]
  {
  }

  /** The subtree of a direct subfolder is a part. */
  lemma KidIsPart(t: Tables, top: Id, pw: bool, c: Id, user: Id)
    requires WellFormed(t.folders) && Acyclic(t.folders) && OwnsBelowRoot(t.folders, top, user)
    requires c in Kids(t.folders, top, pw)
    ensures var s := Subtree(t.folders, c, {pw}); IsPart(t, top, pw, s, FilesIn(t, s, {pw}))
  {
    hide IsPart;
    SubtreesArePart(t, top, pw, {c}, user);
    OneTree(t.folders, c, pw);
  }

  /** A part of the next subfolder is a part of the folder. */
  lemma PartOfKid(t: Tables, mid: Tables, top: Id, done: set<Id>, c: Id, pw: bool, n: int, user: Id,
                  folders: set<Id>, files: set<Id>)
    requires WellFormed(t.folders) && Acyclic(t.folders) && Acyclic(mid.folders)
    requires OwnsBelowRoot(t.folders, top, user)
    requires done <= Kids(t.folders, top, pw) && c in Kids(t.folders, top, pw) && c !in done
    requires KidsGone(t, mid, done, pw, n, user) && IsPart(mid, c, pw, folders, files)
    ensures IsPart(t, top, pw, folders, files)
  {
    var f, s := t.folders, Subtree(t.folders, c, {pw});
    RestStays(t, mid, done, pw, n, user);
    KidIsPart(t, top, pw, c, user);
    hide Subtrees, Subtree, Under, WellFormed, Acyclic, Dropped, OwnsBelowRoot;
    NextKid(t, mid, top, done, c, pw, n, user);
    KidsAreOriginals(f, top, pw, user, c);
    hide KidsGone;
    forall x | x in folders
      ensures Kids(f, x, pw) <= folders
    {
      KidsStay(t, mid, c, x, pw, user);
    }
    hide Kids;
    SameFilesIn(t, mid, s, folders, pw);
  }

  lemma SameFilesIn(t: Tables, mid: Tables, s: set<Id>, some: set<Id>, pw: bool)
    requires some <= s && FilesIn(t, s, {pw}) == FilesIn(mid, s, {pw})
    requires forall y :: y in mid.files ==> y in t.files && mid.files[y] == t.files[y]
    ensures FilesIn(t, some, {pw}) == FilesIn(mid, some, {pw})
  {
    forall y | y in FilesIn(t, some, {pw})
      ensures y in FilesIn(mid, some, {pw})
    {
      assert y in FilesIn(t, s, {pw});
      assert y in FilesIn(mid, s, {pw});
    }
  }

  /** A part of the next subfolder, with the subfolders before it, is a part of the folder. */
  lemma KidPart(t: Tables, mid: Tables, top: Id, done: set<Id>, c: Id, pw: bool, n: int, user: Id,
                folders: set<Id>, files: set<Id>)
    requires WellFormed(t.folders) && Acyclic(t.folders) && Acyclic(mid.folders)
    requires OwnsBelowRoot(t.folders, top, user)
    requires done <= Kids(t.folders, top, pw) && c in Kids(t.folders, top, pw) && c !in done
    requires KidsGone(t, mid, done, pw, n, user) && IsPart(mid, c, pw, folders, files)
    ensures var gone := Subtrees(t.folders, done, {pw});
            IsPart(t, top, pw, gone + folders, FilesIn(t, gone, {pw}) + files)
  {
    hide IsPart, KidsGone, Kids;
    var gone := Subtrees(t.folders, done, {pw});
    SubtreesArePart(t, top, pw, done, user);
    PartOfKid(t, mid, top, done, c, pw, n, user, folders, files);
    JoinParts(t, top, pw, gone, FilesIn(t, gone, {pw}), folders, files);
  }

  lemma KidsStay(t: Tables, mid: Tables, c: Id, x: Id, pw: bool, user: Id)
    requires WellFormed(t.folders) && Acyclic(t.folders) && Acyclic(mid.folders) && OwnsBelowRoot(t.folders, c, user)
    requires Subtree(mid.folders, c, {pw}) == Subtree(t.folders, c, {pw}) && x in Subtree(t.folders, c, {pw})
    requires forall id :: id in mid.folders ==> id in t.folders && mid.folders[id] == t.folders[id]
    ensures Kids(t.folders, x, pw) == Kids(mid.folders, x, pw)
  {
    SubtreeIsClosed(t.folders, x, c, pw, user);
    assert Subtree(mid.folders, c, {pw}) <= mid.folders.Keys;
  }

  lemma KidIsPartly(t: Tables, mid: Tables, now: Tables, top: Id, done: set<Id>, c: Id, pw: bool, n: int, user: Id)
    requires WellFormed(t.folders) && Acyclic(t.folders) && Acyclic(mid.folders)
    requires OwnsBelowRoot(t.folders, top, user)
    requires done <= Kids(t.folders, top, pw) && c in Kids(t.folders, top, pw) && c !in done
    requires KidsGone(t, mid, done, pw, n, user) && Partly(mid, now, c, pw)
    ensures Partly(t, now, top, pw)
  {
    hide IsPart;
    var folders, files :| IsPartly(mid, now, c, pw, folders, files);
    KidPart(t, mid, top, done, c, pw, n, user, folders, files);
    var gone := Subtrees(t.folders, done, {pw});
    DropTwice(t, gone, FilesIn(t, gone, {pw}), folders, files);
    assert IsPartly(t, now, top, pw, gone + folders, FilesIn(t, gone, {pw}) + files);
  }

  /** Some file to be deleted is not surely found, or not surely found to be editable. */
  ghost predicate Stuck(t: Tables, top: Id, pw: bool, user: Id)
    requires Acyclic(t.folders)
  {
    exists y :: y in FilesIn(t, Subtree(t.folders, top, {pw}), {pw}) && !Deletable(t, y, user)
  }

  /** The deletion ended before its time, and part of the subtree is gone. */
  ghost predicate GotStuck(t: Tables, now: Tables, top: Id, pw: bool, user: Id)
    requires Acyclic(t.folders)
  {
    Stuck(t, top, pw, user) && Partly(t, now, top, pw)
  }

  ghost predicate KidsOutcome(t: Tables, now: Tables, top: Id, pw: bool, r: Result<int, Error>, user: Id)
    requires Acyclic(t.folders)
  {
    if r.Ok? then KidsGone(t, now, Kids(t.folders, top, pw), pw, r.value, user) else GotStuck(t, now, top, pw, user)
  }

  ghost predicate ItemsOutcome(t: Tables, now: Tables, top: Id, pw: bool, r: Result<int, Error>, user: Id)
    requires Acyclic(t.folders)
  {
    if r.Ok? then ItemsGone(t, now, top, FilesIn(t, {top}, {pw}), pw, r.value, user) else GotStuck(t, now, top, pw, user)
  }

  /** The whole subtree of the kind is gone, or part of it because some file in it could not be deleted. */
  ghost predicate TreeOutcome(t: Tables, now: Tables, top: Id, pw: bool, r: Result<int, Error>, user: Id)
    requires Acyclic(t.folders)
  {
    var s := Subtree(t.folders, top, {pw});
    if r.Ok? then Dropped(t, now, s, FilesIn(t, s, {pw}), r.value, user) else GotStuck(t, now, top, pw, user)
  }

  /** The subfolders in `done` have gone, and c is another one. */
  ghost predicate KidsWait(t: Tables, now: Tables, top: Id, done: set<Id>, c: Id, pw: bool, n: int, user: Id)
    requires Acyclic(t.folders)
  {
    && WellFormed(t.folders) && Acyclic(now.folders) && OwnsBelowRoot(t.folders, top, user)
    && done <= Kids(t.folders, top, pw) && c in Kids(t.folders, top, pw) && c !in done
    && KidsGone(t, now, done, pw, n, user)
  }

  /** Where the walk over a folder's subfolders stands, `t` being the state before it. If the user owns
      the folder, the subtrees of those no longer in `todo` are gone; of another user's folder nothing. */
  ghost predicate KidsWalk(t: Tables, now: Tables, id: Id, pw: bool, kids: set<Id>, todo: set<Id>, freed: int, user: Id,
                           rank: map<Id, nat>, bound: nat)
  {
    && Sound(t, rank, bound) && Sound(now, rank, bound) && Smaller(t, now) && todo <= kids
    && (OwnsBelowRoot(t.folders, id, user) ==>
          kids == Kids(t.folders, id, pw) && KidsGone(t, now, kids - todo, pw, freed, user))
    && (IsOthers(t.folders, id, user) ==> now == t && forall s :: s in kids ==> IsOthers(t.folders, s, user))
  }

  /** It has stopped with an error. */
  ghost predicate KidsFailed(t: Tables, now: Tables, id: Id, pw: bool, user: Id, rank: map<Id, nat>, bound: nat) {
    && Sound(t, rank, bound) && Sound(now, rank, bound) && Smaller(t, now)
    && (OwnsBelowRoot(t.folders, id, user) ==> GotStuck(t, now, id, pw, user))
    && (IsOthers(t.folders, id, user) ==> now.folders == t.folders)
  }

  lemma KidsWalkStarts(t: Tables, id: Id, pw: bool, kids: set<Id>, user: Id, rank: map<Id, nat>, bound: nat)
    requires Sound(t, rank, bound) && CheckFolderOwnership(t.folders, user, id).Ok?
    requires forall s :: s in kids ==> s in t.folders && t.folders[s].parent == id
    requires OwnsBelowRoot(t.folders, id, user) ==> kids == Kids(t.folders, id, pw)
    ensures KidsWalk(t, t, id, pw, kids, kids, 0, user, rank, bound)
  {
    hide Bounded, WellFormed, Acyclic, FilesOk, KidsGone, CheckFolderOwnership;
    SmallerSame(t);
    NoKidGone(t, pw, user);
    assert kids - kids == {};
    forall s | s in kids && IsOthers(t.folders, id, user)
      ensures IsOthers(t.folders, s, user)
    {
      KidsAreOthers(t.folders, id, user, s);
    }
  }

  lemma KidInWalk(t: Tables, mid: Tables, id: Id, pw: bool, kids: set<Id>, todo: set<Id>, s: Id, freed: int, user: Id,
                  rank: map<Id, nat>, bound: nat)
    requires KidsWalk(t, mid, id, pw, kids, todo, freed, user, rank, bound) && s in todo
    ensures Sound(mid, rank, bound)
    ensures OwnsBelowRoot(t.folders, id, user) ==>
              && Acyclic(t.folders) && KidsWait(t, mid, id, kids - todo, s, pw, freed, user)
              && OwnsBelowRoot(mid.folders, s, user) && s in t.folders && t.folders[s].pw == pw
    ensures IsOthers(t.folders, id, user) ==> IsOthers(mid.folders, s, user)
  {
    if OwnsBelowRoot(t.folders, id, user) {
      hide Bounded, WellFormed, FilesOk, KidsGone, Acyclic;
      NextKid(t, mid, id, kids - todo, s, pw, freed, user);
    }
  }

  /** One more subfolder has been walked through. */
  lemma KidWalked(t: Tables, mid: Tables, now: Tables, id: Id, pw: bool, kids: set<Id>, todo: set<Id>, s: Id, freed: int,
                  r: Result<int, Error>, user: Id, rank: map<Id, nat>, bound: nat)
    requires KidsWalk(t, mid, id, pw, kids, todo, freed, user, rank, bound) && s in todo
    requires Smaller(mid, now) && Sound(now, rank, bound)
    requires OwnsBelowRoot(mid.folders, s, user) && OwnsBelowRoot(t.folders, id, user) ==> TreeOutcome(mid, now, s, pw, r, user)
    requires IsOthers(mid.folders, s, user) ==> r.Err? && now.folders == mid.folders
    ensures r.Ok? ==> KidsWalk(t, now, id, pw, kids, todo - {s}, freed + r.value, user, rank, bound)
    ensures r.Err? ==> KidsFailed(t, now, id, pw, user, rank, bound)
  {
    hide Bounded, WellFormed, Acyclic, FilesOk, KidsGone, TreeOutcome, GotStuck, Kids;
    KidInWalk(t, mid, id, pw, kids, todo, s, freed, user, rank, bound);
    SmallerTrans(t, mid, now);
    if OwnsBelowRoot(t.folders, id, user) {
      KidOutcome(t, mid, now, id, kids - todo, s, pw, freed, r, user);
      assert kids - (todo - {s}) == kids - todo + {s};
    }
  }

  lemma KidsStopped(t: Tables, now: Tables, id: Id, pw: bool, e: Error, user: Id, rank: map<Id, nat>, bound: nat)
    requires KidsFailed(t, now, id, pw, user, rank, bound)
    ensures Smaller(t, now) && Sound(now, rank, bound) && Acyclic(t.folders)
    ensures OwnsBelowRoot(t.folders, id, user) ==> KidsOutcome(t, now, id, pw, Err(e), user)
    ensures IsOthers(t.folders, id, user) ==> now.folders == t.folders
  {
  }

  lemma KidsWalkEnds(t: Tables, now: Tables, id: Id, pw: bool, kids: set<Id>, freed: int, user: Id,
                     rank: map<Id, nat>, bound: nat)
    requires KidsWalk(t, now, id, pw, kids, {}, freed, user, rank, bound)
    ensures Smaller(t, now) && Sound(now, rank, bound) && Acyclic(t.folders)
    ensures OwnsBelowRoot(t.folders, id, user) ==> KidsOutcome(t, now, id, pw, Ok(freed), user)
    ensures IsOthers(t.folders, id, user) ==> now == t
  {
    hide KidsGone;
    assert kids - {} == kids;
  }

  /** Where the walk over a folder's files stands: `start` is the state before the first file. If
      the user owns the folder, all subfolders and the files no longer in `todo` are gone. */
  ghost predicate ItemsWalk(t: Tables, start: Tables, now: Tables, top: Id, pw: bool, todo: set<Id>, n: int,
                            owns: bool, user: Id)
  {
    && Smaller(start, now) && FilesOk(now) && now.folders == start.folders
    && (owns ==>
          && WellFormed(t.folders) && Acyclic(t.folders) && FilesOk(t) && OwnsBelowRoot(t.folders, top, user)
          && OwnsBelowRoot(start.folders, top, user) && Smaller(t, start)
          && todo <= FilesIn(t, {top}, {pw})
          && FilesIn(t, {top}, {pw}) !! FilesIn(t, Subtrees(t.folders, Kids(t.folders, top, pw), {pw}), {pw})
          && ItemsGone(t, now, top, FilesIn(t, {top}, {pw}) - todo, pw, n, user))
  }

  lemma WalkStarts(t: Tables, start: Tables, top: Id, pw: bool, todo: set<Id>, n: int, owns: bool, user: Id)
    requires WellFormed(t.folders) && Acyclic(t.folders) && FilesOk(t) && FilesOk(start)
    requires owns ==> OwnsBelowRoot(t.folders, top, user) && KidsGone(t, start, Kids(t.folders, top, pw), pw, n, user)
                      && todo == Items(start.files, top, pw)
    ensures ItemsWalk(t, start, start, top, pw, todo, n, owns, user)
  {
    if owns {
      ItemsLeft(t, start, top, pw, n, user);
      assert FilesIn(t, {top}, {pw}) - todo == {};
    }
  }

  lemma SoundStill(start: Tables, now: Tables, rank: map<Id, nat>, bound: nat)
    requires Sound(start, rank, bound) && FilesOk(now) && now.folders == start.folders
    ensures Sound(now, rank, bound)
  {
  }

  lemma WalkEnds(t: Tables, start: Tables, now: Tables, top: Id, pw: bool, n: int, owns: bool, user: Id)
    requires ItemsWalk(t, start, now, top, pw, {}, n, owns, user)
    ensures Smaller(start, now) && FilesOk(now)
    ensures owns ==> Acyclic(t.folders) && ItemsOutcome(t, now, top, pw, Ok(n), user)
  {
    assert FilesIn(t, {top}, {pw}) - {} == FilesIn(t, {top}, {pw});
  }

  /** What deleting one file does, when it lies in a subfolder of the user's tree. */
  ghost predicate FileOutcome(t: Tables, now: Tables, y: Id, r: Result<int, Error>, user: Id)
    requires y in t.files
  {
    && (r.Ok? ==> Dropped(t, now, {}, {y}, r.value, user))
    && (r.Err? ==> now == t && !Deletable(t, y, user))
  }

  /** One more file. */
  lemma WalkStep(t: Tables, start: Tables, mid: Tables, now: Tables, top: Id, pw: bool, todo: set<Id>, y: Id, n: int,
                 r: Result<int, Error>, owns: bool, user: Id)
    requires ItemsWalk(t, start, mid, top, pw, todo, n, owns, user) && y in todo
    requires Smaller(mid, now) && FilesOk(now) && now.folders == mid.folders
    requires owns ==> y in mid.files && FileOutcome(mid, now, y, r, user)
    ensures r.Ok? ==> ItemsWalk(t, start, now, top, pw, todo - {y}, n + r.value, owns, user)
    ensures r.Err? && owns ==> GotStuck(t, now, top, pw, user)
  {
    if owns {
      var all := FilesIn(t, {top}, {pw});
      if r.Ok? {
        ItemDeleted(t, mid, now, top, all - todo, y, pw, n, r.value, user);
        assert all - (todo - {y}) == all - todo + {y};
      } else {
        ItemStuck(t, mid, top, all - todo, y, pw, n, user);
        ItemsArePartly(t, mid, top, all - todo, pw, n, user);
      }
    }
  }

  /** One more direct subfolder. */
  lemma KidOutcome(t: Tables, mid: Tables, now: Tables, top: Id, done: set<Id>, c: Id, pw: bool, n: int,
                   r: Result<int, Error>, user: Id)
    requires WellFormed(t.folders) && Acyclic(t.folders) && Acyclic(mid.folders)
    requires OwnsBelowRoot(t.folders, top, user)
    requires done <= Kids(t.folders, top, pw) && c in Kids(t.folders, top, pw) && c !in done
    requires KidsGone(t, mid, done, pw, n, user) && TreeOutcome(mid, now, c, pw, r, user)
    ensures if r.Ok? then KidsGone(t, now, done + {c}, pw, n + r.value, user) else GotStuck(t, now, top, pw, user)
  {
    if r.Ok? {
      KidDeleted(t, mid, now, top, done, c, pw, n, r.value, user);
    } else {
      var y :| y in FilesIn(mid, Subtree(mid.folders, c, {pw}), {pw}) && !Deletable(mid, y, user);
      KidStuck(t, mid, top, done, c, pw, n, user, y);
      KidIsPartly(t, mid, now, top, done, c, pw, n, user);
    }
  }

  /** A deletion is bound to fail if some file of the subtree has copies and none of its rows is the
      user's. */
  lemma UnresolvableFails(t: Tables, now: Tables, top: Id, pw: bool, r: Result<int, Error>, user: Id, y: Id)
    requires Acyclic(t.folders) && TreeOutcome(t, now, top, pw, r, user)
    requires y in FilesIn(t, Subtree(t.folders, top, {pw}), {pw}) && !Resolvable(t, y, user)
    ensures r.Err? && GotStuck(t, now, top, pw, user)
  {
  }

  // ----- Sizes of copies

  /** Sharing a file keeps copies and files equally long. */
  lemma CopyKeepsSizes(t: Tables, item: Id, user: Id, recipient: Id, canModify: bool, id: Id, shareId: Id, from: Id)
    requires SameSizes(t, t.files.Keys) && Fresh(t, id) && from in t.files
    ensures var t' := WithCopy(t, item, user, recipient, canModify, id, shareId, from);
            SameSizes(t', t'.files.Keys)
  {
  }

  /** Finishing an upload keeps them so if and only if no copy was made before, or the length was
      right from the beginning. */
  lemma FinishKeepsSizesIff(t: Tables, id: Id, length: int)
    requires SameSizes(t, t.files.Keys) && id in t.files && t.files[id].refId == id
    ensures var t' := Finished(t, id, length);
            SameSizes(t', t'.files.Keys) <==> FileRows(t.files, id) == {id} || length == t.files[id].length
  {
    var t' := Finished(t, id, length);
    if FileRows(t.files, id) != {id} && length != t.files[id].length {
      var z :| z in FileRows(t.files, id) && z != id;
      assert PlainSize(t.files[z]) == PlainSize(t.files[id]);
      assert z in t'.files && t'.files[z].refId == id;
    } else {
      forall z | z in t'.files && t'.files[z].refId in t'.files
        ensures PlainSize(t'.files[z]) == PlainSize(t'.files[t'.files[z].refId])
      {
        assert t.files[z].refId == id ==> z in FileRows(t.files, id);
        assert PlainSize(t.files[z]) == PlainSize(t.files[t.files[z].refId]);
      }
    }
  }

  // ----- One kind

  /** Everything in the subtree is of one kind. */
  ghost predicate OneKind(t: Tables, top: Id, pw: bool)
    requires Acyclic(t.folders)
  {
    var all := Subtree(t.folders, top, {true, false});
    && (forall x :: x in all && x != top ==> t.folders[x].pw == pw)
    && (forall y :: y in FilesIn(t, all, {true, false}) ==> t.files[y].pw == pw)
  }

  lemma {:induction false} UnderWider(f: Folders, x: Id, top: Id, pw: bool)
    requires Acyclic(f) && Under(f, x, top, {pw})
    ensures Under(f, x, top, {true, false})
    decreases Height(f, x)
  {
    if x == top {
    } else {
      UnderWider(f, f[x].parent, top, pw);
    }
  }

  lemma {:induction false} UnderOneKind(f: Folders, x: Id, top: Id, pw: bool)
    requires Acyclic(f) && Under(f, x, top, {true, false})
    requires forall y :: y in Subtree(f, top, {true, false}) && y != top ==> f[y].pw == pw
    ensures Under(f, x, top, {pw})
    decreases Height(f, x)
  {
    assert x in Subtree(f, top, {true, false});
    if x == top {
    } else {
      UnderOneKind(f, f[x].parent, top, pw);
    }
  }

  /** Deletion follows one kind, folder or password: it takes the whole subtree with every file
      in it if and only if all of it is of the kind asked for. */
  lemma TakesAllIffOneKind(t: Tables, top: Id, pw: bool)
    requires WellFormed(t.folders) && Acyclic(t.folders) && IsOriginal(t.folders, top)
    ensures var some, all := Subtree(t.folders, top, {pw}), Subtree(t.folders, top, {true, false});
            OneKind(t, top, pw) <==> some == all && FilesIn(t, some, {pw}) == FilesIn(t, all, {true, false})
  {
    var f := t.folders;
    var some, all := Subtree(f, top, {pw}), Subtree(f, top, {true, false});
    if OneKind(t, top, pw) {
      forall x | x in all
        ensures x in some
      {
        UnderOneKind(f, x, top, pw);
      }
      forall x | x in some
        ensures x in all
      {
        UnderWider(f, x, top, pw);
      }
    }
    assert forall x :: x in some && x != top ==> f[x].pw in {pw};
    assert forall y :: y in FilesIn(t, some, {pw}) ==> t.files[y].pw in {pw};
  }

  /** Editing a file may make a tree of one kind a mixed one, of which deletion then takes a part only:
      the tree stays of its kind if and only if the file is not in it or is given that kind. */
  lemma EditKeepsOneKindIff(t: Tables, top: Id, pw: bool, y: Id, kind: bool)
    requires Acyclic(t.folders) && OneKind(t, top, pw) && y in t.files && t.files[y].refId == y
    ensures OneKind(t.(files := SetKind(t.files, y, kind)), top, pw)
            <==> (t.files[y].folder in Subtree(t.folders, top, {true, false}) ==> kind == pw)
  {
    var t' := t.(files := SetKind(t.files, y, kind));
    var all := Subtree(t.folders, top, {true, false});
    hide Subtree;
    assert FilesIn(t', all, {true, false}) == FilesIn(t, all, {true, false});
    assert t'.files[y].pw == kind;
    if t.files[y].folder in all {
      assert y in FilesIn(t', all, {true, false});
    }
  }

  lemma PartIsRemovable(t: Tables, top: Id, pw: bool, user: Id, folders: set<Id>, files: set<Id>)
    requires WellFormed(t.folders) && Acyclic(t.folders) && OwnsBelowRoot(t.folders, top, user)
    requires OneKind(t, top, pw) && IsPart(t, top, pw, folders, files)
    ensures forall x :: x in folders ==> IsOriginal(t.folders, x) && t.folders[x].parent != ""
    ensures forall x :: IsOriginal(t.folders, x) && t.folders[x].parent in folders ==> x in folders
    ensures files <= t.files.Keys
  {
    var f := t.folders;
    TakesAllIffOneKind(t, top, pw);
    hide OneKind, WellFormed;
    forall x | x in folders
      ensures IsOriginal(f, x) && f[x].parent != ""
    {
      UnderOwned(f, x, top, pw, user);
    }
    forall x | IsOriginal(f, x) && f[x].parent in folders
      ensures x in folders
    {
      ChildIsOneKind(t, x, top, pw);
      assert x in Kids(f, f[x].parent, pw);
    }
  }

  lemma ConsistentIsSound(t: Tables)
    requires Consistent(t)
    ensures WellFormed(t.folders) && Acyclic(t.folders)
  {
  }

  /** Deleting a subtree of one kind keeps the tables consistent, also if only a part of it goes. */
  lemma DeletionKeeps(t: Tables, now: Tables, top: Id, pw: bool, user: Id)
    requires Consistent(t) && t.files.Keys !! t.folders.Keys
    requires OwnsBelowRoot(t.folders, top, user) && OneKind(t, top, pw) && Partly(t, now, top, pw)
    ensures Consistent(now)
  {
    hide IsPart, Drop, OneKind, Subtree, Consistent, Dropped;
    ConsistentIsSound(t);
    var folders, files :| IsPartly(t, now, top, pw, folders, files);
    PartIsRemovable(t, top, pw, user, folders, files);
    hide WellFormed, Acyclic;
    DropKeeps(t, folders, files);
  }

  lemma ChildIsOneKind(t: Tables, x: Id, top: Id, pw: bool)
    requires Acyclic(t.folders) && OneKind(t, top, pw) && IsOriginal(t.folders, x)
    requires Subtree(t.folders, top, {pw}) == Subtree(t.folders, top, {true, false})
    requires t.folders[x].parent in Subtree(t.folders, top, {pw})
    ensures t.folders[x].pw == pw
  {
    var f := t.folders;
    assert Under(f, f[x].parent, top, {true, false}) by {
      assert f[x].parent in Subtree(f, top, {true, false});
    }
    assert x in Subtree(f, top, {true, false});
    if x == top {
      UnderHeight(f, f[x].parent, top, {true, false});
    }
  }
}
