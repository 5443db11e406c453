/** What the server's recursive key query selects, and what a client can unwrap of it. */
module KeyChain {
  import opened Results
  import opened Tables

  // ----- The client: cli/crypto

  function OpenRsa(user: Id, w: Wrapped): Option<Key> {
    if w.Rsa? && w.user == user then Some(w.key) else None
  }

  function OpenAes(outer: Key, w: Wrapped): Option<Key> {
    if w.Aes? && w.outer == outer then Some(w.key) else None
  }

  /** The first key opens with the user's private key and every next one with the key before. */
  function Unwind(user: Id, keys: seq<Wrapped>): Option<Key>
    requires keys != []
  {
    var last := keys[|keys| - 1];
    if |keys| == 1 then OpenRsa(user, last)
    else
      match Unwind(user, keys[..|keys| - 1])
      case None => None
      case Some(outer) => OpenAes(outer, last)
  }

  /** UnwindKeySequence: one pass over the sequence, stopping at the first key that fails. */
  method UnwindKeySequence(user: Id, keys: seq<Wrapped>) returns (r: Option<Key>)
    requires keys != []
    ensures r == Unwind(user, keys)
  {
    r := OpenRsa(user, keys[0]);
    var i := 1;
    while i < |keys| && r.Some?
      invariant 1 <= i <= |keys|
      invariant r == Unwind(user, keys[..i])
    {
      assert keys[..i + 1][..i] == keys[..i];
      r := OpenAes(r.value, keys[i]);
      i := i + 1;
    }
    if i < |keys| {
      UnwindStuck(user, keys, i);
    } else {
      assert keys[..i] == keys;
    }
  }

  lemma {:induction false} UnwindStuck(user: Id, keys: seq<Wrapped>, i: nat)
    requires 1 <= i <= |keys| && Unwind(user, keys[..i]).None?
    ensures Unwind(user, keys).None?
  {
    if i == |keys| {
      assert keys[..i] == keys;
    } else {
      assert keys[..|keys| - 1][..i] == keys[..i];
      UnwindStuck(user, keys[..|keys| - 1], i);
    }
  }

  // ----- The server: the recursive query of GetKeySequence

  /** Rows of depth 1: the folder itself and the asking user's own reference to it. */
  function Bottom(f: Folders, folder: Id, user: Id): set<Id> {
    set id | id in f && f[id].refId == folder && (f[id].parent == user || id == f[id].refId)
  }

  /** Every row, of whichever user, of a folder that is a parent of a row in the level. */
  function Above(f: Folders, level: set<Id>): set<Id> {
    set id, r | r in level && r in f && id in f && f[id].refId == f[r].parent :: id
  }

  /** Rows at a distance above the folder; the query calls distance d "depth" d + 1. */
  function Level(f: Folders, folder: Id, user: Id, d: nat): set<Id> {
    if d == 0 then Bottom(f, folder, user) else Above(f, Level(f, folder, user, d - 1))
  }

  /** What ROW_NUMBER keeps of a level: a row of the asking user if there is one, otherwise
      any row, because the query orders equals in no particular way. */
  predicate Kept(f: Folders, user: Id, level: set<Id>, id: Id) {
    && level <= f.Keys
    && id in level
    && (f[id].owner == user || forall x :: x in level ==> f[x].owner != user)
  }

  /** One row kept for each of the lowest levels. */
  ghost predicate AllKept(f: Folders, folder: Id, user: Id, picks: seq<Id>) {
    forall d :: 0 <= d < |picks| ==> Kept(f, user, Level(f, folder, user, d), picks[d])
  }

  /** One row kept for every level that is not empty. */
  ghost predicate IsSelection(f: Folders, folder: Id, user: Id, picks: seq<Id>) {
    AllKept(f, folder, user, picks) && Level(f, folder, user, |picks|) == {}
  }

  ghost predicate AllIn(f: Folders, picks: seq<Id>) {
    forall d :: 0 <= d < |picks| ==> picks[d] in f
  }

  /** GetKeySequence's answer: deepest level first, and the deepest one dropped. */
  ghost function Sequence(f: Folders, picks: seq<Id>): seq<Wrapped>
    requires picks != [] && AllIn(f, picks)
  {
    seq(|picks| - 1, j requires 0 <= j < |picks| - 1 => f[picks[|picks| - 2 - j]].key)
  }

  /** The row with number 1 when a level is ordered with the asking user's rows first. */
  method FirstRow(f: Folders, user: Id, level: set<Id>) returns (id: Id)
    requires level != {} && level <= f.Keys
    ensures Kept(f, user, level, id)
  {
    var mine := set x | x in level && f[x].owner == user;
    id :| id in level && (mine != {} ==> id in mine);
    assert forall x :: x in level && f[x].owner == user ==> x in mine;
  }

  lemma AllKeptAdd(f: Folders, folder: Id, user: Id, picks: seq<Id>, id: Id)
    requires AllKept(f, folder, user, picks) && Kept(f, user, Level(f, folder, user, |picks|), id)
    ensures AllKept(f, folder, user, picks + [id])
  {
  }

  /** The keys of the kept rows, deepest level first. */
  ghost function AllKeys(f: Folders, picks: seq<Id>): seq<Wrapped>
    requires AllIn(f, picks)
  {
    seq(|picks|, j requires 0 <= j < |picks| => f[picks[|picks| - 1 - j]].key)
  }

  lemma AllKeysAdd(f: Folders, picks: seq<Id>, id: Id)
    requires AllIn(f, picks) && id in f
    ensures AllIn(f, picks + [id]) && AllKeys(f, picks + [id]) == [f[id].key] + AllKeys(f, picks)
  {
  }

  lemma AllKeysDrop(f: Folders, picks: seq<Id>)
    requires AllIn(f, picks) && picks != []
    ensures AllKeys(f, picks)[1..] == Sequence(f, picks)
  {
  }

  /** Every row of the level is at most `bound` steps below a root. */
  ghost predicate Within(f: Folders, rank: map<Id, nat>, level: set<Id>, bound: int) {
    level <= f.Keys && forall id :: id in level ==> f[id].refId in rank && rank[f[id].refId] <= bound
  }

  lemma BottomWithin(f: Folders, rank: map<Id, nat>, folder: Id, user: Id)
    requires WellFormed(f) && Ranked(f, rank)
    ensures Within(f, rank, Bottom(f, folder, user), if folder in rank then rank[folder] as int else 0)
    ensures Bottom(f, folder, user) != {} <==> IsOriginal(f, folder)
  {
    assert forall id :: id in Bottom(f, folder, user) ==> RowOk(f, id);
    assert IsOriginal(f, folder) ==> folder in Bottom(f, folder, user);
  }

  lemma LevelSinks(f: Folders, rank: map<Id, nat>, level: set<Id>, bound: int)
    requires WellFormed(f) && Ranked(f, rank) && Within(f, rank, level, bound)
    ensures Within(f, rank, Above(f, level), bound - 1)
  {
    forall id | id in Above(f, level)
      ensures f[id].refId in rank && rank[f[id].refId] <= bound - 1
    {
      var r :| r in level && f[id].refId == f[r].parent;
      assert RowOk(f, id) && RowOk(f, r);
      assert RankOk(f, rank, r) && RankOk(f, rank, f[r].refId) && RankOk(f, rank, f[r].owner);
    }
  }

  /** Where the evaluation stands once rows have been kept for the lowest levels. */
  ghost predicate Progress(f: Folders, folder: Id, user: Id, rank: map<Id, nat>,
                           level: set<Id>, picks: seq<Id>, bound: int)
  {
    && level == Level(f, folder, user, |picks|)
    && Within(f, rank, level, bound)
    && AllIn(f, picks) && AllKept(f, folder, user, picks)
    && (picks == [] && level == {} ==> !IsOriginal(f, folder))
    && (picks != [] ==> IsOriginal(f, folder))
  }

  lemma ProgressStarts(f: Folders, folder: Id, user: Id, rank: map<Id, nat>)
    requires WellFormed(f) && Ranked(f, rank)
    ensures Progress(f, folder, user, rank, Bottom(f, folder, user), [],
                     if folder in rank then rank[folder] as int else 0)
  {
    BottomWithin(f, rank, folder, user);
  }

  lemma ProgressStep(f: Folders, folder: Id, user: Id, rank: map<Id, nat>,
                     level: set<Id>, picks: seq<Id>, bound: int, id: Id)
    requires WellFormed(f) && Ranked(f, rank)
    requires Progress(f, folder, user, rank, level, picks, bound) && Kept(f, user, level, id)
    ensures bound >= 0
    ensures Progress(f, folder, user, rank, Above(f, level), picks + [id], bound - 1)
  {
    LevelSinks(f, rank, level, bound);
    AllKeptAdd(f, folder, user, picks, id);
    AllKeysAdd(f, picks, id);
    BottomWithin(f, rank, folder, user);
  }

  /** The recursive query evaluated level by level. None stands for the panic of slicing an
      empty result, which is what an unknown folder gives. */
  method GetKeySequence(f: Folders, folder: Id, user: Id, ghost rank: map<Id, nat>)
    returns (r: Option<seq<Wrapped>>, ghost picks: seq<Id>)
    requires WellFormed(f) && Ranked(f, rank)
    ensures IsSelection(f, folder, user, picks) && AllIn(f, picks)
    ensures r == if picks == [] then None else Some(Sequence(f, picks))
    ensures r.None? <==> !IsOriginal(f, folder)
  {
    var level := Bottom(f, folder, user);
    var keys: seq<Wrapped> := [];
    picks := [];
    ghost var bound: int := if folder in rank then rank[folder] else 0;
    ProgressStarts(f, folder, user, rank);
    while level != {}
      invariant Progress(f, folder, user, rank, level, picks, bound)
      invariant keys == AllKeys(f, picks)
      decreases bound
    {
      var id := FirstRow(f, user, level);
      ProgressStep(f, folder, user, rank, level, picks, bound, id);
      AllKeysAdd(f, picks, id);
      keys := [f[id].key] + keys;
      picks := picks + [id];
      level := Above(f, level);
      bound := bound - 1;
    }
    if keys == [] {
      r := None;
    } else {
      r := Some(keys[1..]);
      AllKeysDrop(f, picks);
    }
  }

  // ----- Truth: how keys are really wrapped

  /** `keys` gives every folder that ever existed its own key, and every row carries the key
      of its folder: under the recipient's public key in a reference, under the owner's in the
      root and in its direct subfolders, and under the parent's key below that. */
  ghost predicate KeysOk(f: Folders, keys: map<Id, Key>) {
    && (forall a, b :: a in keys && b in keys && keys[a] == keys[b] ==> a == b)
    && (forall id {:trigger KeyOk(f, keys, id)} :: id in f ==> KeyOk(f, keys, id))
  }

  predicate KeyOk(f: Folders, keys: map<Id, Key>, id: Id)
    requires id in f
  {
    var r := f[id];
    && r.refId in keys
    && if r.refId != id || r.parent == "" || r.parent == r.owner then r.key == Rsa(r.owner, keys[r.refId])
       else r.parent in keys && r.key == Aes(keys[r.parent], keys[id])
  }

  /** The folder c[0] and its ancestors up to the root. */
  ghost predicate IsChain(f: Folders, c: seq<Id>) {
    && c != []
    && (forall i :: 0 <= i < |c| ==> IsOriginal(f, c[i]))
    && (forall i :: 0 <= i < |c| - 1 ==> f[c[i]].parent == c[i + 1])
    && IsRoot(f, c[|c| - 1])
  }

  lemma {:induction false} ChainOwner(f: Folders, c: seq<Id>, i: nat)
    requires WellFormed(f) && IsChain(f, c) && i < |c|
    ensures f[c[i]].owner == c[|c| - 1]
    ensures i < |c| - 1 ==> f[c[i]].parent != ""
    ensures i < |c| - 2 ==> f[c[i]].parent != c[|c| - 1]
    decreases |c| - i
  {
    if i == |c| - 1 {
    } else {
      assert RowOk(f, c[i]);
      ChainOwner(f, c, i + 1);
    }
  }

  /** How the row of each folder on a chain is wrapped. */
  lemma ChainKey(f: Folders, keys: map<Id, Key>, c: seq<Id>, i: nat)
    requires WellFormed(f) && KeysOk(f, keys) && IsChain(f, c) && i < |c|
    ensures c[i] in keys
    ensures i >= |c| - 2 ==> f[c[i]].key == Rsa(c[|c| - 1], keys[c[i]])
    ensures i < |c| - 2 ==> c[i + 1] in keys && f[c[i]].key == Aes(keys[c[i + 1]], keys[c[i]])
  {
    ChainOwner(f, c, i);
    assert KeyOk(f, keys, c[i]);
  }

  // ----- What the levels contain

  /** A row at distance i is a row of the i-th folder on the chain, or the root of someone to
      whom a folder lower on the chain is shared. */
  ghost predicate OnLevel(f: Folders, c: seq<Id>, i: nat, id: Id)
    requires i < |c|
  {
    && id in f
    && (f[id].refId == c[i] || (i > 0 && IsRoot(f, id) && id != c[|c| - 1]))
  }

  /** The rows that a row on the chain, or a recipient's root, brings into the next level. */
  lemma NextLevel(f: Folders, c: seq<Id>, i: nat, r: Id, id: Id)
    requires WellFormed(f) && IsChain(f, c) && i + 1 < |c|
    requires OnLevel(f, c, i, r) && id in f && f[id].refId == f[r].parent
    ensures OnLevel(f, c, i + 1, id)
  {
    ChainOwner(f, c, i);
    assert RowOk(f, r) && RowOk(f, id);
    if f[r].refId == c[i] && r != c[i] {
      var w := f[r].owner;
      assert IsRoot(f, w) && f[id].refId == w && w != c[|c| - 1];
      assert id == w;
    }
  }

  lemma {:induction false} LevelContents(f: Folders, c: seq<Id>, user: Id, i: nat)
    requires WellFormed(f) && IsChain(f, c) && i < |c|
    ensures c[i] in Level(f, c[0], user, i)
    ensures forall id :: id in Level(f, c[0], user, i) ==> OnLevel(f, c, i, id)
    ensures i > 0 ==> forall id :: id in f && f[id].refId == c[i] ==> id in Level(f, c[0], user, i)
  {
    if i == 0 {
    } else {
      LevelContents(f, c, user, i - 1);
      var below := Level(f, c[0], user, i - 1);
      assert c[i - 1] in below && f[c[i - 1]].parent == c[i];
      forall id | id in Above(f, below)
        ensures OnLevel(f, c, i, id)
      {
        var r :| r in below && f[id].refId == f[r].parent;
        NextLevel(f, c, i - 1, r, id);
      }
    }
  }

  lemma NothingAboveRoots(f: Folders, c: seq<Id>, r: Id, id: Id)
    requires WellFormed(f) && IsChain(f, c) && OnLevel(f, c, |c| - 1, r) && id in f
    ensures f[id].refId != f[r].parent
  {
    assert RowOk(f, r) && RowOk(f, id);
  }

  /** The level of the root is the last one that is not empty. */
  lemma LastLevel(f: Folders, c: seq<Id>, user: Id)
    requires WellFormed(f) && IsChain(f, c)
    ensures Level(f, c[0], user, |c|) == {}
  {
    LevelContents(f, c, user, |c| - 1);
    forall r, id | r in Level(f, c[0], user, |c| - 1) && id in f
      ensures f[id].refId != f[r].parent
    {
      NothingAboveRoots(f, c, r, id);
    }
  }

  /** Every level up to the root's has a row to keep, and the selection ends there. */
  lemma SelectionLength(f: Folders, c: seq<Id>, user: Id, picks: seq<Id>)
    requires WellFormed(f) && IsChain(f, c) && IsSelection(f, c[0], user, picks)
    ensures |picks| == |c| && AllIn(f, picks)
  {
    assert forall d :: 0 <= d < |picks| ==> Level(f, c[0], user, d) != {};
    LastLevel(f, c, user);
    if |picks| < |c| {
      LevelContents(f, c, user, |picks|);
    }
  }

  // ----- Exactly which selections unwind

  /** What unwinding has recovered once it has used the kept rows from distance n - 1 down to i. */
  ghost function UnwindPicks(f: Folders, user: Id, picks: seq<Id>, i: nat): Option<Key>
    requires AllIn(f, picks) && i < |picks| - 1
    decreases |picks| - i
  {
    if i == |picks| - 2 then OpenRsa(user, f[picks[i]].key)
    else match UnwindPicks(f, user, picks, i + 1)
         case None => None
         case Some(outer) => OpenAes(outer, f[picks[i]].key)
  }

  lemma {:induction false} UnwindSequence(f: Folders, user: Id, picks: seq<Id>, i: nat)
    requires AllIn(f, picks) && i < |picks| - 1
    ensures Unwind(user, Sequence(f, picks)[..|picks| - 1 - i]) == UnwindPicks(f, user, picks, i)
    decreases |picks| - i
  {
    var s := Sequence(f, picks);
    var keys := s[..|picks| - 1 - i];
    assert keys[|keys| - 1] == f[picks[i]].key;
    if i == |picks| - 2 {
    } else {
      UnwindSequence(f, user, picks, i + 1);
      assert keys[..|keys| - 1] == s[..|picks| - 1 - (i + 1)];
    }
  }

  /** The rows with which a user can unwrap the chain: the user's own row of the topmost
      folder, and below it the originals. */
  ghost predicate Fitting(f: Folders, c: seq<Id>, user: Id, picks: seq<Id>, i: nat)
    requires AllIn(f, picks) && |picks| == |c| && i < |c| - 1
  {
    && f[picks[|c| - 2]].refId == c[|c| - 2] && f[picks[|c| - 2]].owner == user
    && forall j :: i <= j < |c| - 2 ==> picks[j] == c[j]
  }

  /** The single row that unwrapping can use at a distance from the folder. */
  lemma {:induction false} UnwindExactly(f: Folders, keys: map<Id, Key>, c: seq<Id>, user: Id, picks: seq<Id>, i: nat)
    requires WellFormed(f) && KeysOk(f, keys) && IsChain(f, c) && IsSelection(f, c[0], user, picks)
    requires |picks| == |c| && AllIn(f, picks) && i < |c| - 1
    ensures c[i] in keys
    ensures Fitting(f, c, user, picks, i) ==> UnwindPicks(f, user, picks, i) == Some(keys[c[i]])
    ensures !Fitting(f, c, user, picks, i) && UnwindPicks(f, user, picks, i).Some?
            ==> i == |c| - 2 && IsRoot(f, picks[i]) && picks[i] in keys
                && UnwindPicks(f, user, picks, i).value == keys[picks[i]]
    decreases |c| - i
  {
    ChainKey(f, keys, c, i);
    LevelContents(f, c, user, i);
    var p := picks[i];
    assert Kept(f, user, Level(f, c[0], user, i), p) && OnLevel(f, c, i, p);
    assert KeyOk(f, keys, p) && RowOk(f, p);
    if i == |c| - 2 {
    } else {
      ChainKey(f, keys, c, i + 1);
      ChainOwner(f, c, i);
      ChainOwner(f, c, i + 1);
      UnwindExactly(f, keys, c, user, picks, i + 1);
      var outer := UnwindPicks(f, user, picks, i + 1);
      if outer.Some? && OpenAes(outer.value, f[p].key).Some? {
        assert p == c[i];
        assert outer.value == keys[c[i + 1]];
        assert c[i + 1] != c[|c| - 1];
      }
    }
  }

  // ----- Main results

  /** The client's answer for a folder when the server selected these rows. */
  ghost function ClientKey(f: Folders, user: Id, picks: seq<Id>): Option<Key>
    requires |picks| > 1 && AllIn(f, picks)
  {
    Unwind(user, Sequence(f, picks))
  }

  /** Unwrapping succeeds exactly for the fitting rows, and then gives the folder's own key. */
  lemma ClientKeyExactly(f: Folders, keys: map<Id, Key>, c: seq<Id>, user: Id, picks: seq<Id>)
    requires WellFormed(f) && KeysOk(f, keys) && IsChain(f, c) && IsSelection(f, c[0], user, picks) && |c| > 1
    ensures |picks| == |c| && AllIn(f, picks) && c[0] in keys
    ensures ClientKey(f, user, picks) == if Fitting(f, c, user, picks, 0) then Some(keys[c[0]]) else None
  {
    SelectionLength(f, c, user, picks);
    UnwindExactly(f, keys, c, user, picks, 0);
    UnwindSequence(f, user, picks, 0);
    var s := Sequence(f, picks);
    assert s[..|picks| - 1] == s;
    LevelContents(f, c, user, 0);
    assert Kept(f, user, Level(f, c[0], user, 0), picks[0]);
    ChainOwner(f, c, 0);
  }

  /** No user ever unwraps a wrong key: whatever the server selects, the client ends with the
      folder's own key or with an error. */
  lemma UnwindIsSound(f: Folders, keys: map<Id, Key>, c: seq<Id>, user: Id, picks: seq<Id>)
    requires WellFormed(f) && KeysOk(f, keys) && IsChain(f, c) && IsSelection(f, c[0], user, picks) && |c| > 1
    ensures |picks| == |c| && AllIn(f, picks) && c[0] in keys
    ensures ClientKey(f, user, picks).Some? ==> ClientKey(f, user, picks) == Some(keys[c[0]])
  {
    ClientKeyExactly(f, keys, c, user, picks);
  }

  /** The owner unwraps every folder at any depth, whatever is shared inside the tree. */
  lemma OwnerUnwinds(f: Folders, keys: map<Id, Key>, c: seq<Id>, picks: seq<Id>)
    requires WellFormed(f) && KeysOk(f, keys) && IsChain(f, c)
    requires IsSelection(f, c[0], f[c[0]].owner, picks)
    ensures |picks| == |c| && AllIn(f, picks) && c[0] in keys
    ensures |c| == 1 ==> Sequence(f, picks) == []
    ensures |c| > 1 ==> ClientKey(f, f[c[0]].owner, picks) == Some(keys[c[0]])
  {
    var u := f[c[0]].owner;
    ChainOwner(f, c, 0);
    SelectionLength(f, c, u, picks);
    ChainKey(f, keys, c, 0);
    forall i | 0 <= i < |c|
      ensures picks[i] == c[i]
    {
      ChainOwner(f, c, i);
      LevelContents(f, c, u, i);
      assert Kept(f, u, Level(f, c[0], u, i), picks[i]) && OnLevel(f, c, i, picks[i]);
    }
    if |c| > 1 {
      ChainOwner(f, c, |c| - 2);
      ClientKeyExactly(f, keys, c, u, picks);
    }
  }

  // ----- Recipients

  /** The folder reaches the user through one share, of the topmost folder of the chain, and
      no folder between that one and c[0] is shared with anyone. */
  ghost predicate SharedAtTop(f: Folders, c: seq<Id>, user: Id)
    requires |c| > 1
  {
    && (exists id :: id in f && f[id].refId == c[|c| - 2] && f[id].owner == user)
    && (forall i, id :: 0 < i < |c| - 2 && id in f && f[id].refId == c[i] ==> id == c[i])
    && (|c| > 2 ==> forall id :: id in f && f[id].refId == c[0] ==> f[id].owner != user)
  }

  lemma {:induction false} LevelsBelowTop(f: Folders, c: seq<Id>, user: Id, i: nat)
    requires WellFormed(f) && IsChain(f, c) && |c| > 1 && i < |c| - 1
    requires SharedAtTop(f, c, user)
    ensures i < |c| - 2 ==> Level(f, c[0], user, i) == {c[i]}
    ensures forall id :: id in Level(f, c[0], user, i) ==> f[id].refId == c[i]
  {
    LevelContents(f, c, user, i);
    if i == 0 {
      forall id | id in Bottom(f, c[0], user) && |c| > 2
        ensures id == c[0]
      {
        assert RowOk(f, id);
      }
    } else {
      LevelsBelowTop(f, c, user, i - 1);
    }
  }

  lemma {:induction false} SomeSelection(f: Folders, c: seq<Id>, user: Id, n: nat) returns (picks: seq<Id>)
    requires WellFormed(f) && IsChain(f, c) && n <= |c|
    ensures |picks| == n
    ensures AllKept(f, c[0], user, picks)
    ensures n == |c| ==> IsSelection(f, c[0], user, picks)
  {
    if n == 0 {
      picks := [];
    } else {
      picks := SomeSelection(f, c, user, n - 1);
      var level := Level(f, c[0], user, n - 1);
      LevelContents(f, c, user, n - 1);
      var id := c[n - 1];
      if x :| x in level && f[x].owner == user {
        id := x;
      }
      AllKeptAdd(f, c[0], user, picks, id);
      picks := picks + [id];
    }
    LastLevel(f, c, user);
  }

  lemma AnotherKept(f: Folders, user: Id, level: set<Id>, usual: Id, id: Id) returns (other: Id)
    requires level <= f.Keys && usual in level && id in level && id != usual && f[usual].owner != user
    ensures Kept(f, user, level, other) && other != usual
  {
    other := id;
    if x :| x in level && f[x].owner == user {
      other := x;
    }
  }

  lemma AllKeptUpdate(f: Folders, folder: Id, user: Id, picks: seq<Id>, i: nat, id: Id)
    requires AllKept(f, folder, user, picks) && i < |picks| && Kept(f, user, Level(f, folder, user, i), id)
    ensures AllKept(f, folder, user, picks[i := id])
  {
  }

  /** A selection that keeps something else than c[i] at a distance below the top. */
  lemma OtherSelection(f: Folders, c: seq<Id>, user: Id, i: nat, id: Id) returns (picks: seq<Id>)
    requires WellFormed(f) && IsChain(f, c) && i < |c| - 2 && user != c[|c| - 1]
    requires id in Level(f, c[0], user, i) && id != c[i]
    ensures IsSelection(f, c[0], user, picks) && |picks| == |c| && picks[i] != c[i]
  {
    LevelContents(f, c, user, i);
    ChainOwner(f, c, i);
    picks := SomeSelection(f, c, user, |c|);
    var other := AnotherKept(f, user, Level(f, c[0], user, i), c[i], id);
    AllKeptUpdate(f, c[0], user, picks, i, other);
    picks := picks[i := other];
  }

  /** When the share is not at the top alone, some selection keeps a row that does not fit. */
  lemma BadSelection(f: Folders, c: seq<Id>, user: Id) returns (picks: seq<Id>)
    requires WellFormed(f) && IsChain(f, c) && |c| > 1 && user != c[|c| - 1]
    requires !SharedAtTop(f, c, user)
    ensures IsSelection(f, c[0], user, picks) && |picks| == |c| && AllIn(f, picks)
    ensures !Fitting(f, c, user, picks, 0)
  {
    if i, id :| 0 < i < |c| - 2 && id in f && f[id].refId == c[i] && id != c[i] {
      LevelContents(f, c, user, i);
      picks := OtherSelection(f, c, user, i, id);
    } else if id :| |c| > 2 && id in f && f[id].refId == c[0] && f[id].owner == user {
      ChainOwner(f, c, 0);
      assert RowOk(f, id) && id in Bottom(f, c[0], user);
      picks := OtherSelection(f, c, user, 0, id);
    } else {
      picks := SomeSelection(f, c, user, |c|);
    }
    SelectionLength(f, c, user, picks);
  }

  /** What the server selects is what a recipient can unwrap, for every choice the query may
      make, if and only if the share sits at the top and nothing is shared in between. */
  lemma RecipientUnwindsIffSharedAtTop(f: Folders, keys: map<Id, Key>, c: seq<Id>, user: Id)
    requires WellFormed(f) && KeysOk(f, keys) && IsChain(f, c) && |c| > 1 && user != c[|c| - 1]
    ensures c[0] in keys
    ensures SharedAtTop(f, c, user)
            <==> forall picks :: IsSelection(f, c[0], user, picks) && |picks| > 1 && AllIn(f, picks)
                   ==> ClientKey(f, user, picks) == Some(keys[c[0]])
  {
    ChainKey(f, keys, c, 0);
    if SharedAtTop(f, c, user) {
      forall picks | IsSelection(f, c[0], user, picks)
        ensures |picks| > 1 && AllIn(f, picks) && ClientKey(f, user, picks) == Some(keys[c[0]])
      {
        TopSelectionFits(f, c, user, picks);
        ClientKeyExactly(f, keys, c, user, picks);
      }
    } else {
      var picks := BadSelection(f, c, user);
      ClientKeyExactly(f, keys, c, user, picks);
    }
  }

  lemma TopSelectionFits(f: Folders, c: seq<Id>, user: Id, picks: seq<Id>)
    requires WellFormed(f) && IsChain(f, c) && |c| > 1 && SharedAtTop(f, c, user)
    requires IsSelection(f, c[0], user, picks)
    ensures |picks| == |c| && AllIn(f, picks) && Fitting(f, c, user, picks, 0)
  {
    SelectionLength(f, c, user, picks);
    TopPick(f, c, user, picks[|c| - 2]);
    forall j | 0 <= j < |c| - 2
      ensures picks[j] == c[j]
    {
      LevelsBelowTop(f, c, user, j);
      assert Kept(f, user, Level(f, c[0], user, j), picks[j]);
    }
  }

  lemma TopPick(f: Folders, c: seq<Id>, user: Id, pick: Id)
    requires WellFormed(f) && IsChain(f, c) && |c| > 1 && SharedAtTop(f, c, user)
    requires Kept(f, user, Level(f, c[0], user, |c| - 2), pick)
    ensures f[pick].refId == c[|c| - 2] && f[pick].owner == user
  {
    var top := |c| - 2;
    var id :| id in f && f[id].refId == c[top] && f[id].owner == user;
    LevelContents(f, c, user, top);
    LevelsBelowTop(f, c, user, top);
    assert RowOk(f, id);
    assert id in Level(f, c[0], user, top);
  }
}
