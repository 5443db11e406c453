/** Chunked uploads: the checksum array of the `uploads` table and who finishes an upload. */
module Multipart {
  import opened Results

  newtype Byte = i: int | 0 <= i < 256

  type Bytes = seq<Byte>

  const PLACEHOLDER := "?"

  // ----- The array column

  /** A Postgres text array with lower bound 1; None is NULL. */
  type Slots = seq<Option<string>>

  /** CreateNewUpload stores an array with the placeholder alone. */
  const NEW_SLOTS: Slots := [Some(PLACEHOLDER)]

  /** checksums[i] = v: an assignment past the end fills the gap with NULLs. */
  function Assign(a: Slots, i: nat, v: string): (b: Slots)
    requires i >= 1
    ensures |b| == if i <= |a| then |a| else i
    ensures forall k :: 0 <= k < |b| ==> b[k] == if k == i - 1 then Some(v) else if k < |a| then a[k] else None
  {
    if i <= |a| then a[i - 1 := Some(v)] else a + seq(i - 1 - |a|, k => None) + [Some(v)]
  }

  /** array_remove(checksums, NULL) */
  function RemoveNulls(a: Slots): seq<string> {
    if a == [] then []
    else if a[|a| - 1].None? then RemoveNulls(a[..|a| - 1])
    else RemoveNulls(a[..|a| - 1]) + [a[|a| - 1].value]
  }

  class UploadRow {
    var checksums: Slots

    constructor ()
      ensures checksums == NEW_SLOTS
    {
      checksums := NEW_SLOTS;
    }

    /** UPDATE uploads SET checksums[chunk] = checksum RETURNING array_remove(checksums, NULL) */
    method UpdateChecksums(chunk: nat, checksum: string) returns (r: seq<string>)
      requires chunk >= 1
      modifies this
      ensures checksums == Assign(old(checksums), chunk, checksum)
      ensures r == RemoveNulls(checksums)
    {
      checksums := Assign(checksums, chunk, checksum);
      r := [];
      for k := 0 to |checksums|
        invariant r == RemoveNulls(checksums[..k])
      {
        assert checksums[..k + 1][..k] == checksums[..k];
        if checksums[k].Some? {
          r := r + [checksums[k].value];
        }
      }
      assert checksums[..|checksums|] == checksums;
    }
  }

  /** The test on the returned array after which a request finishes the upload. */
  predicate IsComplete(r: seq<string>, total: nat) {
    |r| == total && |r| > 0 && r[0] != PLACEHOLDER
  }

  // ----- What the array says about the parts recorded so far

  /** The array after the checksums of some parts have been recorded: part numbers from 1. */
  ghost predicate Records(a: Slots, sums: map<nat, string>) {
    && |a| >= 1
    && (forall i :: i in sums ==> 1 <= i <= |a|)
    && (forall k :: 0 <= k < |a| ==>
                      a[k] == if k + 1 in sums then Some(sums[k + 1]) else if k == 0 then Some(PLACEHOLDER) else None)
  }

  lemma RecordsAssign(a: Slots, sums: map<nat, string>, i: nat, v: string)
    requires Records(a, sums) && i >= 1
    ensures Records(Assign(a, i, v), sums[i := v])
  {
  }

  /** The part numbers 1 to n. */
  function UpTo(n: nat): (s: set<nat>)
    ensures forall i :: i in s <==> 1 <= i <= n
    ensures |s| == n
  {
    if n == 0 then {} else UpTo(n - 1) + {n}
  }

  /** The slots among the first n that hold a value, numbered from 1. */
  ghost function Filled(a: Slots, n: nat): set<nat>
    requires n <= |a|
  {
    set i | i in UpTo(n) && a[i - 1].Some?
  }

  lemma FilledStep(a: Slots, n: nat)
    requires 1 <= n <= |a|
    ensures a[n - 1].Some? ==> Filled(a, n) == Filled(a, n - 1) + {n} && n !in Filled(a, n - 1)
    ensures a[n - 1].None? ==> Filled(a, n) == Filled(a, n - 1)
  {
  }

  /** array_remove keeps as many values as there are slots filled, and the first slot first. */
  lemma {:induction false} RemoveNullsSize(a: Slots, n: nat)
    requires n <= |a|
    ensures |RemoveNulls(a[..n])| == |Filled(a, n)|
    ensures n >= 1 && a[0].Some? ==> |RemoveNulls(a[..n])| >= 1 && RemoveNulls(a[..n])[0] == a[0].value
  {
    if n == 0 {
    } else {
      RemoveNullsSize(a, n - 1);
      assert a[..n][..n - 1] == a[..n - 1];
      FilledStep(a, n);
    }
  }

  lemma {:induction false} RemoveNullsFull(a: Slots, n: nat)
    requires n <= |a| && forall k :: 0 <= k < n ==> a[k].Some?
    ensures RemoveNulls(a[..n]) == seq(n, k requires 0 <= k < n => a[k].value)
  {
    if n == 0 {
    } else {
      RemoveNullsFull(a, n - 1);
      assert a[..n][..n - 1] == a[..n - 1];
    }
  }

  lemma {:induction false} NullTail(a: Slots, n: nat)
    requires n <= |a| && forall k :: n <= k < |a| ==> a[k].None?
    ensures RemoveNulls(a) == RemoveNulls(a[..n])
  {
    if |a| == n {
      assert a[..n] == a;
    } else {
      NullTail(a[..|a| - 1], n);
      assert a[..|a| - 1][..n] == a[..n];
    }
  }

  lemma SubsetOfSameSize<T>(a: set<T>, b: set<T>)
    requires a <= b && |a| == |b|
    ensures a == b
  {
    assert |b - a| == |b| - |a|;
  }

  lemma SlotsFilled(a: Slots, sums: map<nat, string>)
    requires Records(a, sums)
    ensures |RemoveNulls(a)| == |sums.Keys + {1}| && RemoveNulls(a) != []
    ensures RemoveNulls(a)[0] == if 1 in sums then sums[1] else PLACEHOLDER
  {
    hide RemoveNulls;
    assert a[..|a|] == a;
    RemoveNullsSize(a, |a|);
    SlotsHold(a, sums);
  }

  lemma SlotsHold(a: Slots, sums: map<nat, string>)
    requires Records(a, sums)
    ensures Filled(a, |a|) == sums.Keys + {1}
  {
  }

  lemma AllInOrder(a: Slots, sums: map<nat, string>, total: nat)
    requires Records(a, sums) && total >= 1 && sums.Keys == UpTo(total)
    ensures RemoveNulls(a) == seq(total, k requires 0 <= k < total => sums[k + 1])
  {
    assert total in UpTo(total);
    forall k | 0 <= k < total
      ensures a[k].Some? && a[k].value == sums[k + 1]
    {
      assert k + 1 in UpTo(total);
    }
    NullTail(a, total);
    RemoveNullsFull(a, total);
  }

  /** The array is complete exactly when every part has been recorded, in whatever order, and
      then it lists the checksums in part order. */
  lemma CompleteIffAllRecorded(a: Slots, sums: map<nat, string>, total: nat)
    requires Records(a, sums) && total >= 1 && sums.Keys <= UpTo(total)
    requires forall i :: i in sums ==> sums[i] != PLACEHOLDER
    ensures IsComplete(RemoveNulls(a), total) <==> sums.Keys == UpTo(total)
    ensures sums.Keys == UpTo(total) ==> RemoveNulls(a) == seq(total, k requires 0 <= k < total => sums[k + 1])
  {
    hide Records, RemoveNulls;
    SlotsFilled(a, sums);
    if sums.Keys == UpTo(total) {
      assert 1 in UpTo(total);
      assert sums.Keys + {1} == UpTo(total);
      AllInOrder(a, sums, total);
    } else if IsComplete(RemoveNulls(a), total) {
      assert sums.Keys + {1} == sums.Keys;
      SubsetOfSameSize(sums.Keys, UpTo(total));
    }
  }
}
