/** In-place ordering of release lists by revision number; a listed release is not changed while it is listed. */
module Revisions {
  import opened Hapi

  ghost predicate Ascending(list: seq<Snapshot>) {
    forall i, j :: 0 <= i < j < |list| ==> list[i].spec.version <= list[j].spec.version
  }

  function Mirror<T>(s: seq<T>): (m: seq<T>)
    ensures |m| == |s|
    ensures forall k :: 0 <= k < |s| ==> m[k] == s[|s| - 1 - k]
  {
    seq(|s|, k requires 0 <= k < |s| => s[|s| - 1 - k])
  }

  method Swap(list: array<Snapshot>, i: nat, j: nat)
    requires i < list.Length && j < list.Length
    modifies list
    ensures list[..] == old(list[..][i := list[j]][j := list[i]])
    ensures multiset(list[..]) == old(multiset(list[..]))
  {
    list[i], list[j] := list[j], list[i];
  }

  /** Sorts by Less and Swap; only the contract matters, since Go's sort.Sort promises no more. */
  method SortByRevision(list: array<Snapshot>)
    modifies list
    ensures Ascending(list[..])
    ensures multiset(list[..]) == old(multiset(list[..]))
  {
    var i := 0;
    while i < list.Length
      invariant 0 <= i <= list.Length
      invariant Ascending(list[..i])
      invariant multiset(list[..]) == old(multiset(list[..]))
    {
      SiftDown(list, i);
      i := i + 1;
    }
    assert list[..list.Length] == list[..];
  }

  /** One round of the sort: moves the i-th release down to its place among its predecessors. */
  method SiftDown(list: array<Snapshot>, i: nat)
    requires i < list.Length && Ascending(list[..i])
    modifies list
    ensures Ascending(list[..i + 1])
    ensures multiset(list[..]) == old(multiset(list[..]))
  {
    var j := i;
    while j > 0 && list[j].spec.version < list[j - 1].spec.version
      invariant 0 <= j <= i
      invariant forall a, b :: 0 <= a < b <= i && b != j ==> list[a].spec.version <= list[b].spec.version
      invariant multiset(list[..]) == old(multiset(list[..]))
    {
      Swap(list, j, j - 1);
      j := j - 1;
    }
  }

  /** The two-index loop: swaps the two ends inwards until they meet. */
  method SwapEnds(list: array<Snapshot>)
    modifies list
    ensures list[..] == Mirror(old(list[..]))
  {
    var i, j := 0, list.Length - 1;
    while i < j
      invariant 0 <= i <= j + 1 <= list.Length
      invariant i + j == list.Length - 1
      invariant forall k :: 0 <= k < i || j < k < list.Length ==> list[k] == old(list[list.Length - 1 - k])
      invariant forall k :: i <= k <= j ==> list[k] == old(list[k])
    {
      list[i], list[j] := list[j], list[i];
      i, j := i + 1, j - 1;
    }
  }

  /** Sorts, then mirrors; `sorted` is the list between the two steps. */
  method Reverse(list: array<Snapshot>) returns (ghost sorted: seq<Snapshot>)
    modifies list
    ensures Ascending(sorted)
    ensures multiset(sorted) == old(multiset(list[..]))
    ensures list[..] == Mirror(sorted)
  {
    SortByRevision(list);
    sorted := list[..];
    SwapEnds(list);
  }
}
