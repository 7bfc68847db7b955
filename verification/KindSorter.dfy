/** Ordering manifests by their kind. */
module KindSorter {
  import opened Hapi

  datatype Manifest = Manifest(name: string, content: string, head: Head)

  type SortOrder = seq<string>

  const INSTALL_ORDER: SortOrder := [
    "Namespace", "Secret", "ConfigMap", "PersistentVolume", "ServiceAccount", "Service", "Pod",
    "ReplicationController", "Deployment", "DaemonSet", "Ingress", "Job"]

  const UNINSTALL_ORDER: SortOrder := [
    "Service", "Pod", "ReplicationController", "Deployment", "DaemonSet", "ConfigMap", "Secret",
    "PersistentVolume", "ServiceAccount", "Ingress", "Job", "Namespace"]

  /** The last place at which an order names a kind; a kind it does not name comes behind all others. */
  function Rank(order: SortOrder, kind: string): (r: nat)
    ensures r <= |order|
    ensures r < |order| ==> order[r] == kind
    ensures forall j :: r < j < |order| ==> order[j] != kind
    ensures r == |order| <==> kind !in order
  {
    if order == [] then 0
    else if order[|order| - 1] == kind then |order| - 1
    else
      var r := Rank(order[..|order| - 1], kind);
      if r == |order| - 1 then |order| else r
  }

  ghost predicate Ordered(order: SortOrder, manifests: seq<Manifest>) {
    forall i, j :: 0 <= i < j < |manifests| ==>
      KindRank(order, manifests[i]) <= KindRank(order, manifests[j])
  }

  function KindRank(order: SortOrder, m: Manifest): nat {
    Rank(order, m.head.kind)
  }

  /** The lookup table of a sorter agrees with its order. */
  ghost predicate Tabulates(ordering: map<string, int>, order: SortOrder) {
    && (forall kind :: kind in ordering <==> kind in order)
    && (forall kind :: kind in ordering ==> ordering[kind] == Rank(order, kind))
  }

  /** Filling the table front to back leaves each kind its last index. */
  method NewKindSorter(order: SortOrder) returns (ordering: map<string, int>)
    ensures Tabulates(ordering, order)
  {
    ordering := map[];
    for v := 0 to |order|
      invariant Tabulates(ordering, order[..v])
    {
      ordering := ordering[order[v] := v];
      assert order[..v + 1][..v] == order[..v];
      assert forall kind :: kind in order[..v + 1] <==> kind in order[..v] || kind == order[v];
    }
    assert order[..|order|] == order;
  }

  predicate Less(ordering: map<string, int>, a: Manifest, b: Manifest) {
    if a.head.kind !in ordering then false
    else if b.head.kind !in ordering then true
    else ordering[a.head.kind] < ordering[b.head.kind]
  }

  lemma LessComparesRanks(ordering: map<string, int>, order: SortOrder, a: Manifest, b: Manifest)
    requires Tabulates(ordering, order)
    ensures Less(ordering, a, b) <==> KindRank(order, a) < KindRank(order, b)
  {
  }

  /** Less is a strict weak order whatever the table, which is what sort.Sort asks of it. */
  lemma LessIsStrictWeakOrder(ordering: map<string, int>, a: Manifest, b: Manifest, c: Manifest)
    ensures !Less(ordering, a, a)
    ensures Less(ordering, a, b) ==> !Less(ordering, b, a)
    ensures Less(ordering, a, b) && Less(ordering, b, c) ==> Less(ordering, a, c)
    ensures !Less(ordering, a, b) && !Less(ordering, b, a) && !Less(ordering, b, c) && !Less(ordering, c, b)
            ==> !Less(ordering, a, c) && !Less(ordering, c, a)
  {
  }

  /** Ordered means: the named kinds in their order, then everything the order does not name. */
  lemma UnknownKindsComeLast(order: SortOrder, manifests: seq<Manifest>, i: nat, j: nat)
    requires Ordered(order, manifests) && i < j < |manifests|
    ensures manifests[j].head.kind in order ==>
              && manifests[i].head.kind in order
              && Rank(order, manifests[i].head.kind) <= Rank(order, manifests[j].head.kind)
  {
    assert KindRank(order, manifests[i]) <= KindRank(order, manifests[j]);
  }

  /** No later kind of the list stands before an earlier one, and no kind it does not name before one it names. */
  ghost predicate FollowsList(kinds: seq<string>, manifests: seq<Manifest>) {
    forall p, q :: 0 <= p < q < |manifests| ==>
      var first, second := manifests[p].head.kind, manifests[q].head.kind;
      && (second in kinds ==> first in kinds)
      && forall i, j :: 0 <= i < j < |kinds| ==> !(first == kinds[j] && second == kinds[i])
  }

  lemma OrderedFollows(order: SortOrder, manifests: seq<Manifest>)
    requires Ordered(order, manifests) && forall i, j :: 0 <= i < j < |order| ==> order[i] != order[j]
    ensures FollowsList(order, manifests)
  {
    forall p, q | 0 <= p < q < |manifests|
      ensures KindRank(order, manifests[p]) <= KindRank(order, manifests[q])
    {
    }
  }

  lemma Distinct(kinds: seq<string>)
    requires kinds == INSTALL_ORDER || kinds == UNINSTALL_ORDER
    ensures forall i, j :: 0 <= i < j < |kinds| ==> kinds[i] != kinds[j]
  {
  }

  /** Installing begins with namespaces and ends with jobs, and then come the kinds nobody listed. */
  lemma InstallsInSequence(manifests: seq<Manifest>)
    requires Ordered(INSTALL_ORDER, manifests)
    ensures FollowsList(["Namespace", "Secret", "ConfigMap", "PersistentVolume", "ServiceAccount", "Service", "Pod",
                         "ReplicationController", "Deployment", "DaemonSet", "Ingress", "Job"], manifests)
  {
    Distinct(INSTALL_ORDER);
    OrderedFollows(INSTALL_ORDER, manifests);
  }

  /** Uninstalling begins with services and ends with jobs and namespaces, and then come the kinds nobody listed. */
  lemma UninstallsInSequence(manifests: seq<Manifest>)
    requires Ordered(UNINSTALL_ORDER, manifests)
    ensures FollowsList(["Service", "Pod", "ReplicationController", "Deployment", "DaemonSet", "ConfigMap", "Secret",
                         "PersistentVolume", "ServiceAccount", "Ingress", "Job", "Namespace"], manifests)
  {
    Distinct(UNINSTALL_ORDER);
    OrderedFollows(UNINSTALL_ORDER, manifests);
  }

  method Swap(manifests: array<Manifest>, i: nat, j: nat)
    requires i < manifests.Length && j < manifests.Length
    modifies manifests
    ensures manifests[i] == old(manifests[j]) && manifests[j] == old(manifests[i])
    ensures forall k :: 0 <= k < manifests.Length && k != i && k != j ==> manifests[k] == old(manifests[k])
    ensures multiset(manifests[..]) == old(multiset(manifests[..]))
  {
    manifests[i], manifests[j] := manifests[j], manifests[i];
  }

  /** Sorts by Less and Swap; only the contract matters, since Go's sort.Sort promises no more. */
  method SortByKind(manifests: array<Manifest>, order: SortOrder)
    modifies manifests
    ensures Ordered(order, manifests[..])
    ensures multiset(manifests[..]) == old(multiset(manifests[..]))
  {
    var ordering := NewKindSorter(order);
    var i := 0;
    while i < manifests.Length
      invariant 0 <= i <= manifests.Length
      invariant Ordered(order, manifests[..i])
      invariant multiset(manifests[..]) == old(multiset(manifests[..]))
    {
      SiftDown(manifests, ordering, order, i);
      i := i + 1;
    }
    assert manifests[..manifests.Length] == manifests[..];
  }

  /** One round of the sort: moves the i-th manifest down to its place among its predecessors. */
  method SiftDown(manifests: array<Manifest>, ordering: map<string, int>, ghost order: SortOrder, i: nat)
    requires i < manifests.Length && Tabulates(ordering, order)
    requires Ordered(order, manifests[..i])
    modifies manifests
    ensures Ordered(order, manifests[..i + 1])
    ensures multiset(manifests[..]) == old(multiset(manifests[..]))
  {
    hide KindRank, Less;
    var j := i;
    while j > 0 && Less(ordering, manifests[j], manifests[j - 1])
      invariant 0 <= j <= i
      invariant forall a, b :: 0 <= a < b <= i && b != j ==>
                  KindRank(order, manifests[a]) <= KindRank(order, manifests[b])
      invariant multiset(manifests[..]) == old(multiset(manifests[..]))
    {
      LessComparesRanks(ordering, order, manifests[j], manifests[j - 1]);
      Swap(manifests, j, j - 1);
      j := j - 1;
    }
    if j > 0 { LessComparesRanks(ordering, order, manifests[j], manifests[j - 1]); }
  }
}
