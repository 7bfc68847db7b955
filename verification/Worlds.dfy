/**
  The world the handlers act on: the archive of revisions as a plain map, the actions that reach
  the outside, and the oracles that decide what the outside answers.
*/
module Worlds {
  import opened Wrappers
  import opened ReleaseKey
  import opened Hapi
  import opened Sequences

  // ---------- the archive ----------

  datatype Id = Id(name: string, version: int32)

  datatype Record = Record(spec: ReleaseSpec, status: VersionStatus)

  type Store = map<Id, Record>

  function IdOf(rel: Snapshot): Id {
    Id(rel.name, rel.spec.version)
  }

  /** What archiving keeps of a release. */
  function RecordOf(rel: Snapshot): Record {
    var s := rel.status;
    Record(rel.spec, VersionStatus(s.code, s.details, s.notes, s.lastDeployedVersion, s.lastDeployed))
  }

  /** What reading a revision back yields, under the name its key spells. */
  function Decode(ns: string, id: Id, rec: Record): Snapshot {
    var s := rec.status;
    Snapshot(
      TypeMeta("helm.sh/v1beta1", ""),
      SpelledName(id.name, id.version),
      ns,
      rec.spec,
      ReleaseStatus(s.code, s.details, s.notes, s.version, s.deployed, ZERO_TIME))
  }

  /** Archiving and reading back loses the first deployment time, the type and nothing else. */
  lemma RecordRoundTrip(ns: string, rel: Snapshot)
    requires rel.spec.version >= 0
    ensures var back := Decode(ns, IdOf(rel), RecordOf(rel));
            && back == rel.(typeMeta := back.typeMeta, namespace := ns,
                            status := rel.status.(firstDeployed := ZERO_TIME))
            && back.typeMeta == TypeMeta("helm.sh/v1beta1", "")
            && IdOf(back) == IdOf(rel)
            && RecordOf(back) == RecordOf(rel)
  {
  }

  /** The revisions of one name, each exactly once. */
  ghost predicate Lists(ns: string, store: Store, name: string, rels: seq<Snapshot>) {
    && (forall i :: 0 <= i < |rels| ==>
          && Id(name, rels[i].spec.version) in store
          && rels[i] == Decode(ns, Id(name, rels[i].spec.version), store[Id(name, rels[i].spec.version)]))
    && (forall i, j :: 0 <= i < j < |rels| ==> rels[i].spec.version != rels[j].spec.version)
    && (forall v :: Id(name, v) in store ==> exists i :: 0 <= i < |rels| && rels[i].spec.version == v)
  }

  /** The revisions of one name, oldest first. */
  ghost predicate IsHistory(ns: string, store: Store, name: string, rels: seq<Snapshot>) {
    && Lists(ns, store, name, rels)
    && forall i, j :: 0 <= i < j < |rels| ==> rels[i].spec.version < rels[j].spec.version
  }

  /** What Storage.Last hands out for a history: its newest revision, with a proper type. */
  function LastOf(rels: seq<Snapshot>): Snapshot
    requires rels != []
  {
    rels[|rels| - 1].(typeMeta := RELEASE_TYPE)
  }

  /** Nothing happened to the revisions of the name in between. */
  ghost predicate Untouched(before: Store, after: Store, name: string) {
    forall v: int32 ::
      && (Id(name, v) in before <==> Id(name, v) in after)
      && (Id(name, v) in before ==> before[Id(name, v)] == after[Id(name, v)])
  }

  // ---------- actions ----------

  datatype Call =
    | CreateResources(ns: string, manifest: string, timeout: int, wait: bool)
    | WatchUntilReady(ns: string, manifest: string, timeout: int)
    | UpdateResources(ns: string, current: string, target: string, recreate: bool, timeout: int, wait: bool)
    | DeleteResources(ns: string, content: string)
    | BuildResources(ns: string, manifest: string)
    | Discover
    | FetchRelease(name: string)
    | Publish(rel: Snapshot)

  /** An oracle call with its answer, or a write to the archive. */
  datatype Action =
    | Asked(call: Call, ok: bool)
    | Put(rel: Snapshot)
    | Create(rel: Snapshot)
    | Remove(name: string, version: int32)

  /** Create fails on an existing key, Update and Delete on a missing one; a failed write changes nothing. */
  predicate Succeeds(store: Store, a: Action) {
    match a
    case Asked(_, ok) => ok
    case Put(rel) => IdOf(rel) in store
    case Create(rel) => IdOf(rel) !in store
    case Remove(name, version) => Id(name, version) in store
  }

  function Perform(store: Store, a: Action): Store {
    match a
    case Asked(_, _) => store
    case Put(rel) => if Succeeds(store, a) then store[IdOf(rel) := RecordOf(rel)] else store
    case Create(rel) => if Succeeds(store, a) then store[IdOf(rel) := RecordOf(rel)] else store
    case Remove(name, version) => store - {Id(name, version)}
  }

  function PerformAll(store: Store, actions: seq<Action>): Store
    decreases |actions|
  {
    if actions == [] then store
    else PerformAll(Perform(store, actions[0]), actions[1..])
  }

  datatype World = World(store: Store, log: seq<Action>) {
    function Do(a: Action): World {
      World(Perform(store, a), log + [a])
    }
  }

  // ---------- oracles ----------

  /** What templates may refer to besides the chart and its values. */
  datatype Options = Options(name: string, namespace: string, revision: int32, isUpgrade: bool)

  datatype Groups = Unreachable | NoGroups | Listed(versions: seq<string>)

  /**
    Everything the code asks of others. `answer`, `groups`, `clock` and `fetch` may depend on all
    that happened before, so a theorem for every Env covers every pattern of failures.
  */
  datatype Env = Env(
    namespace: string,
    answer: (seq<Action>, Call) -> bool,
    groups: seq<Action> -> Groups,
    render: (Chart, string, Options) -> Option<map<string, string>>,
    head: string -> Option<Head>,
    clock: (seq<Action>, nat) -> Time,
    fetch: seq<Action> -> Option<Snapshot>)
  {
    function Ask(w: World, call: Call): World {
      w.Do(Asked(call, answer(w.log, call)))
    }
  }

  // ---------- laws ----------

  lemma {:induction false} PerformAllCons(store: Store, a: Action, rest: seq<Action>)
    ensures PerformAll(store, [a] + rest) == PerformAll(Perform(store, a), rest)
  {
    assert ([a] + rest)[1..] == rest;
  }

  lemma {:induction false} PerformAllAppend(store: Store, xs: seq<Action>, ys: seq<Action>)
    ensures PerformAll(store, xs + ys) == PerformAll(PerformAll(store, xs), ys)
    decreases |xs|
  {
    if xs == [] {
      assert xs + ys == ys;
    } else {
      assert (xs + ys)[1..] == xs[1..] + ys;
      PerformAllAppend(Perform(store, xs[0]), xs[1..], ys);
    }
  }

  /** A history is determined by the store, so every way of reading it agrees on the newest revision. */
  lemma HistoryIsUnique(ns: string, store: Store, name: string, a: seq<Snapshot>, b: seq<Snapshot>)
    requires IsHistory(ns, store, name, a) && IsHistory(ns, store, name, b)
    ensures a == b
  {
    hide Decode;
    var va, vb := Versions(a), Versions(b);
    VersionsInStore(ns, store, name, a);
    VersionsInStore(ns, store, name, b);
    OneAscendingListing(va, vb);
    assert forall k :: 0 <= k < |a| ==> va[k] == a[k].spec.version == vb[k] == b[k].spec.version;
  }

  lemma VersionsInStore(ns: string, store: Store, name: string, rels: seq<Snapshot>)
    requires IsHistory(ns, store, name, rels)
    ensures forall v :: v in Versions(rels) <==> MIN_INT32 <= v <= MAX_INT32 && Id(name, v) in store
    ensures StrictlyAscending(Versions(rels))
  {
    hide Decode;
    var vs := Versions(rels);
    forall v | MIN_INT32 <= v <= MAX_INT32 && Id(name, v) in store
      ensures v in vs
    {
      var i :| 0 <= i < |rels| && rels[i].spec.version == v;
      assert vs[i] == v;
    }
  }

  function Versions(rels: seq<Snapshot>): (vs: seq<int>)
    ensures |vs| == |rels| && forall k :: 0 <= k < |vs| ==> vs[k] == rels[k].spec.version
  {
    if rels == [] then [] else Versions(rels[..|rels| - 1]) + [rels[|rels| - 1].spec.version]
  }
}
