/**
  The archive as it is kept: ReleaseVersion objects in a string-keyed collection, queried by labels.
  Every operation is proved against the plain map from (name, version) to record.
*/
module Archive {
  import opened Wrappers
  import opened GoStrings
  import opened ReleaseKey
  import opened Hapi
  import opened Worlds
  import opened Revisions
  import opened Sequences

  // ---------- the collection and its meaning ----------

  predicate Selects(selector: Labels, labels: Labels) {
    forall k :: k in selector ==> k in labels && labels[k] == selector[k]
  }

  /** Key, labels and content of one object tell the same story. */
  predicate CoherentEntry(ns: string, key: string, o: ReleaseVersion) {
    && o.name == key && o.namespace == ns
    && NAME in o.labels && key == MakeKey(o.labels[NAME], o.spec.version)
    && OWNER in o.labels && o.labels[OWNER] == "TILLER"
    && VERSION in o.labels && o.labels[VERSION] == Itoa(o.spec.version)
    && STATUS in o.labels && o.labels[STATUS] == o.status.code.Name()
  }

  ghost predicate Coherent(ns: string, versions: map<string, ReleaseVersion>) {
    forall key :: key in versions ==> CoherentEntry(ns, key, versions[key])
  }

  function LabelledId(o: ReleaseVersion): Id
    requires NAME in o.labels
  {
    Id(o.labels[NAME], o.spec.version)
  }

  /** The plain map a coherent collection stands for. */
  ghost function Meaning(ns: string, versions: map<string, ReleaseVersion>): Store
    requires Coherent(ns, versions)
  {
    map key | key in versions :: LabelledId(versions[key]) := Record(versions[key].spec, versions[key].status)
  }

  function DecodeVersion(o: ReleaseVersion): Snapshot {
    var s := o.status;
    Snapshot(
      TypeMeta("helm.sh/v1beta1", ""),
      GetReleaseNameFromReleaseVersion(o.name),
      o.namespace,
      o.spec,
      ReleaseStatus(s.code, s.details, s.notes, s.version, s.deployed, ZERO_TIME))
  }

  /** The object at a key is the record at the key's name and version, in both directions. */
  lemma MeaningAt(ns: string, versions: map<string, ReleaseVersion>, name: string, version: int32)
    requires Coherent(ns, versions)
    ensures var key, id := MakeKey(name, version), Id(name, version);
            && (id in Meaning(ns, versions) <==> key in versions)
            && (key in versions ==>
                  && LabelledId(versions[key]) == id
                  && Meaning(ns, versions)[id] == Record(versions[key].spec, versions[key].status))
  {
    var key := MakeKey(name, version);
    if key in versions {
      var o := versions[key];
      KeysAreInjective(name, version, o.labels[NAME], o.spec.version);
    }
    if Id(name, version) in Meaning(ns, versions) {
      var k :| k in versions && LabelledId(versions[k]) == Id(name, version);
      assert CoherentEntry(ns, k, versions[k]);
    }
  }

  /** Reading an object back is reading its record back. */
  lemma DecodesAlike(ns: string, versions: map<string, ReleaseVersion>, name: string, version: int32)
    requires Coherent(ns, versions) && MakeKey(name, version) in versions
    ensures var o, id := versions[MakeKey(name, version)], Id(name, version);
            id in Meaning(ns, versions) && DecodeVersion(o) == Decode(ns, id, Meaning(ns, versions)[id])
  {
    MeaningAt(ns, versions, name, version);
    assert CoherentEntry(ns, MakeKey(name, version), versions[MakeKey(name, version)]);
    SpelledNameIsDecoded(name, version);
  }

  /** Storing an object under its own key is storing its record under its own id. */
  lemma MeaningOfInsert(ns: string, versions: map<string, ReleaseVersion>, o: ReleaseVersion)
    requires Coherent(ns, versions) && CoherentEntry(ns, o.name, o)
    ensures Coherent(ns, versions[o.name := o])
    ensures Meaning(ns, versions[o.name := o]) == Meaning(ns, versions)[LabelledId(o) := Record(o.spec, o.status)]
  {
    hide MakeKey;
    var versions' := versions[o.name := o];
    var left, right := Meaning(ns, versions'), Meaning(ns, versions)[LabelledId(o) := Record(o.spec, o.status)];
    forall id: Id | id in left || id in right
      ensures id in left && id in right && left[id] == right[id]
    {
      InsertAt(ns, versions, o, id.name, id.version);
    }
  }

  lemma InsertAt(ns: string, versions: map<string, ReleaseVersion>, o: ReleaseVersion, name: string, version: int32)
    requires Coherent(ns, versions) && CoherentEntry(ns, o.name, o)
    requires Coherent(ns, versions[o.name := o])
    ensures var id := Id(name, version);
            var left := Meaning(ns, versions[o.name := o]);
            var right := Meaning(ns, versions)[LabelledId(o) := Record(o.spec, o.status)];
            (id in left <==> id in right) && (id in left ==> left[id] == right[id])
  {
    hide MakeKey;
    MeaningAt(ns, versions, name, version);
    MeaningAt(ns, versions[o.name := o], name, version);
    if MakeKey(name, version) == o.name {
      KeysAreInjective(name, version, o.labels[NAME], o.spec.version);
    }
  }

  /** Deleting the object at a key is deleting the record at its id. */
  lemma MeaningOfDelete(ns: string, versions: map<string, ReleaseVersion>, name: string, version: int32)
    requires Coherent(ns, versions)
    ensures Coherent(ns, versions - {MakeKey(name, version)})
    ensures Meaning(ns, versions - {MakeKey(name, version)}) == Meaning(ns, versions) - {Id(name, version)}
  {
    hide MakeKey, CoherentEntry;
    var left, right := Meaning(ns, versions - {MakeKey(name, version)}), Meaning(ns, versions) - {Id(name, version)};
    forall id: Id | id in left || id in right
      ensures id in left && id in right && left[id] == right[id]
    {
      DeleteAt(ns, versions, name, version, id);
    }
  }

  lemma DeleteAt(ns: string, versions: map<string, ReleaseVersion>, name: string, version: int32, id: Id)
    requires Coherent(ns, versions) && Coherent(ns, versions - {MakeKey(name, version)})
    ensures var left, right := Meaning(ns, versions - {MakeKey(name, version)}), Meaning(ns, versions);
            && (id in left <==> id in right && id != Id(name, version))
            && (id in left ==> left[id] == right[id])
  {
    hide MakeKey;
    MeaningAt(ns, versions, id.name, id.version);
    MeaningAt(ns, versions - {MakeKey(name, version)}, id.name, id.version);
    if MakeKey(id.name, id.version) == MakeKey(name, version) {
      KeysAreInjective(id.name, id.version, name, version);
    }
  }

  /** The object is the release's record, under the release's key and labels. */
  predicate Archives(ns: string, o: ReleaseVersion, rel: Snapshot) {
    && o.name == MakeKey(rel.name, rel.spec.version)
    && CoherentEntry(ns, o.name, o)
    && LabelledId(o) == IdOf(rel)
    && Record(o.spec, o.status) == RecordOf(rel)
  }

  /** What the collection becomes when an object is created, or updated, under its own key. */
  function Created(versions: map<string, ReleaseVersion>, o: ReleaseVersion): map<string, ReleaseVersion> {
    if o.name in versions then versions else versions[o.name := o]
  }

  function Updated(versions: map<string, ReleaseVersion>, o: ReleaseVersion): map<string, ReleaseVersion> {
    if o.name in versions then versions[o.name := o] else versions
  }

  function Deleted(versions: map<string, ReleaseVersion>, key: string): map<string, ReleaseVersion> {
    versions - {key}
  }

  /** Creating a release's object creates its record, unless the map already has one. */
  lemma CreatingMeansCreating(ns: string, versions: map<string, ReleaseVersion>, rel: Snapshot, o: ReleaseVersion)
    requires Coherent(ns, versions) && Archives(ns, o, rel)
    ensures o.name in versions <==> IdOf(rel) in Meaning(ns, versions)
    ensures Coherent(ns, Created(versions, o))
    ensures Meaning(ns, Created(versions, o)) == Perform(Meaning(ns, versions), Create(rel))
  {
    MeaningAt(ns, versions, rel.name, rel.spec.version);
    MeaningOfInsert(ns, versions, o);
  }

  /** Updating a release's object updates its record, if the map has one. */
  lemma UpdatingMeansUpdating(ns: string, versions: map<string, ReleaseVersion>, rel: Snapshot, o: ReleaseVersion)
    requires Coherent(ns, versions) && Archives(ns, o, rel)
    ensures o.name in versions <==> IdOf(rel) in Meaning(ns, versions)
    ensures Coherent(ns, Updated(versions, o))
    ensures Meaning(ns, Updated(versions, o)) == Perform(Meaning(ns, versions), Put(rel))
  {
    MeaningAt(ns, versions, rel.name, rel.spec.version);
    MeaningOfInsert(ns, versions, o);
  }

  lemma DeletingMeansRemoving(ns: string, versions: map<string, ReleaseVersion>, name: string, version: int32)
    requires Coherent(ns, versions)
    ensures MakeKey(name, version) in versions <==> Id(name, version) in Meaning(ns, versions)
    ensures Coherent(ns, Deleted(versions, MakeKey(name, version)))
    ensures Meaning(ns, Deleted(versions, MakeKey(name, version)))
            == Perform(Meaning(ns, versions), Remove(name, version))
  {
    hide MakeKey, CoherentEntry;
    MeaningAt(ns, versions, name, version);
    MeaningOfDelete(ns, versions, name, version);
  }

  // ---------- the API server's side ----------

  /** The collection of ReleaseVersions in one namespace, and the log of all that was done so far. */
  class Cluster {
    const env: Env
    var versions: map<string, ReleaseVersion>
    var log: seq<Action>
    ghost var store: Store

    ghost predicate Valid()
      reads this
    {
      Coherent(env.namespace, versions) && store == Meaning(env.namespace, versions)
    }

    ghost function World(): World
      reads this
    {
      Worlds.World(store, log)
    }

    constructor (env: Env)
      ensures Valid() && this.env == env && World() == Worlds.World(map[], [])
    {
      this.env, versions, log, store := env, map[], [], map[];
    }

    /** Any call to Kubernetes or to the Release objects: logged, and answered by the oracle. */
    method Ask(call: Call) returns (ok: bool)
      requires Valid()
      modifies this
      ensures Valid() && World() == env.Ask(old(World()), call)
      ensures ok == env.answer(old(log), call)
    {
      ok := env.answer(log, call);
      log := log + [Asked(call, ok)];
    }

    /** Fails exactly on an existing name. */
    method CreateVersion(o: ReleaseVersion, rel: Snapshot) returns (ok: bool)
      requires Valid() && Archives(env.namespace, o, rel)
      modifies this
      ensures Valid() && World() == old(World()).Do(Create(rel))
      ensures ok == Succeeds(old(store), Create(rel))
    {
      hide CoherentEntry, MakeKey;
      CreatingMeansCreating(env.namespace, versions, rel, o);
      ok := o.name !in versions;
      versions := Created(versions, o);
      store, log := Perform(store, Create(rel)), log + [Create(rel)];
    }

    /** Fails exactly on a missing name. */
    method UpdateVersion(o: ReleaseVersion, rel: Snapshot) returns (ok: bool)
      requires Valid() && Archives(env.namespace, o, rel)
      modifies this
      ensures Valid() && World() == old(World()).Do(Put(rel))
      ensures ok == Succeeds(old(store), Put(rel))
    {
      hide CoherentEntry, MakeKey;
      UpdatingMeansUpdating(env.namespace, versions, rel, o);
      ok := o.name in versions;
      versions := Updated(versions, o);
      store, log := Perform(store, Put(rel)), log + [Put(rel)];
    }

    /** Fails exactly on a missing name. */
    method DeleteVersion(key: string, name: string, version: int32) returns (ok: bool)
      requires Valid() && key == MakeKey(name, version)
      modifies this
      ensures Valid() && World() == old(World()).Do(Remove(name, version))
      ensures ok == Succeeds(old(store), Remove(name, version))
    {
      hide CoherentEntry, MakeKey;
      DeletingMeansRemoving(env.namespace, versions, name, version);
      ok := key in versions;
      versions := Deleted(versions, key);
      store, log := Perform(store, Remove(name, version)), log + [Remove(name, version)];
    }

    method GetVersion(key: string) returns (o: Option<ReleaseVersion>)
      ensures o == if key in versions then Some(versions[key]) else None
    {
      o := if key in versions then Some(versions[key]) else None;
    }

    /** The objects carrying all of the selector's labels, each once, in no particular order. */
    method ListVersions(selector: Labels) returns (items: seq<ReleaseVersion>, ghost keys: seq<string>)
      ensures |keys| == |items|
      ensures forall i :: 0 <= i < |keys| ==>
                keys[i] in versions && items[i] == versions[keys[i]] && Selects(selector, items[i].labels)
      ensures forall i, j :: 0 <= i < j < |keys| ==> keys[i] != keys[j]
      ensures forall key :: key in versions && Selects(selector, versions[key].labels) ==>
              key in keys && versions[key] in items
    {
      var todo := set key | key in versions && Selects(selector, versions[key].labels);
      items, keys := [], [];
      while todo != {}
        invariant todo <= versions.Keys
        invariant |keys| == |items|
        invariant forall i :: 0 <= i < |keys| ==>
                    && keys[i] in versions && keys[i] !in todo
                    && items[i] == versions[keys[i]] && Selects(selector, items[i].labels)
        invariant forall i, j :: 0 <= i < j < |keys| ==> keys[i] != keys[j]
        invariant forall key :: key in versions && Selects(selector, versions[key].labels) ==>
                key in todo || key in keys
        invariant forall key :: key in todo ==> Selects(selector, versions[key].labels)
        decreases |todo|
      {
        var key :| key in todo;
        items, keys, todo := items + [versions[key]], keys + [key], todo - {key};
      }
      forall key | key in keys
        ensures versions[key] in items
      {
        var i :| 0 <= i < |keys| && keys[i] == key;
        assert items[i] == versions[key];
      }
    }
  }

  // ---------- the driver ----------

  class ReleaseVersions {
    const impl: Cluster

    constructor (impl: Cluster)
      ensures this.impl == impl
    {
      this.impl := impl;
    }

    method NewReleaseVersionObject(key: string, rls: Release, stampLabel: LabelKey) returns (o: ReleaseVersion)
      requires key == MakeKey(rls.name, rls.spec.version)
      requires stampLabel in {CREATED_AT, MODIFIED_AT}
      ensures Archives(impl.env.namespace, o, rls.Now())
      ensures o.labels.Keys == {NAME, OWNER, STATUS, VERSION, stampLabel}
      ensures o.name == rls.name + "-v" + Itoa(rls.spec.version)
      ensures o.labels[NAME] == rls.name && o.labels[OWNER] == "TILLER" && o.labels[VERSION] == Itoa(rls.spec.version)
      ensures o.labels[STATUS] == match rls.status.code
                                  case UNKNOWN => "UNKNOWN"
                                  case DEPLOYED => "DEPLOYED"
                                  case DELETED => "DELETED"
                                  case SUPERSEDED => "SUPERSEDED"
                                  case FAILED => "FAILED"
                                  case DELETING => "DELETING"
    {
      var lbs: Labels := map[stampLabel := Itoa(impl.env.clock(impl.log, 0))];
      lbs := lbs[NAME := rls.name];
      lbs := lbs[OWNER := "TILLER"];
      lbs := lbs[STATUS := rls.status.code.Name()];
      lbs := lbs[VERSION := Itoa(rls.spec.version)];
      o := ReleaseVersion(key, impl.env.namespace, lbs, rls.spec,
                          VersionStatus(rls.status.code, rls.status.details, rls.status.notes,
                                        rls.status.lastDeployedVersion, rls.status.lastDeployed));
    }

    method Create(key: string, rls: Release) returns (err: Option<Error>)
      requires impl.Valid() && key == MakeKey(rls.name, rls.spec.version)
      modifies impl
      ensures impl.Valid() && impl.World() == old(impl.World()).Do(Worlds.Create(rls.Now()))
      ensures err == if old(IdOf(rls.Now()) in impl.store) then Some(ReleaseExists) else None
    {
      hide MakeKey, Archives, Cluster.Valid;
      var o := NewReleaseVersionObject(key, rls, CREATED_AT);
      var ok := impl.CreateVersion(o, rls.Now());
      err := if ok then None else Some(ReleaseExists);
    }

    method Update(key: string, rls: Release) returns (err: Option<Error>)
      requires impl.Valid() && key == MakeKey(rls.name, rls.spec.version)
      modifies impl
      ensures impl.Valid() && impl.World() == old(impl.World()).Do(Put(rls.Now()))
      ensures err == if old(IdOf(rls.Now()) in impl.store) then None else Some(ReleaseNotFound)
    {
      hide MakeKey, Archives, Cluster.Valid;
      var o := NewReleaseVersionObject(key, rls, MODIFIED_AT);
      var ok := impl.UpdateVersion(o, rls.Now());
      err := if ok then None else Some(ReleaseNotFound);
    }

    /** Get hands out name, namespace and spec of the stored object; its status stays behind. */
    method Get(key: string) returns (r: Result<Release, Error>)
      ensures r.Ok? <==> key in impl.versions
      ensures r.Ok? ==>
                && fresh(r.value)
                && r.value.typeMeta == TypeMeta("Release", "helm.sh/v1beta1")
                && r.value.status == ReleaseStatus(UNKNOWN, "", "", 0, 0, 0)
                && var stored := DecodeVersion(impl.versions[key]);
                   r.value.Now() == stored.(typeMeta := RELEASE_TYPE, status := EMPTY_STATUS)
      ensures r.Err? ==> r.error == ReleaseNotFound
    {
      var o := impl.GetVersion(key);
      if o.None? { return Err(ReleaseNotFound); }
      var rls := new Release(
        Snapshot(RELEASE_TYPE, GetReleaseNameFromReleaseVersion(o.value.name), o.value.namespace, o.value.spec,
                 EMPTY_STATUS));
      r := Ok(rls);
    }

    /** Delete reads the object first; when it is missing, nothing is deleted. */
    method Delete(key: string, name: string, version: int32) returns (r: Result<Release, Error>)
      requires impl.Valid() && key == MakeKey(name, version)
      modifies impl
      ensures impl.Valid()
      ensures r.Ok? <==> Id(name, version) in old(impl.store)
      ensures r.Err? ==> r.error == ReleaseNotFound
      ensures impl.World() == if r.Ok? then old(impl.World()).Do(Remove(name, version)) else old(impl.World())
    {
      hide MakeKey, DecodeVersion, CoherentEntry;
      MeaningAt(impl.env.namespace, impl.versions, name, version);
      r := Get(key);
      if r.Err? { return; }
      var _ := impl.DeleteVersion(key, name, version);
    }

    method Query(labels: Labels) returns (r: Result<array<Snapshot>, Error>, ghost keys: seq<string>)
      ensures forall i :: 0 <= i < |keys| ==> keys[i] in impl.versions && Selects(labels, impl.versions[keys[i]].labels)
      ensures forall i, j :: 0 <= i < j < |keys| ==> keys[i] != keys[j]
      ensures forall key :: key in impl.versions && Selects(labels, impl.versions[key].labels) ==> key in keys
      ensures r.Err? <==> keys == []
      ensures r.Err? ==> r.error == ReleaseNotFound
      ensures r.Ok? ==>
                && fresh(r.value) && r.value.Length == |keys|
                && forall i :: 0 <= i < |keys| ==> r.value[i] == DecodeVersion(impl.versions[keys[i]])
    {
      hide DecodeVersion;
      var items;
      items, keys := impl.ListVersions(labels);
      if |items| == 0 { return Err(ReleaseNotFound), keys; }
      var results: seq<Snapshot> := [];
      for n := 0 to |items|
        invariant |results| == n
        invariant forall i :: 0 <= i < n ==> results[i] == DecodeVersion(items[i])
      {
        results := results + [DecodeVersion(items[n])];
      }
      var list := new Snapshot[|results|](i requires 0 <= i < |results| => results[i]);
      r := Ok(list);
    }
  }

  // ---------- the storage front end ----------

  class Storage {
    const driver: ReleaseVersions

    constructor (driver: ReleaseVersions)
      ensures this.driver == driver
    {
      this.driver := driver;
    }

    method Get(name: string, version: int32) returns (r: Result<Release, Error>)
      requires driver.impl.Valid()
      ensures var store := driver.impl.store; var id := Id(name, version);
              && (r.Ok? <==> id in store)
              && (r.Ok? ==> fresh(r.value)
                            && r.value.Now() == Decode(driver.impl.env.namespace, id, store[id])
                                                .(typeMeta := RELEASE_TYPE, status := EMPTY_STATUS))
              && (r.Err? ==> r.error == ReleaseNotFound)
    {
      MeaningAt(driver.impl.env.namespace, driver.impl.versions, name, version);
      if MakeKey(name, version) in driver.impl.versions {
        DecodesAlike(driver.impl.env.namespace, driver.impl.versions, name, version);
      }
      r := driver.Get(MakeKey(name, version));
    }

    method Create(rls: Release) returns (err: Option<Error>)
      requires driver.impl.Valid()
      modifies driver.impl
      ensures driver.impl.Valid() && driver.impl.World() == old(driver.impl.World()).Do(Worlds.Create(rls.Now()))
      ensures var store, id := old(driver.impl.store), IdOf(rls.Now());
              driver.impl.store == if id in store then store else store[id := RecordOf(rls.Now())]
      ensures err == if old(IdOf(rls.Now()) in driver.impl.store) then Some(ReleaseExists) else None
    {
      err := driver.Create(MakeKey(rls.name, rls.spec.version), rls);
    }

    method Update(rls: Release) returns (err: Option<Error>)
      requires driver.impl.Valid()
      modifies driver.impl
      ensures driver.impl.Valid() && driver.impl.World() == old(driver.impl.World()).Do(Put(rls.Now()))
      ensures var store, id := old(driver.impl.store), IdOf(rls.Now());
              driver.impl.store == if id in store then store[id := RecordOf(rls.Now())] else store
      ensures err == if old(IdOf(rls.Now()) in driver.impl.store) then None else Some(ReleaseNotFound)
    {
      err := driver.Update(MakeKey(rls.name, rls.spec.version), rls);
    }

    method Delete(name: string, version: int32) returns (r: Result<Release, Error>)
      requires driver.impl.Valid()
      modifies driver.impl
      ensures driver.impl.Valid()
      ensures r.Ok? <==> Id(name, version) in old(driver.impl.store)
      ensures r.Err? ==> r.error == ReleaseNotFound
      ensures driver.impl.World()
              == if r.Ok? then old(driver.impl.World()).Do(Remove(name, version)) else old(driver.impl.World())
      ensures driver.impl.store == old(driver.impl.store) - {Id(name, version)}
    {
      hide MakeKey, Coherent, Meaning;
      r := driver.Delete(MakeKey(name, version), name, version);
    }

    /** Every stored revision of the name exactly once and no other, or ErrReleaseNotFound. */
    method History(name: string) returns (r: Result<array<Snapshot>, Error>)
      requires driver.impl.Valid()
      ensures var store := driver.impl.store;
              && (r.Err? <==> forall v :: Id(name, v) !in store)
              && (r.Err? ==> r.error == ReleaseNotFound)
              && (r.Ok? ==> fresh(r.value) && r.value.Length > 0
                            && Lists(driver.impl.env.namespace, store, name, r.value[..]))
    {
      hide Decode, DecodeVersion, MakeKey, Lists, Selects, Coherent, Meaning;
      var m := map[NAME := name];
      m := m[OWNER := "TILLER"];
      ghost var keys;
      r, keys := driver.Query(m);
      QueryIsHistory(driver.impl, name, m, keys, if r.Ok? then r.value[..] else []);
    }

    /** The newest revision; `rels` is the history it was taken from. */
    method Last(name: string) returns (r: Result<Release, Error>, ghost rels: seq<Snapshot>)
      requires driver.impl.Valid()
      ensures IsHistory(driver.impl.env.namespace, driver.impl.store, name, rels)
      ensures r.Err? <==> rels == []
      ensures r.Err? ==> r.error == ReleaseNotFound
      ensures r.Ok? ==> fresh(r.value) && r.value.Now() == LastOf(rels)
      ensures r.Ok? ==> r.value.typeMeta == TypeMeta("Release", "helm.sh/v1beta1")
    {
      var listing := History(name);
      if listing.Err? { return Err(listing.error), []; }
      var h := listing.value;
      ghost var listed := h[..];
      rels := Reverse(h);
      SortedListing(driver.impl.env.namespace, driver.impl.store, name, listed, rels);
      assert h[0] == h[..][0];
      h[0] := h[0].(typeMeta := RELEASE_TYPE);
      var last := new Release(h[0]);
      r := Ok(last);
    }

    /** The history of a name, oldest first, as uninstalling reads it. */
    method SortedHistory(name: string) returns (r: Result<array<Snapshot>, Error>)
      requires driver.impl.Valid()
      ensures r.Err? <==> forall v :: Id(name, v) !in driver.impl.store
      ensures r.Err? ==> r.error == ReleaseNotFound
      ensures r.Ok? ==>
                && fresh(r.value) && r.value.Length > 0
                && IsHistory(driver.impl.env.namespace, driver.impl.store, name, r.value[..])
    {
      r := History(name);
      if r.Ok? {
        ghost var listed := r.value[..];
        SortByRevision(r.value);
        SortedListing(driver.impl.env.namespace, driver.impl.store, name, listed, r.value[..]);
      }
    }
  }

  /** Sorting a listing by revision turns it into the history. */
  lemma SortedListing(ns: string, store: Store, name: string, listed: seq<Snapshot>, sorted: seq<Snapshot>)
    requires Lists(ns, store, name, listed)
    requires multiset(listed) == multiset(sorted) && Ascending(sorted)
    ensures |sorted| == |listed| && IsHistory(ns, store, name, sorted)
  {
    SameElements(listed, sorted);
    forall i | 0 <= i < |sorted|
      ensures exists a :: 0 <= a < |listed| && listed[a] == sorted[i]
    {
      assert sorted[i] in listed;
    }
    forall i, j | 0 <= i < j < |sorted|
      ensures sorted[i].spec.version != sorted[j].spec.version
    {
      var a :| 0 <= a < |listed| && listed[a] == sorted[i];
      var b :| 0 <= b < |listed| && listed[b] == sorted[j];
      assert a != b;
    }
    forall v | Id(name, v) in store
      ensures exists i :: 0 <= i < |sorted| && sorted[i].spec.version == v
    {
      var a :| 0 <= a < |listed| && listed[a].spec.version == v;
      assert listed[a] in sorted;
    }
  }

  /** The objects labelled with a name are those whose keys that name spells. */
  lemma LabelledKeys(ns: string, versions: map<string, ReleaseVersion>, name: string, selector: Labels,
                     keys: seq<string>)
    requires Coherent(ns, versions) && selector == map[NAME := name, OWNER := "TILLER"]
    requires forall i :: 0 <= i < |keys| ==> keys[i] in versions && Selects(selector, versions[keys[i]].labels)
    requires forall key :: key in versions && Selects(selector, versions[key].labels) ==> key in keys
    ensures forall i :: 0 <= i < |keys| ==> keys[i] in versions && LabelledId(versions[keys[i]]).name == name
    ensures forall v: int32 :: Id(name, v) in Meaning(ns, versions) <==> MakeKey(name, v) in keys
    ensures keys == [] <==> forall v :: Id(name, v) !in Meaning(ns, versions)
  {
    hide MakeKey;
    forall v: int32
      ensures Id(name, v) in Meaning(ns, versions) <==> MakeKey(name, v) in keys
    {
      MeaningAt(ns, versions, name, v);
      var key := MakeKey(name, v);
      if key in versions {
        assert CoherentEntry(ns, key, versions[key]);
        assert Selects(selector, versions[key].labels);
      }
    }
    if keys != [] {
      var o := versions[keys[0]];
      assert CoherentEntry(ns, keys[0], o);
      assert Id(name, o.spec.version) in Meaning(ns, versions);
    }
  }

  /** A query by name lists the name's revisions, and comes back empty when there are none. */
  lemma QueryIsHistory(impl: Cluster, name: string, selector: Labels, keys: seq<string>, snaps: seq<Snapshot>)
    requires impl.Valid() && selector == map[NAME := name, OWNER := "TILLER"]
    requires forall i :: 0 <= i < |keys| ==>
            keys[i] in impl.versions && Selects(selector, impl.versions[keys[i]].labels)
    requires forall i, j :: 0 <= i < j < |keys| ==> keys[i] != keys[j]
    requires forall key :: key in impl.versions && Selects(selector, impl.versions[key].labels) ==> key in keys
    requires |snaps| == |keys|
    requires forall i :: 0 <= i < |keys| ==> snaps[i] == DecodeVersion(impl.versions[keys[i]])
    ensures keys == [] <==> forall v :: Id(name, v) !in impl.store
    ensures Lists(impl.env.namespace, impl.store, name, snaps)
  {
    hide Decode, DecodeVersion, MakeKey, Lists, Selects, Meaning;
    LabelledKeys(impl.env.namespace, impl.versions, name, selector, keys);
    QueryLists(impl.env.namespace, impl.versions, name, keys, snaps);
  }

  lemma QueryLists(ns: string, versions: map<string, ReleaseVersion>, name: string, keys: seq<string>,
                   snaps: seq<Snapshot>)
    requires Coherent(ns, versions) && |snaps| == |keys|
    requires forall i :: 0 <= i < |keys| ==> keys[i] in versions && LabelledId(versions[keys[i]]).name == name
    requires forall i, j :: 0 <= i < j < |keys| ==> keys[i] != keys[j]
    requires forall v: int32 :: Id(name, v) in Meaning(ns, versions) <==> MakeKey(name, v) in keys
    requires forall i :: 0 <= i < |keys| ==> snaps[i] == DecodeVersion(versions[keys[i]])
    ensures Lists(ns, Meaning(ns, versions), name, snaps)
  {
    forall i | 0 <= i < |keys|
      ensures keys[i] == MakeKey(name, snaps[i].spec.version)
      ensures var id := Id(name, snaps[i].spec.version);
              id in Meaning(ns, versions) && snaps[i] == Decode(ns, id, Meaning(ns, versions)[id])
    {
      assert CoherentEntry(ns, keys[i], versions[keys[i]]);
      DecodesAlike(ns, versions, name, snaps[i].spec.version);
    }
    forall v | Id(name, v) in Meaning(ns, versions)
      ensures exists i :: 0 <= i < |snaps| && snaps[i].spec.version == v
    {
      var key :| key in versions && LabelledId(versions[key]) == Id(name, v);
      var v32: int32 := versions[key].spec.version;
      var i :| 0 <= i < |keys| && keys[i] == MakeKey(name, v32);
      KeysAreInjective(name, v32, name, snaps[i].spec.version);
    }
  }
}
