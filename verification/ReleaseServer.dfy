/** The release server: handlers that update the release they are given and the archive in place. */
module ReleaseServer {
  import opened Wrappers
  import opened GoStrings
  import opened ReleaseKey
  import opened ReleaseName
  import opened Hapi
  import opened Worlds
  import opened Revisions
  import opened KindSorter
  import opened Manifests
  import opened ManifestBlob
  import opened Archive
  import opened HandlerLaws
  import L = Lifecycle

  const NOTES_FILE_SUFFIX := "NOTES.txt"

  /** The notes of the chart itself, if it renders any. */
  function NotesOf(chart: Chart, files: map<string, string>): string {
    var own := chart.name + "/templates/" + NOTES_FILE_SUFFIX;
    if own in files then files[own] else ""
  }

  /** The rendered files that are no notes. */
  function WithoutNotes(files: map<string, string>): map<string, string> {
    map n | n in files && !HasSuffix(n, NOTES_FILE_SUFFIX) :: files[n]
  }

  /** The API versions a discovery reply stands for. */
  ghost predicate Serves(groups: Groups, vs: set<string>) {
    match groups
    case Unreachable => false
    case NoGroups => vs == {"v1"}
    case Listed(versions) => forall v :: v in vs <==> v in versions
  }

  /** What rendering a chart may yield: the classified, ordered and aggregated files, or an error. */
  ghost predicate RenderingOf(env: Env, w: World, chart: Chart, config: string, options: Options, r: L.Rendering) {
    var rendered := env.render(chart, config, options);
    if rendered.None? then r == L.Rendering([], Err(RenderFailed))
    else
      var groups := env.groups(w.log);
      && r.calls == [Asked(Discover, groups != Unreachable)]
      && (if r.result.Err? then RenderingFails(env, groups, WithoutNotes(rendered.value), r.result.error)
          else
            && r.result.value.notes == NotesOf(chart, rendered.value)
            && RenderingSucceeds(env, groups, WithoutNotes(rendered.value), r.result.value.hooks,
                                 r.result.value.manifest))
  }

  ghost predicate RenderingFails(env: Env, groups: Groups, files: map<string, string>, e: Error) {
    || (e == DiscoveryFailed && groups == Unreachable)
    || exists vs :: Serves(groups, vs) && Rejects(env, files, vs, e)
  }

  ghost predicate RenderingSucceeds(env: Env, groups: Groups, files: map<string, string>, hooks: seq<Hook>,
                                    manifest: string) {
    exists vs, generic ::
      && Serves(groups, vs)
      && Classified(env.head, vs, files, hooks, generic)
      && Ordered(INSTALL_ORDER, generic)
      && manifest == Blob(generic)
  }

  ghost predicate Rejects(env: Env, files: map<string, string>, vs: set<string>, e: Error) {
    exists n :: n in files && Place(env.head, vs, n, files[n]) == Rejected(e)
  }

  /** What taking a recorded manifest apart for uninstalling may yield. */
  ghost predicate ListingOf(env: Env, groups: Groups, manifest: string, listing: Result<seq<Manifest>, Error>) {
    exists vs, files ::
      && Serves(groups, vs)
      && NamesPieces(files, Split(manifest, SEP))
      && (if listing.Err? then Rejects(env, files, vs, listing.error)
          else
            && Ordered(UNINSTALL_ORDER, listing.value)
            && exists hooks :: Classified(env.head, vs, files, hooks, listing.value))
  }

  class ReleaseServer {
    const api: Cluster
    const releases: Storage

    ghost predicate Valid()
      reads api
    {
      releases.driver.impl == api && api.Valid()
    }

    constructor (env: Env)
      ensures Valid() && fresh(api) && api.env == env && api.World() == World(map[], [])
    {
      var cluster := new Cluster(env);
      var driver := new ReleaseVersions(cluster);
      var storage := new Storage(driver);
      api, releases := cluster, storage;
    }

    // ---------- rendering ----------

    method GetVersionSet() returns (r: Result<set<string>, Error>)
      requires Valid()
      modifies api
      ensures Valid()
      ensures api.World() == old(api.World()).Do(Asked(Discover, api.env.groups(old(api.log)) != Unreachable))
      ensures r.Err? <==> api.env.groups(old(api.log)) == Unreachable
      ensures r.Err? ==> r.error == DiscoveryFailed
      ensures r.Ok? ==> Serves(api.env.groups(old(api.log)), r.value)
      ensures api.env.groups(old(api.log)) == NoGroups ==> r == Ok({"v1"})
      ensures match api.env.groups(old(api.log))
              case Listed(versions) => r.Ok? && forall v :: v in r.value <==> v in versions
              case _ => true
    {
      var groups := api.env.groups(api.log);
      api.log := api.log + [Asked(Discover, groups != Unreachable)];
      match groups {
        case Unreachable => return Err(DiscoveryFailed);
        case NoGroups =>
          var vs := NewVersionSet(["v1"]);
          assert vs == {"v1"};
          return Ok(vs);
        case Listed(versions) =>
          var vs := NewVersionSet(versions);
          return Ok(vs);
      }
    }

    method ExtractNotes(chart: Chart, rendered: map<string, string>) returns (notes: string, files: map<string, string>)
      ensures notes == NotesOf(chart, rendered)
      ensures files == WithoutNotes(rendered)
      ensures notes == (if chart.name + "/templates/NOTES.txt" in rendered
                        then rendered[chart.name + "/templates/NOTES.txt"] else "")
      ensures forall n :: n in files <==> n in rendered && !(|n| >= 9 && n[|n| - 9..] == "NOTES.txt")
    {
      var own := chart.name + "/templates/" + NOTES_FILE_SUFFIX;
      notes, files := "", rendered;
      var todo := rendered.Keys;
      while todo != {}
        invariant todo <= rendered.Keys
        invariant notes == if own in rendered && own !in todo then rendered[own] else ""
        invariant forall n :: n in files <==> n in rendered && (n in todo || !HasSuffix(n, NOTES_FILE_SUFFIX))
        invariant forall n :: n in files ==> files[n] == rendered[n]
        decreases |todo|
      {
        var k :| k in todo;
        if HasSuffix(k, NOTES_FILE_SUFFIX) {
          if k == own { notes := rendered[k]; }
          files := files - {k};
        }
        todo := todo - {k};
      }
      OwnNotesAreNotes(chart);
      NotesSpelledOut(chart.name);
    }

    method RenderResources(chart: Chart, config: string, options: Options)
        returns (r: Result<L.Rendered, Error>, ghost calls: seq<Action>)
      requires Valid()
      modifies api
      ensures Valid()
      ensures RenderingOf(api.env, old(api.World()), chart, config, options, L.Rendering(calls, r))
      ensures api.World() == World(old(api.World().store), old(api.log) + calls)
    {
      var rendered := api.env.render(chart, config, options);
      if rendered.None? {
        assert api.log == api.log + [];
        return Err(RenderFailed), [];
      }
      var notes, files := ExtractNotes(chart, rendered.value);
      var vs := GetVersionSet();
      calls := [Asked(Discover, vs.Ok?)];
      if vs.Err? { return Err(vs.error), calls; }
      var sorted := SortManifests(api.env.head, files, vs.value, INSTALL_ORDER);
      if sorted.Err? { return Err(sorted.error), calls; }
      var (hooks, manifests) := sorted.value;
      var b := Aggregate(manifests);
      r := Ok(L.Rendered(hooks, b, notes));
    }

    // ---------- hooks ----------

    method RunHook(rel: Release, i: nat, ns: string, timeout: int) returns (ok: bool)
      requires Valid() && i < |rel.spec.hooks|
      modifies api, rel
      ensures Valid()
      ensures var turn := L.RunHook(api.env, old(api.World()), old(rel.spec.hooks[i]), ns, timeout);
              && api.World() == turn.world && ok == turn.ok
              && rel.Now() == WithHooks(old(rel.Now()), old(rel.spec.hooks)[i := turn.hook])
      ensures !ok ==> rel.Now() == old(rel.Now())
    {
      var h := rel.spec.hooks[i];
      assert rel.spec.hooks[i := h] == rel.spec.hooks;
      var created := api.Ask(CreateResources(ns, h.manifest, timeout, false));
      if !created { return false; }
      var ready := api.Ask(WatchUntilReady(ns, h.manifest, timeout));
      if !ready { return false; }
      h := h.(lastRun := Some(api.env.clock(api.log, 0)));
      rel.spec := rel.spec.(hooks := rel.spec.hooks[i := h]);
      ok := true;
    }

    method ExecHook(rel: Release, ns: string, event: HookEvent, timeout: int) returns (ok: bool)
      requires Valid()
      modifies api, rel
      ensures Valid()
      ensures var r := L.ExecHook(api.env, old(api.World()), old(rel.spec.hooks), ns, event, timeout);
              api.World() == r.world && ok == r.ok && rel.Now() == WithHooks(old(rel.Now()), r.hooks)
    {
      hide L.ExecHook, L.RunHook, Cluster.Valid;
      ghost var env, run := api.env, L.ExecHook(api.env, api.World(), rel.spec.hooks, ns, event, timeout);
      assert rel.spec.hooks[0..] == rel.spec.hooks;
      WholeRun(run);
      var i := 0;
      while i < |rel.spec.hooks|
        invariant Valid()
        invariant 0 <= i <= |rel.spec.hooks|
        invariant rel.Now() == WithHooks(old(rel.Now()), rel.spec.hooks)
        invariant run == Resume(rel.spec.hooks[..i],
                                L.ExecHook(env, api.World(), rel.spec.hooks[i..], ns, event, timeout))
        decreases |rel.spec.hooks| - i
      {
        ghost var before := rel.spec.hooks;
        HookStep(env, api.World(), before, i, ns, event, timeout);
        if event in rel.spec.hooks[i].events {
          var done := RunHook(rel, i, ns, timeout);
          if !done { return false; }
        }
        assert rel.spec.hooks[i + 1..] == before[i + 1..];
        assert rel.spec.hooks[..i + 1] == before[..i] + [rel.spec.hooks[i]];
        i := i + 1;
      }
      assert rel.spec.hooks[..i] == rel.spec.hooks;
      NoHooksLeft(env, api.World(), rel.spec.hooks, ns, event, timeout);
      ok := true;
    }

    method RunHooks(rel: Release, ns: string, event: HookEvent) returns (err: Option<Error>)
      requires Valid()
      modifies api, rel
      ensures Valid()
      ensures L.Outcome(api.World(), rel.Now(), err) == L.RunHooks(api.env, old(api.World()), old(rel.Now()), ns, event)
      ensures rel.Now() == WithHooks(old(rel.Now()), rel.spec.hooks)
    {
      if rel.spec.disableHooks { return None; }
      var ok := ExecHook(rel, ns, event, rel.spec.timeout);
      err := if ok then None else Some(HookFailed);
    }

    method Publish(rel: Release) returns (err: Option<Error>)
      requires Valid()
      modifies api
      ensures Valid()
      ensures api.World() == api.env.Ask(old(api.World()), Worlds.Publish(rel.Now()))
      ensures err == L.PublishError(api.env, old(api.World()), rel.Now())
    {
      var ok := api.Ask(Worlds.Publish(rel.Now()));
      err := if ok then None else Some(PublishFailed);
    }

    /** Errors of the archive are only logged. */
    method RecordRelease(r: Release, reuse: bool)
      requires Valid()
      modifies api
      ensures Valid()
      ensures api.World() == old(api.World()).Do(if reuse then Put(r.Now()) else Create(r.Now()))
    {
      if reuse {
        var _ := releases.Update(r);
      } else {
        var _ := releases.Create(r);
      }
    }

    // ---------- update ----------

    /** Copies the values of the current release to a release that has none. */
    method ReuseValues(rel: Release, current: Release)
      modifies rel`spec
      ensures rel.Now() == L.ReuseValues(old(rel.Now()), old(current.Now()))
      ensures rel.spec == old(rel.spec).(config := rel.spec.config)
      ensures TakesOver(old(rel.spec.config), old(current.spec.config), rel.spec.config)
      ensures rel.spec.chart == old(rel.spec.chart)
    {
      if L.IsEmptyConfig(rel.spec.config) && !L.IsEmptyConfig(current.spec.config) {
        rel.spec := rel.spec.(config := current.spec.config);
      }
    }

    method Revise(rel: Release, current: Release, revision: int32, out: L.Rendered)
      requires Valid() && revision == L.NextVersion(current.Now())
      requires rel != current
      modifies rel
      ensures rel.Now() == L.Revised(api.env, api.World(), old(rel.Now()), old(current.Now()), out)
    {
      rel.spec := rel.spec.(hooks := out.hooks);
      rel.spec := rel.spec.(version := revision);
      rel.spec := rel.spec.(manifest := out.manifest);
      rel.status := rel.status.(firstDeployed := current.status.firstDeployed);
      rel.status := rel.status.(lastDeployed := api.env.clock(api.log, 0));
      rel.status := rel.status.(lastDeployedVersion := revision);
      if |out.notes| > 0 {
        rel.status := rel.status.(notes := out.notes);
      }
    }

    method PrepareUpdate(rel: Release)
        returns (r: Result<Release, Error>, ghost rels: seq<Snapshot>, ghost rendering: L.Rendering)
      requires Valid()
      modifies api, rel
      ensures Valid()
      ensures L.Outcome(api.World(), rel.Now(), if r.Err? then Some(r.error) else None)
              == L.PrepareUpdate(api.env, old(api.World()), old(rel.Now()), rels, rendering)
      ensures ReadForUpdate(api.env, old(api.World()), old(rel.Now()), rels, rendering)
      ensures r.Ok? ==> fresh(r.value) && rels != [] && r.value.Now() == LastOf(rels)
    {
      hide RenderingOf, IsHistory, MatchString, L.Revised, L.ReuseValues, Coherent, Meaning, TakesOver;
      rels, rendering := [], L.Rendering([], Err(RenderFailed));
      if !MatchString(rel.name) { return Err(MissingRelease), rels, rendering; }
      if rel.spec.chart.None? { return Err(MissingChart), rels, rendering; }
      var last;
      last, rels := releases.Last(rel.name);
      if last.Err? { return Err(last.error), rels, rendering; }
      var current := last.value;
      ReuseValues(rel, current);
      var revision := L.NextVersion(current.Now());
      if rel.spec.config.None? {
        rel.spec := rel.spec.(config := Some(""));
      }
      var out;
      ghost var calls;
      out, calls := RenderResources(rel.spec.chart.value, rel.spec.config.value,
                                    Options(rel.name, current.namespace, revision, true));
      rendering := L.Rendering(calls, out);
      if out.Err? { return Err(out.error), rels, rendering; }
      Revise(rel, current, revision, out.value);
      var built := api.Ask(BuildResources(current.namespace, rel.spec.manifest));
      r := if built then Ok(current) else Err(ValidationFailed);
    }

    method PerformUpdate(original: Release, updated: Release) returns (err: Option<Error>)
      requires Valid() && original != updated
      modifies api, original`status, updated
      ensures Valid()
      ensures L.Outcome(api.World(), updated.Now(), err)
              == L.PerformUpdate(api.env, old(api.World()), old(original.Now()), old(updated.Now()))
      ensures old(api.log) <= api.log
      ensures forall k :: |old(api.log)| <= k < |api.log| && api.log[k].Asked? && api.log[k].call.UpdateResources? ==>
                api.log[k].call == old(UpdateResources(updated.namespace, original.spec.manifest,
                                                       updated.spec.manifest, updated.spec.recreate,
                                                       updated.spec.timeout, updated.spec.wait))
    {
      PerformUpdateAsks(api.env, api.World(), original.Now(), updated.Now());
      if updated.spec.dryRun { return None; }
      err := RunHooks(updated, updated.namespace, PRE_UPGRADE);
      if err.Some? { return; }
      var ok := api.Ask(UpdateResources(updated.namespace, original.spec.manifest, updated.spec.manifest,
                                        updated.spec.recreate, updated.spec.timeout, updated.spec.wait));
      if !ok {
        original.status := original.status.(code := SUPERSEDED);
        updated.status := updated.status.(code := FAILED);
        err := Publish(updated);
        RecordRelease(original, true);
        RecordRelease(updated, false);
        return;
      }
      err := RunHooks(updated, updated.namespace, POST_UPGRADE);
      if err.Some? { return; }
      original.status := original.status.(code := SUPERSEDED);
      RecordRelease(original, true);
      updated.status := updated.status.(code := DEPLOYED);
      err := Publish(updated);
    }

    method UpdateRelease(rel: Release)
        returns (err: Option<Error>, ghost rels: seq<Snapshot>, ghost rendering: L.Rendering)
      requires Valid()
      modifies api, rel
      ensures Valid()
      ensures L.Outcome(api.World(), rel.Now(), err)
              == L.UpdateRelease(api.env, old(api.World()), old(rel.Now()), rels, rendering)
      ensures ReadForUpdate(api.env, old(api.World()), old(rel.Now()), rels, rendering)
    {
      hide L.PrepareUpdate, L.PerformUpdate, ReadForUpdate, Cluster.Valid;
      var prepared;
      prepared, rels, rendering := PrepareUpdate(rel);
      if prepared.Err? { return Some(prepared.error), rels, rendering; }
      err := PerformUpdate(prepared.value, rel);
      if err.Some? { return; }
      if !rel.spec.dryRun {
        err := releases.Create(rel);
      }
    }

    // ---------- install ----------

    method Stamp(rel: Release, out: L.Rendered)
      requires Valid()
      modifies rel
      ensures rel.Now() == L.Fresh(api.env, api.World(), old(rel.Now()), out)
    {
      rel.status := rel.status.(firstDeployed := api.env.clock(api.log, 0));
      rel.status := rel.status.(lastDeployed := api.env.clock(api.log, 1));
      rel.status := rel.status.(code := UNKNOWN);
      rel.spec := rel.spec.(hooks := out.hooks);
      rel.spec := rel.spec.(manifest := out.manifest);
      rel.spec := rel.spec.(version := 1);
      if |out.notes| > 0 {
        rel.status := rel.status.(notes := out.notes);
      }
    }

    method PrepareRelease(rel: Release) returns (err: Option<Error>, ghost rendering: L.Rendering)
      requires Valid()
      modifies api, rel
      ensures Valid()
      ensures L.Outcome(api.World(), rel.Now(), err)
              == L.PrepareRelease(api.env, old(api.World()), old(rel.Now()), rendering)
      ensures ReadForInstall(api.env, old(api.World()), old(rel.Now()), rendering)
    {
      hide RenderingOf, L.Fresh, Coherent, Meaning;
      rendering := L.Rendering([], Err(RenderFailed));
      if rel.spec.chart.None? || |rel.spec.chart.value.templates| == 0 { return Some(MissingChart), rendering; }
      if rel.spec.config.None? {
        rel.spec := rel.spec.(config := Some(""));
      }
      var out;
      ghost var calls;
      out, calls := RenderResources(rel.spec.chart.value, rel.spec.config.value,
                                    Options(rel.name, rel.namespace, 1, false));
      rendering := L.Rendering(calls, out);
      if out.Err? { return Some(out.error), rendering; }
      Stamp(rel, out.value);
      var built := api.Ask(BuildResources(rel.namespace, rel.spec.manifest));
      err := if built then None else Some(ValidationFailed);
    }

    method PerformRelease(rel: Release) returns (err: Option<Error>)
      requires Valid()
      modifies api, rel
      ensures Valid()
      ensures L.Outcome(api.World(), rel.Now(), err) == L.PerformRelease(api.env, old(api.World()), old(rel.Now()))
    {
      if rel.spec.dryRun { return None; }
      err := RunHooks(rel, rel.name, PRE_INSTALL);
      if err.Some? { return; }
      rel.status := rel.status.(lastDeployedVersion := 1);
      var ok := api.Ask(CreateResources(rel.namespace, rel.spec.manifest, rel.spec.timeout, rel.spec.wait));
      if !ok {
        rel.status := rel.status.(code := FAILED);
        var _ := Publish(rel);
        RecordRelease(rel, false);
        return Some(KubeFailed);
      }
      err := RunHooks(rel, rel.namespace, POST_INSTALL);
      if err.Some? {
        rel.status := rel.status.(code := FAILED);
        err := Publish(rel);
        RecordRelease(rel, false);
        return;
      }
      rel.status := rel.status.(code := DEPLOYED);
      var _ := Publish(rel);
      RecordRelease(rel, false);
      err := None;
    }

    method InstallRelease(rel: Release) returns (err: Option<Error>, ghost rendering: L.Rendering)
      requires Valid()
      modifies api, rel
      ensures Valid()
      ensures L.Outcome(api.World(), rel.Now(), err)
              == L.InstallRelease(api.env, old(api.World()), old(rel.Now()), rendering)
      ensures ReadForInstall(api.env, old(api.World()), old(rel.Now()), rendering)
    {
      err, rendering := PrepareRelease(rel);
      if err.Some? { return; }
      err := PerformRelease(rel);
    }

    // ---------- uninstall ----------

    method PurgeReleases(rels: seq<Snapshot>) returns (err: Option<Error>)
      requires Valid()
      modifies api
      ensures Valid()
      ensures (api.World(), err) == L.Purge(old(api.World()), rels)
    {
      hide Cluster.Valid;
      var i := 0;
      while i < |rels|
        invariant Valid() && 0 <= i <= |rels|
        invariant L.Purge(old(api.World()), rels) == L.Purge(api.World(), rels[i..])
      {
        assert rels[i..] == [rels[i]] + rels[i + 1..];
        var r := releases.Delete(rels[i].name, rels[i].spec.version);
        if r.Err? { return Some(r.error); }
        i := i + 1;
      }
      err := None;
    }

    method DeleteManifests(ns: string, filesToDelete: seq<Manifest>) returns (es: seq<Call>)
      requires Valid()
      modifies api
      ensures Valid()
      ensures var d := L.DeleteAll(api.env, old(api.World()), ns, filesToDelete);
              api.World() == d.world && |es| == d.errors
    {
      es := [];
      for i := 0 to |filesToDelete|
        invariant Valid()
        invariant var d := L.DeleteAll(api.env, old(api.World()), ns, filesToDelete[..i]);
                  api.World() == d.world && |es| == d.errors
      {
        assert filesToDelete[..i + 1][..i] == filesToDelete[..i];
        var call := DeleteResources(ns, filesToDelete[i].content);
        var ok := api.Ask(call);
        if !ok { es := es + [call]; }
      }
      assert filesToDelete[..|filesToDelete|] == filesToDelete;
    }

    /** Splits, classifies and orders the recorded manifest for uninstalling. */
    method ListManifests(ghost groups: Groups, manifest: string, vs: set<string>)
        returns (r: Result<seq<Manifest>, Error>)
      requires Serves(groups, vs)
      ensures ListingOf(api.env, groups, manifest, r)
    {
      hide Classified, Ordered, NamesPieces, Split, Place, Serves;
      var manifests := SplitManifests(manifest);
      var sorted := SortManifests(api.env.head, manifests, vs, UNINSTALL_ORDER);
      if sorted.Err? { return Err(sorted.error); }
      r := Ok(sorted.value.1);
    }

    method UninstallNewest(rel: Release) returns (err: Option<Error>, ghost listing: Result<seq<Manifest>, Error>)
      requires Valid()
      modifies api, rel
      ensures Valid()
      ensures L.Outcome(api.World(), rel.Now(), err)
              == L.UninstallNewest(api.env, old(api.World()), old(rel.Now()), listing)
      ensures ReadForUninstall(api.env, old(api.World()), old(rel.Now()), listing)
    {
      hide Cluster.Valid, ListingOf, L.RunHooks, L.DeleteAll, Select;
      listing := Err(CorruptedRecord);
      rel.status := rel.status.(code := DELETING);
      err := RunHooks(rel, rel.namespace, PRE_DELETE);
      if err.Some? { return; }
      ghost var groups := api.env.groups(api.log);
      var vs := GetVersionSet();
      if vs.Err? { return Some(DiscoveryFailed), listing; }
      RecordRelease(rel, true);
      var files := ListManifests(groups, rel.spec.manifest, vs.value);
      listing := files;
      if files.Err? { return Some(CorruptedRecord), listing; }
      var _, filesToDelete := FilterManifestsToKeep(files.value);
      var es := DeleteManifests(rel.namespace, filesToDelete);
      var errors := |es|;
      var post := RunHooks(rel, rel.namespace, POST_DELETE);
      if post.Some? { errors := errors + 1; }
      rel.status := rel.status.(code := DELETED);
      RecordRelease(rel, true);
      err := if errors > 0 then Some(DeletionErrors(errors)) else None;
    }

    /** Works on the newest stored revision; `newest` is that revision as the handler leaves it. */
    method UninstallRelease(rel: Release)
        returns (err: Option<Error>, newest: Release, ghost rels: seq<Snapshot>,
                 ghost listing: Result<seq<Manifest>, Error>)
      requires Valid()
      modifies api
      ensures Valid()
      ensures L.Outcome(api.World(), newest.Now(), err)
              == L.UninstallRelease(api.env, old(api.World()), old(rel.Now()), rels, listing)
      ensures MatchString(old(rel.name)) ==> IsHistory(api.env.namespace, old(api.World().store), old(rel.name), rels)
      ensures MatchString(old(rel.name)) && rels != [] && !rels[|rels| - 1].spec.purge ==>
                ReadForUninstall(api.env, old(api.World()), rels[|rels| - 1], listing)
    {
      hide MatchString, ReadForUninstall, L.UninstallNewest, L.Purge, Coherent, Meaning;
      newest, rels, listing := rel, [], Err(CorruptedRecord);
      if !MatchString(rel.name) { return Some(MissingRelease), newest, rels, listing; }
      var history := releases.SortedHistory(rel.name);
      if history.Err? { return Some(history.error), newest, rels, listing; }
      rels := history.value[..];
      newest := new Release(history.value[history.value.Length - 1]);
      if newest.spec.purge {
        err := PurgeReleases(history.value[..]);
        return;
      }
      err, listing := UninstallNewest(newest);
    }

    // ---------- rollback ----------

    method NewTarget(req: L.RollbackRequest, previous: Release, current: Release) returns (target: Release)
      ensures fresh(target) && target.Now() == L.RollbackTarget(req, previous.Now(), current.Now())
      ensures target.spec.chart == previous.spec.chart && target.spec.config == previous.spec.config
      ensures AsRequested(req, target.spec) && target.status == current.status
    {
      target := new Release(Snapshot(
        previous.typeMeta, previous.name, previous.namespace,
        ReleaseSpec(previous.spec.chart, previous.spec.config, false, previous.spec.manifest, previous.spec.hooks,
                    ToInt32(current.spec.version + 1), false, 0, false, false, false),
        current.status));
      target.spec := target.spec.(dryRun := req.dryRun);
      target.spec := target.spec.(disableHooks := req.disableHooks);
      target.spec := target.spec.(timeout := req.timeout);
    }

    method PrepareRollback(req: L.RollbackRequest) returns (r: Result<Release, Error>, ghost rels: seq<Snapshot>)
      requires Valid()
      ensures var p := L.PrepareRollback(api.env, api.World().store, req, rels);
              match r
              case Err(e) => p == Err(e)
              case Ok(target) => fresh(target) && p == Ok(target.Now()) && AsRequested(req, target.spec)
      ensures L.CheckRollback(req).None? ==> IsHistory(api.env.namespace, api.World().store, L.RollbackName(req), rels)
    {
      hide MatchString, IsHistory, RequestedVersion, SpelledName, GetReleaseNameFromReleaseVersion, L.RollbackTarget,
           Coherent, Meaning;
      rels := [];
      var name, version := L.RollbackName(req), RequestedVersion(req.key);
      if !MatchString(name) { return Err(MissingRelease), rels; }
      if version < 0 { return Err(InvalidRevision), rels; }
      var crls;
      crls, rels := releases.Last(name);
      if crls.Err? { return Err(crls.error), rels; }
      var current := crls.value;
      var rbv := version;
      if version == 0 { rbv := ToInt32(current.spec.version - 1); }
      var prls := releases.Get(name, rbv);
      if prls.Err? { return Err(prls.error), rels; }
      var previous := prls.value;
      var target := NewTarget(req, previous, current);
      r := Ok(target);
    }

    method RollbackRelease(req: L.RollbackRequest) returns (err: Option<Error>, ghost rels: seq<Snapshot>)
      requires Valid()
      modifies api
      ensures Valid()
      ensures (api.World(), err) == L.RollbackRelease(api.env, old(api.World()), req, rels)
      ensures L.CheckRollback(req).None? ==>
              IsHistory(api.env.namespace, old(api.World().store), L.RollbackName(req), rels)
    {
      hide MatchString, IsHistory, RequestedVersion, GetReleaseNameFromReleaseVersion, L.PrepareRollback;
      var prepared;
      prepared, rels := PrepareRollback(req);
      if prepared.Err? { return Some(prepared.error), rels; }
      var target := prepared.value;
      var live := api.env.fetch(api.log);
      api.log := api.log + [Asked(FetchRelease(target.name), live.Some?)];
      if live.None? { return Some(ObjectNotFound), rels; }
      target.typeMeta := live.value.typeMeta;
      target.name, target.namespace := live.value.name, live.value.namespace;
      err := Publish(target);
    }
  }

  /** Values that are none, empty or an empty mapping give way to any other. */
  predicate TakesOver(own: Config, current: Config, result: Config) {
    var empty := [None, Some(""), Some("{}\n")];
    result == if own in empty && current !in empty then current else own
  }

  /** The switches of a rollback are those of the request, and no others are on. */
  predicate AsRequested(req: L.RollbackRequest, spec: ReleaseSpec) {
    && spec.disableHooks == req.disableHooks && spec.timeout == req.timeout && spec.dryRun == req.dryRun
    && !spec.recreate && !spec.purge && !spec.wait
  }

  function WithHooks(rel: Snapshot, hooks: seq<Hook>): Snapshot {
    rel.(spec := rel.spec.(hooks := hooks))
  }

  /** A hook run picked up in the middle. */
  ghost function Resume(done: seq<Hook>, rest: L.HookRun): L.HookRun {
    L.HookRun(rest.world, done + rest.hooks, rest.ok)
  }

  /** One turn of the hook loop. */
  lemma HookStep(env: Env, w: World, hs: seq<Hook>, i: nat, ns: string, event: HookEvent, timeout: int)
    requires i < |hs|
    ensures var turn := if event in hs[i].events then L.RunHook(env, w, hs[i], ns, timeout)
                        else L.HookTurn(w, hs[i], true);
            Resume(hs[..i], L.ExecHook(env, w, hs[i..], ns, event, timeout)) ==
              if !turn.ok then L.HookRun(turn.world, hs, false)
              else Resume(hs[..i] + [turn.hook], L.ExecHook(env, turn.world, hs[i + 1..], ns, event, timeout))
  {
    hide L.RunHook;
    var h, rest := hs[i], hs[i..];
    assert rest[0] == h && rest[1..] == hs[i + 1..];
    assert hs[..i] + rest == hs;
    var turn := if event in h.events then L.RunHook(env, w, h, ns, timeout) else L.HookTurn(w, h, true);
    var r := L.ExecHook(env, turn.world, rest[1..], ns, event, timeout);
    assert hs[..i] + ([turn.hook] + r.hooks) == hs[..i] + [turn.hook] + r.hooks;
  }

  lemma WholeRun(run: L.HookRun)
    ensures Resume([], run) == run
  {
    assert [] + run.hooks == run.hooks;
  }

  lemma NoHooksLeft(env: Env, w: World, done: seq<Hook>, ns: string, event: HookEvent, timeout: int)
    ensures Resume(done, L.ExecHook(env, w, [], ns, event, timeout)) == L.HookRun(w, done, true)
  {
    assert done + [] == done;
  }

  /** What an update reads: the release's history, and a rendering of its chart for the next revision. */
  ghost predicate ReadForUpdate(env: Env, w: World, rel: Snapshot, rels: seq<Snapshot>, rendering: L.Rendering) {
    MatchString(rel.name) && rel.spec.chart.Some? ==>
      && IsHistory(env.namespace, w.store, rel.name, rels)
      && (rels != [] ==>
            var current := LastOf(rels);
            var config := L.DefaultConfig(L.ReuseValues(rel, current)).spec.config.value;
            var options := Options(rel.name, current.namespace, L.NextVersion(current), true);
            RenderingOf(env, w, rel.spec.chart.value, config, options, rendering))
  }

  ghost predicate ReadForInstall(env: Env, w: World, rel: Snapshot, rendering: L.Rendering) {
    rel.spec.chart.Some? && rel.spec.chart.value.templates != [] ==>
      RenderingOf(env, w, rel.spec.chart.value, L.DefaultConfig(rel).spec.config.value,
                  Options(rel.name, rel.namespace, 1, false), rendering)
  }

  /** What an uninstall reads once its pre-delete hooks succeeded and discovery answered. */
  ghost predicate ReadForUninstall(env: Env, w: World, newest: Snapshot, listing: Result<seq<Manifest>, Error>) {
    var pre := L.RunHooks(env, w, newest.WithCode(DELETING), newest.namespace, PRE_DELETE);
    var groups := env.groups(pre.world.log);
    pre.err.None? && groups != Unreachable ==> ListingOf(env, groups, newest.spec.manifest, listing)
  }

  lemma NotesSpelledOut(chart: string)
    ensures chart + "/templates/" + NOTES_FILE_SUFFIX == chart + "/templates/NOTES.txt"
    ensures forall n: string :: HasSuffix(n, NOTES_FILE_SUFFIX) <==> |n| >= 9 && n[|n| - 9..] == "NOTES.txt"
  {
    assert "/templates/" + "NOTES.txt" == "/templates/NOTES.txt";
  }

  lemma OwnNotesAreNotes(chart: Chart)
    ensures HasSuffix(chart.name + "/templates/" + NOTES_FILE_SUFFIX, NOTES_FILE_SUFFIX)
  {
  }
}
