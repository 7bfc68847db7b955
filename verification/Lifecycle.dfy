/**
  What each handler does, as a function of the world, the release it was called with, the history it
  read and the oracles' answers. The ReleaseServer methods are proved equal to these functions.
*/
module Lifecycle {
  import opened Wrappers
  import opened ReleaseKey
  import opened ReleaseName
  import opened Hapi
  import opened Worlds
  import opened KindSorter
  import opened ManifestBlob

  /** The world a handler leaves, the release it was called with as it leaves it, and its error. */
  datatype Outcome = Outcome(world: World, rel: Snapshot, err: Option<Error>)

  datatype Rendered = Rendered(hooks: seq<Hook>, manifest: string, notes: string)

  /** A rendering and the calls made for it. */
  datatype Rendering = Rendering(calls: seq<Action>, result: Result<Rendered, Error>)

  // ---------- hooks ----------

  datatype HookRun = HookRun(world: World, hooks: seq<Hook>, ok: bool)

  datatype HookTurn = HookTurn(world: World, hook: Hook, ok: bool)

  /** One hook: create its resources, wait for them, stamp it. */
  function RunHook(env: Env, w: World, h: Hook, ns: string, timeout: int): HookTurn {
    var create := CreateResources(ns, h.manifest, timeout, false);
    var w1 := env.Ask(w, create);
    if !env.answer(w.log, create) then HookTurn(w1, h, false)
    else
      var watch := WatchUntilReady(ns, h.manifest, timeout);
      var w2 := env.Ask(w1, watch);
      if !env.answer(w1.log, watch) then HookTurn(w2, h, false)
      else HookTurn(w2, h.(lastRun := Some(env.clock(w2.log, 0))), true)
  }

  /** Runs the hooks carrying an event, in order, up to the first failure. */
  function ExecHook(env: Env, w: World, hs: seq<Hook>, ns: string, event: HookEvent, timeout: int): HookRun
    decreases |hs|
  {
    if hs == [] then HookRun(w, [], true)
    else
      var turn := if event in hs[0].events then RunHook(env, w, hs[0], ns, timeout) else HookTurn(w, hs[0], true);
      if !turn.ok then HookRun(turn.world, hs, false)
      else
        var r := ExecHook(env, turn.world, hs[1..], ns, event, timeout);
        HookRun(r.world, [turn.hook] + r.hooks, r.ok)
  }

  /** The guarded call: nothing happens when the release disables hooks. */
  function RunHooks(env: Env, w: World, rel: Snapshot, ns: string, event: HookEvent): Outcome {
    if rel.spec.disableHooks then Outcome(w, rel, None)
    else
      var r := ExecHook(env, w, rel.spec.hooks, ns, event, rel.spec.timeout);
      Outcome(r.world, rel.(spec := rel.spec.(hooks := r.hooks)), if r.ok then None else Some(HookFailed))
  }

  // ---------- update ----------

  predicate IsEmptyConfig(config: Config) {
    config.None? || config.value == "" || config.value == "{}\n"
  }

  function ReuseValues(rel: Snapshot, current: Snapshot): Snapshot {
    if IsEmptyConfig(rel.spec.config) && !IsEmptyConfig(current.spec.config) then
      rel.(spec := rel.spec.(config := current.spec.config))
    else rel
  }

  function DefaultConfig(rel: Snapshot): Snapshot {
    if rel.spec.config.None? then rel.(spec := rel.spec.(config := Some(""))) else rel
  }

  function WithNotes(status: ReleaseStatus, notes: string): ReleaseStatus {
    if |notes| > 0 then status.(notes := notes) else status
  }

  function NextVersion(current: Snapshot): int32 {
    ToInt32(current.spec.version + 1)
  }

  function Revised(env: Env, w: World, rel: Snapshot, current: Snapshot, r: Rendered): Snapshot {
    rel.(spec := rel.spec.(hooks := r.hooks, version := NextVersion(current), manifest := r.manifest),
         status := WithNotes(rel.status.(firstDeployed := current.status.firstDeployed,
                                         lastDeployed := env.clock(w.log, 0),
                                         lastDeployedVersion := NextVersion(current)), r.notes))
  }

  function PrepareUpdate(env: Env, w: World, rel: Snapshot, rels: seq<Snapshot>, rendering: Rendering): Outcome {
    if !MatchString(rel.name) then Outcome(w, rel, Some(MissingRelease))
    else if rel.spec.chart.None? then Outcome(w, rel, Some(MissingChart))
    else if rels == [] then Outcome(w, rel, Some(ReleaseNotFound))
    else
      var current := LastOf(rels);
      var rel1 := DefaultConfig(ReuseValues(rel, current));
      var w1 := World(w.store, w.log + rendering.calls);
      match rendering.result
      case Err(e) => Outcome(w1, rel1, Some(e))
      case Ok(r) =>
        var rel2 := Revised(env, w1, rel1, current, r);
        var build := BuildResources(current.namespace, rel2.spec.manifest);
        Outcome(env.Ask(w1, build), rel2, if env.answer(w1.log, build) then None else Some(ValidationFailed))
  }

  function KubeUpdate(current: Snapshot, rel: Snapshot): Call {
    UpdateResources(rel.namespace, current.spec.manifest, rel.spec.manifest, rel.spec.recreate, rel.spec.timeout,
                    rel.spec.wait)
  }

  function PublishError(env: Env, w: World, rel: Snapshot): Option<Error> {
    if env.answer(w.log, Publish(rel)) then None else Some(PublishFailed)
  }

  /** What follows a failed Kubernetes update: its error is overwritten by that of the status write. */
  function FailUpdate(env: Env, w: World, current: Snapshot, rel: Snapshot): Outcome {
    var failed := rel.WithCode(FAILED);
    var w1 := env.Ask(w, Publish(failed));
    Outcome(w1.Do(Put(current.WithCode(SUPERSEDED))).Do(Create(failed)), failed, PublishError(env, w, failed))
  }

  /** A failed post-upgrade hook leaves no trace in the archive. */
  function FinishUpdate(env: Env, w: World, current: Snapshot, rel: Snapshot): Outcome {
    var post := RunHooks(env, w, rel, rel.namespace, POST_UPGRADE);
    if post.err.Some? then post
    else
      var w1 := post.world.Do(Put(current.WithCode(SUPERSEDED)));
      var deployed := post.rel.WithCode(DEPLOYED);
      Outcome(env.Ask(w1, Publish(deployed)), deployed, PublishError(env, w1, deployed))
  }

  function PerformUpdate(env: Env, w: World, current: Snapshot, rel: Snapshot): Outcome {
    if rel.spec.dryRun then Outcome(w, rel, None)
    else
      var pre := RunHooks(env, w, rel, rel.namespace, PRE_UPGRADE);
      if pre.err.Some? then pre
      else
        var update := KubeUpdate(current, pre.rel);
        var w1 := env.Ask(pre.world, update);
        if !env.answer(pre.world.log, update) then
          FailUpdate(env, w1, current, pre.rel)
        else
          FinishUpdate(env, w1, current, pre.rel)
  }

  function UpdateRelease(env: Env, w: World, rel: Snapshot, rels: seq<Snapshot>, rendering: Rendering): Outcome {
    var prepared := PrepareUpdate(env, w, rel, rels, rendering);
    if prepared.err.Some? then prepared
    else
      var done := PerformUpdate(env, prepared.world, LastOf(rels), prepared.rel);
      if done.err.Some? || done.rel.spec.dryRun then done
      else
        Outcome(done.world.Do(Create(done.rel)), done.rel,
                if IdOf(done.rel) in done.world.store then Some(ReleaseExists) else None)
  }

  // ---------- install ----------

  function Fresh(env: Env, w: World, rel: Snapshot, r: Rendered): Snapshot {
    rel.(spec := rel.spec.(hooks := r.hooks, manifest := r.manifest, version := 1),
         status := WithNotes(rel.status.(firstDeployed := env.clock(w.log, 0),
                                         lastDeployed := env.clock(w.log, 1),
                                         code := UNKNOWN), r.notes))
  }

  function PrepareRelease(env: Env, w: World, rel: Snapshot, rendering: Rendering): Outcome {
    if rel.spec.chart.None? || rel.spec.chart.value.templates == [] then Outcome(w, rel, Some(MissingChart))
    else
      var rel1 := DefaultConfig(rel);
      var w1 := World(w.store, w.log + rendering.calls);
      match rendering.result
      case Err(e) => Outcome(w1, rel1, Some(e))
      case Ok(r) =>
        var rel2 := Fresh(env, w1, rel1, r);
        var build := BuildResources(rel2.namespace, rel2.spec.manifest);
        Outcome(env.Ask(w1, build), rel2, if env.answer(w1.log, build) then None else Some(ValidationFailed))
  }

  /** The status write and the record that end every install that reached Kubernetes. */
  function Conclude(env: Env, w: World, rel: Snapshot, err: Option<Error>): Outcome {
    Outcome(env.Ask(w, Publish(rel)).Do(Create(rel)), rel, err)
  }

  /** A failed post-install hook is reported only when the status write fails too. */
  function FinishRelease(env: Env, w: World, rel: Snapshot): Outcome {
    var post := RunHooks(env, w, rel, rel.namespace, POST_INSTALL);
    if post.err.Some? then
      var failed := post.rel.WithCode(FAILED);
      Conclude(env, post.world, failed, PublishError(env, post.world, failed))
    else
      Conclude(env, post.world, post.rel.WithCode(DEPLOYED), None)
  }

  function PerformRelease(env: Env, w: World, rel: Snapshot): Outcome {
    if rel.spec.dryRun then Outcome(w, rel, None)
    else
      var pre := RunHooks(env, w, rel, rel.name, PRE_INSTALL);
      if pre.err.Some? then pre
      else
        var rel1 := pre.rel.(status := pre.rel.status.(lastDeployedVersion := 1));
        var create := CreateResources(rel1.namespace, rel1.spec.manifest, rel1.spec.timeout, rel1.spec.wait);
        var w1 := env.Ask(pre.world, create);
        if !env.answer(pre.world.log, create) then
          Conclude(env, w1, rel1.WithCode(FAILED), Some(KubeFailed))
        else
          FinishRelease(env, w1, rel1)
  }

  function InstallRelease(env: Env, w: World, rel: Snapshot, rendering: Rendering): Outcome {
    var prepared := PrepareRelease(env, w, rel, rendering);
    if prepared.err.Some? then prepared else PerformRelease(env, prepared.world, prepared.rel)
  }

  // ---------- uninstall ----------

  datatype Deletions = Deletions(world: World, errors: nat)

  /** One delete call per manifest, whatever the earlier ones answered. */
  function DeleteAll(env: Env, w: World, ns: string, files: seq<Manifest>): Deletions {
    if files == [] then Deletions(w, 0)
    else
      var d := DeleteAll(env, w, ns, files[..|files| - 1]);
      var call := DeleteResources(ns, files[|files| - 1].content);
      Deletions(env.Ask(d.world, call), d.errors + if env.answer(d.world.log, call) then 0 else 1)
  }

  /** Removes revisions oldest first, up to the first one that is missing. */
  function Purge(w: World, rels: seq<Snapshot>): (World, Option<Error>)
    decreases |rels|
  {
    if rels == [] then (w, None)
    else
      var remove := Remove(rels[0].name, rels[0].spec.version);
      if Succeeds(w.store, remove) then Purge(w.Do(remove), rels[1..])
      else (w, Some(ReleaseNotFound))
  }

  /** `listing` is what classifying and sorting the pieces of the recorded manifest yielded. */
  function UninstallNewest(env: Env, w: World, newest: Snapshot, listing: Result<seq<Manifest>, Error>): Outcome {
    var deleting := newest.WithCode(DELETING);
    var pre := RunHooks(env, w, deleting, deleting.namespace, PRE_DELETE);
    if pre.err.Some? then pre
    else
      var reachable := env.groups(pre.world.log) != Unreachable;
      var w1 := pre.world.Do(Asked(Discover, reachable));
      if !reachable then Outcome(w1, pre.rel, Some(DiscoveryFailed))
      else
        var w2 := w1.Do(Put(pre.rel));
        if listing.Err? then Outcome(w2, pre.rel, Some(CorruptedRecord))
        else
          var d := DeleteAll(env, w2, pre.rel.namespace, Select(listing.value, Unannotated));
          var post := RunHooks(env, d.world, pre.rel, pre.rel.namespace, POST_DELETE);
          var deleted := post.rel.WithCode(DELETED);
          var errors := d.errors + if post.err.Some? then 1 else 0;
          Outcome(post.world.Do(Put(deleted)), deleted, if errors > 0 then Some(DeletionErrors(errors)) else None)
  }

  function UninstallRelease(env: Env, w: World, rel: Snapshot, rels: seq<Snapshot>,
                            listing: Result<seq<Manifest>, Error>): Outcome {
    if !MatchString(rel.name) then Outcome(w, rel, Some(MissingRelease))
    else if rels == [] then Outcome(w, rel, Some(ReleaseNotFound))
    else
      var newest := rels[|rels| - 1];
      if newest.spec.purge then
        var (w1, err) := Purge(w, rels);
        Outcome(w1, newest, err)
      else UninstallNewest(env, w, newest, listing)
  }

  // ---------- rollback ----------

  datatype RollbackRequest = RollbackRequest(key: string, dryRun: bool, disableHooks: bool, timeout: int)

  /** The revision asked for: version 0 means the one before the newest. */
  function TargetVersion(requested: int32, newest: int32): int32 {
    if requested == 0 then ToInt32(newest - 1) else requested
  }

  /** Everything of the target but Chart, Config, Manifest and Hooks is new, or the newest revision's. */
  function RollbackTarget(req: RollbackRequest, previous: Snapshot, current: Snapshot): Snapshot {
    Snapshot(
      previous.typeMeta, previous.name, previous.namespace,
      ReleaseSpec(previous.spec.chart, previous.spec.config, req.disableHooks, previous.spec.manifest,
                  previous.spec.hooks, NextVersion(current), false, req.timeout, false, req.dryRun, false),
      current.status)
  }

  function RollbackName(req: RollbackRequest): string {
    GetReleaseNameFromReleaseVersion(req.key)
  }

  function CheckRollback(req: RollbackRequest): Option<Error> {
    if !MatchString(RollbackName(req)) then Some(MissingRelease)
    else if RequestedVersion(req.key) < 0 then Some(InvalidRevision)
    else None
  }

  /** What Storage.Get hands out: the stored spec under the stored name, without a status. */
  function Stored(ns: string, store: Store, id: Id): Snapshot
    requires id in store
  {
    Decode(ns, id, store[id]).(typeMeta := RELEASE_TYPE, status := EMPTY_STATUS)
  }

  function PrepareRollback(env: Env, store: Store, req: RollbackRequest, rels: seq<Snapshot>): Result<Snapshot, Error> {
    var refused := CheckRollback(req);
    if refused.Some? then Err(refused.value)
    else if rels == [] then Err(ReleaseNotFound)
    else
      var current := LastOf(rels);
      var id := Id(RollbackName(req), TargetVersion(RequestedVersion(req.key), current.spec.version));
      if id !in store then Err(ReleaseNotFound)
      else Ok(RollbackTarget(req, Stored(env.namespace, store, id), current))
  }

  /** The target takes over the identity of the live object before it is written. */
  function Adopt(target: Snapshot, live: Snapshot): Snapshot {
    target.(typeMeta := live.typeMeta, name := live.name, namespace := live.namespace)
  }

  function PerformRollback(env: Env, w: World, target: Snapshot): Outcome {
    var live := env.fetch(w.log);
    var w1 := w.Do(Asked(FetchRelease(target.name), live.Some?));
    if live.None? then Outcome(w1, target, Some(ObjectNotFound))
    else
      var adopted := Adopt(target, live.value);
      Outcome(env.Ask(w1, Publish(adopted)), adopted, PublishError(env, w1, adopted))
  }

  function RollbackRelease(env: Env, w: World, req: RollbackRequest, rels: seq<Snapshot>): (World, Option<Error>) {
    match PrepareRollback(env, w.store, req, rels)
    case Err(e) => (w, Some(e))
    case Ok(target) =>
      var o := PerformRollback(env, w, target);
      (o.world, o.err)
  }

  // ---------- dispatch ----------

  /** UpdateFunc: a changed status is an echo; otherwise any change is an update. */
  predicate TriggersUpdate(before: Snapshot, after: Snapshot) {
    before.status == after.status && before != after
  }
}
