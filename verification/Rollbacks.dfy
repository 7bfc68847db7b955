/**
  Rolling back: the request picks a revision and rewrites the Release object; the update that follows
  appends a new revision made from the picked one's chart and values.
*/
module Rollbacks {
  import opened Wrappers
  import opened GoStrings
  import opened ReleaseKey
  import opened ReleaseName
  import opened Hapi
  import opened Worlds
  import opened Lifecycle
  import opened HookLaws
  import opened HandlerLaws
  import opened History
  import opened Outcomes
  import opened Renderings
  import opened Requests

  // ---------- which revision a request picks ----------

  /** The revision to go back to: the one asked for, or the one before the newest. */
  function Picked(req: RollbackRequest, n: int): int {
    if RequestedVersion(req.key) == 0 then n - 1 else RequestedVersion(req.key)
  }

  /**
    With revisions 1..n archived, a request is accepted exactly when its name is valid and the revision
    it picks is among them; the target is made of that revision, and every refusal has its own error.
  */
  lemma RollbackPicks(env: Env, store: Store, req: RollbackRequest, rels: seq<Snapshot>, bound: int, n: int)
    requires IsHistory(env.namespace, store, RollbackName(req), rels) && WellKeyed(store, bound)
    requires Interval(store, RollbackName(req), 1, n)
    ensures var prepared, r := PrepareRollback(env, store, req, rels), Picked(req, n);
            && (prepared.Ok? <==> MatchString(RollbackName(req)) && 1 <= r <= n)
            && (prepared.Ok? ==>
                  && rels != [] && Id(RollbackName(req), r) in store
                  && IsTarget(req, store[Id(RollbackName(req), r)], store[Id(RollbackName(req), n)], prepared.value))
            && (prepared.Err? ==>
                  prepared.error == if !MatchString(RollbackName(req)) then MissingRelease
                                    else if RequestedVersion(req.key) < 0 then InvalidRevision else ReleaseNotFound)
  {
    hide MatchString, RollbackName, RequestedVersion, IsHistory, RollbackTarget, Stored, IsTarget;
    HistoryEnds(env.namespace, store, RollbackName(req), rels, bound, 1, n);
    if rels != [] { NewestOf(env.namespace, store, RollbackName(req), rels, bound); }
    var r := Picked(req, n);
    if 1 <= r <= n {
      TargetIs(env.namespace, store, Id(RollbackName(req), r), req, LastOf(rels));
    }
    hide WellKeyed;
  }

  /**
    The target of a rollback: what the picked revision deploys, with the switches of the request and no others,
    and the status recorded of the newest revision.
  */
  predicate IsTarget(req: RollbackRequest, picked: Record, newest: Record, target: Snapshot) {
    && target.name == RollbackName(req)
    && target.spec.chart == picked.spec.chart && target.spec.config == picked.spec.config
    && target.spec.manifest == picked.spec.manifest && target.spec.hooks == picked.spec.hooks
    && target.spec.disableHooks == req.disableHooks && target.spec.timeout == req.timeout
    && target.spec.dryRun == req.dryRun
    && !target.spec.recreate && !target.spec.purge && !target.spec.wait
    && target.status == ReleaseStatus(newest.status.code, newest.status.details, newest.status.notes,
                                      newest.status.version, newest.status.deployed, 0)
  }

  lemma TargetIs(ns: string, store: Store, id: Id, req: RollbackRequest, current: Snapshot)
    requires id in store && id.version >= 0 && id.name == RollbackName(req)
    requires IdOf(current) in store && store[IdOf(current)] == RecordOf(current)
    requires current.status.firstDeployed == ZERO_TIME
    ensures IsTarget(req, store[id], store[IdOf(current)], RollbackTarget(req, Stored(ns, store, id), current))
  {
    hide RollbackName;
  }

  /** The key of a revision picks that revision; the key of version 0 picks the one before the newest. */
  lemma KeyPicks(req: RollbackRequest, name: string, version: int32, n: int)
    requires version >= 0 && req.key == MakeKey(name, version)
    ensures RollbackName(req) == name && Picked(req, n) == if version == 0 then n - 1 else version
  {
    hide MakeKey, GetReleaseNameFromReleaseVersion, RequestedVersion;
    NameRoundTrip(name, version);
    VersionRoundTrip(name, version);
  }

  /** A suffix that is no number picks the revision before the newest, too. */
  lemma OtherSuffixPicksPrevious(req: RollbackRequest, name: string, suffix: string, n: int)
    requires req.key == name + "-" + suffix && '-' !in suffix
    requires var t := TrimPrefix(suffix, "v");
             var body := if t != "" && t[0] == '+' then t[1..] else t;
             body == "" || !AllDigits(body)
    ensures RollbackName(req) == name && Picked(req, n) == n - 1
  {
    NonNumericSuffix(name, suffix);
  }

  // ---------- what a rollback does ----------

  /** The live object with the target's spec and status. */
  function Rewritten(live: Snapshot, target: Snapshot): Snapshot {
    live.(spec := target.spec, status := target.status)
  }

  /**
    A rollback never writes the archive. A refused one asks for nothing; any other fetches the object and,
    if there is one, rewrites its spec and status in one write: its error says how far it came.
  */
  lemma RollbackOnlyRewrites(env: Env, w: World, req: RollbackRequest, rels: seq<Snapshot>)
    ensures var (after, err) := RollbackRelease(env, w, req, rels);
            var prepared, live := PrepareRollback(env, w.store, req, rels), env.fetch(w.log);
            && after.store == w.store
            && (prepared.Err? ==> after.log == w.log && err == Some(prepared.error))
            && (prepared.Ok? && live.None? ==>
                  && after.log == w.log + [Asked(FetchRelease(prepared.value.name), false)]
                  && err == Some(ObjectNotFound))
            && (prepared.Ok? && live.Some? ==>
                  exists ok ::
                    && after.log == w.log + [Asked(FetchRelease(prepared.value.name), true),
                                             Asked(Publish(Rewritten(live.value, prepared.value)), ok)]
                    && err == if ok then None else Some(PublishFailed))
  {
    hide PrepareRollback;
    var prepared, live := PrepareRollback(env, w.store, req, rels), env.fetch(w.log);
    if prepared.Ok? && live.Some? {
      var fetched := Asked(FetchRelease(prepared.value.name), true);
      var adopted := Adopt(prepared.value, live.value);
      assert adopted == Rewritten(live.value, prepared.value);
      var published := Asked(Publish(adopted), env.answer(w.log + [fetched], Publish(adopted)));
      assert w.log + [fetched] + [published] == w.log + [fetched, published];
    }
  }

  /**
    What the one write of a rollback carries: the identity of the live object, what the picked revision deploys,
    the switches of the request and the status of the newest revision. A refused rollback writes nothing.
  */
  lemma RollbackPublishes(env: Env, w: World, req: RollbackRequest, rels: seq<Snapshot>, bound: int, n: int32)
    requires IsHistory(env.namespace, w.store, RollbackName(req), rels) && WellKeyed(w.store, bound)
    requires Interval(w.store, RollbackName(req), 1, n)
    ensures var (after, err) := RollbackRelease(env, w, req, rels);
            && w.log <= after.log
            && forall k :: |w.log| <= k < |after.log| && after.log[k].Asked? && after.log[k].call.Publish? ==>
                 var sent, r := after.log[k].call.rel, Picked(req, n);
                 && env.fetch(w.log).Some? && 1 <= r <= n && MatchString(RollbackName(req))
                 && IsTarget(req, w.store[Id(RollbackName(req), r)], w.store[Id(RollbackName(req), n)],
                             sent.(name := RollbackName(req)))
                 && var live := env.fetch(w.log).value;
                    sent.name == live.name && sent.namespace == live.namespace && sent.typeMeta == live.typeMeta
  {
    hide PrepareRollback, MatchString, RollbackName, RequestedVersion, IsHistory, WellKeyed, IsTarget, RollbackRelease;
    RollbackPicks(env, w.store, req, rels, bound, n);
    RollbackOnlyRewrites(env, w, req, rels);
    var prepared, live := PrepareRollback(env, w.store, req, rels), env.fetch(w.log);
    if prepared.Ok? && live.Some? {
      var target := prepared.value;
      var sent := Rewritten(live.value, target);
      var picked, newest := w.store[Id(RollbackName(req), Picked(req, n))], w.store[Id(RollbackName(req), n)];
      SameTarget(req, picked, newest, target, sent.(name := RollbackName(req)));
    }
  }

  lemma SameTarget(req: RollbackRequest, picked: Record, newest: Record, target: Snapshot, other: Snapshot)
    requires IsTarget(req, picked, newest, target)
    requires other.name == RollbackName(req) && other.spec == target.spec && other.status == target.status
    ensures IsTarget(req, picked, newest, other)
  {
    hide RollbackName;
  }

  // ---------- when the rewritten object is taken for an update ----------

  /** The write is taken for an update exactly when it changes the spec and not the status. */
  lemma RollbackIsDispatched(req: RollbackRequest, previous: Snapshot, current: Snapshot, live: Snapshot)
    ensures var target := RollbackTarget(req, previous, current);
            TriggersUpdate(live, Adopt(target, live)) <==> live.status == current.status && live.spec != target.spec
  {
    var adopted := Adopt(RollbackTarget(req, previous, current), live);
    assert live == adopted <==> live.spec == adopted.spec && live.status == adopted.status;
  }

  /**
    The archive forgets first deployments. So while the live object's status is otherwise the archived
    one, its rollback is performed only if the object was updated before; right after an install the
    write passes for a change of status, and nothing happens.
  */
  lemma RollbackAfterInstallIsIgnored(env: Env, store: Store, req: RollbackRequest, rels: seq<Snapshot>, bound: int,
                                      previous: Snapshot, live: Snapshot)
    requires IsHistory(env.namespace, store, RollbackName(req), rels) && WellKeyed(store, bound) && rels != []
    requires RecordOf(live).status == store[Id(RollbackName(req), LastOf(rels).spec.version)].status
    ensures var target := RollbackTarget(req, previous, LastOf(rels));
            TriggersUpdate(live, Adopt(target, live))
            <==> live.status.firstDeployed == ZERO_TIME && live.spec != target.spec
  {
    hide RollbackName, TriggersUpdate;
    NewestOf(env.namespace, store, RollbackName(req), rels, bound);
    hide WellKeyed, IsHistory;
    RollbackIsDispatched(req, previous, LastOf(rels), live);
  }

  // ---------- what the update makes of it ----------

  /** Nothing but the newest revision is touched, and it is at most superseded; at most n+1 is new. */
  ghost predicate OnlyAppends(before: Store, after: Store, name: string, n: int32, next: int32) {
    && (forall id :: id in before && id != Id(name, n) ==> id in after && after[id] == before[id])
    && (forall id :: id in after ==> id in before || id == Id(name, next))
    && Id(name, n) in before && Id(name, n) in after
    && var kept := before[Id(name, n)];
       after[Id(name, n)] in {kept, kept.(status := kept.status.(code := SUPERSEDED))}
  }

  /**
    The update after a rollback to revision r, whatever fails: revisions below n stay as they are, n is
    at most superseded, and at most n+1 is added. On success n is superseded and n+1 is deployed, with
    r's chart, and r's values, or n's where r has none; and every hook of the rendering has run unless the
    request disables hooks, in which case none has.
  */
  lemma RollbackAppends(env: Env, store: Store, req: RollbackRequest, rels: seq<Snapshot>, bound: int, n: int,
                        live: Snapshot, env': Env, w: World, rendering: Rendering)
    requires IsHistory(env.namespace, store, RollbackName(req), rels)
    requires IsHistory(env'.namespace, store, RollbackName(req), rels)
    requires WellKeyed(store, bound) && bound < MAX_INT32 && Interval(store, RollbackName(req), 1, n)
    requires PrepareRollback(env, store, req, rels).Ok?
    requires live.name == RollbackName(req)
    requires w.store == store && Plausible(rendering)
    ensures var name, target := RollbackName(req), PrepareRollback(env, store, req, rels).value;
            var o := UpdateRelease(env', w, Adopt(target, live), rels, rendering);
            && 1 <= Picked(req, n) <= n < MAX_INT32
            && OnlyAppends(store, o.world.store, name, n, n + 1)
            && (o.err.None? && !req.dryRun ==>
                  && Id(name, n + 1) in o.world.store
                  && o.world.store[Id(name, n)].status.code == SUPERSEDED
                  && var next, picked := o.world.store[Id(name, n + 1)], store[Id(name, Picked(req, n))];
                  && next.status.code == DEPLOYED && next.spec.version == n + 1 == next.status.version
                  && next.spec.chart == picked.spec.chart
                  && (var empty := [None, Some(""), Some("{}\n")];
                      next.spec.config ==
                        if picked.spec.config !in empty then picked.spec.config
                        else if store[Id(name, n)].spec.config !in empty then store[Id(name, n)].spec.config
                        else if picked.spec.config == None then Some("")
                        else picked.spec.config)
                  && rendering.result.Ok?
                  && (!req.disableHooks ==>
                        RunsAllHooks(Done(w, o), rendering.result.value, live.namespace, req.timeout,
                                     store[Id(name, n)].spec.manifest)))
            && (req.disableHooks ==> forall k :: 0 <= k < |Done(w, o)| ==> !IsHookCall(Done(w, o)[k]))
  {
    hide MatchString, RollbackName, RequestedVersion, PrepareRollback, UpdateRelease, Revises, UpdateRefused, IsHistory,
         WellKeyed, UpdateWrites, Neutral, Done, UpdateCalls, AllOk, UpdateFailedIn;
    RollbackPicks(env, store, req, rels, bound, n);
    var name, target, current := RollbackName(req), PrepareRollback(env, store, req, rels).value, LastOf(rels);
    HistoryEnds(env.namespace, store, name, rels, bound, 1, n);
    NewestOf(env.namespace, store, name, rels, bound);
    var rel := Adopt(target, live);
    var o := UpdateRelease(env', w, rel, rels, rendering);
    var calls, end := UpdateOutcome(env', w, rel, rels, rendering, bound);
    if !end.Refused? {
      CarriesValues(rel, current, rendering.result.value, env'.clock(w.log + rendering.calls, 0), o.rel);
      InheritedMeans(rel.spec.config, current.spec.config);
      AppendsOne(store, current, o.rel);
    }
    hide OnlyAppends, RunsAllHooks, Inherited;
    HooksOfRollback(env', w, rel, rels, rendering, bound, n);
  }

  /** The hooks of an update that neither recreates nor waits, as one after a rollback is. */
  lemma HooksOfRollback(env: Env, w: World, rel: Snapshot, rels: seq<Snapshot>, rendering: Rendering, bound: int,
                        n: int32)
    requires Plausible(rendering) && IsHistory(env.namespace, w.store, rel.name, rels)
    requires WellKeyed(w.store, bound) && bound < MAX_INT32
    requires Id(rel.name, n) in w.store && forall v: int32 :: Id(rel.name, v) in w.store ==> v <= n
    requires !rel.spec.recreate && !rel.spec.wait
    ensures var o := UpdateRelease(env, w, rel, rels, rendering);
            && (o.err.None? && !o.rel.spec.dryRun && !rel.spec.disableHooks ==>
                  && rendering.result.Ok?
                  && RunsAllHooks(Done(w, o), rendering.result.value, rel.namespace, rel.spec.timeout,
                                  w.store[Id(rel.name, n)].spec.manifest))
            && (rel.spec.disableHooks ==> forall k :: 0 <= k < |Done(w, o)| ==> !IsHookCall(Done(w, o)[k]))
  {
    hide UpdateRelease, IsHistory, WellKeyed, Done, Records, UpdateTrace, RunsBefore, RunsAfter, NothingFailed;
    HistoryHolds(env.namespace, w.store, rel.name, rels, n);
    NewestOf(env.namespace, w.store, rel.name, rels, bound);
    var o := UpdateRelease(env, w, rel, rels, rendering);
    UpdateDeploys(env, w, rel, rels, rendering, bound);
    if Records(Done(w, o), DEPLOYED) && !rel.spec.disableHooks {
      forall k | 0 <= k < |rendering.result.value.hooks|
        ensures var r, timeout := rendering.result.value, rel.spec.timeout;
                var update := Asked(UpdateResources(rel.namespace, LastOf(rels).spec.manifest, r.manifest, false,
                                                    timeout, false), true);
                && (PRE_UPGRADE in r.hooks[k].events ==>
                      RunsBefore(Done(w, o), rel.namespace, r.hooks[k].manifest, timeout, update))
                && (POST_UPGRADE in r.hooks[k].events ==>
                      RunsAfter(Done(w, o), rel.namespace, r.hooks[k].manifest, timeout, update))
      {
        UpdateRunsHook(env, rel, LastOf(rels), rendering, Done(w, o), o.rel, k);
      }
    }
    UpdateAsks(env, w, rel, rels, rendering, bound, n);
    if rel.spec.disableHooks { NoHookCalls(env, rel, rels, rendering, o.rel, Done(w, o)); }
  }

  lemma NoHookCalls(env: Env, rel: Snapshot, rels: seq<Snapshot>, rendering: Rendering, out: Snapshot,
                    done: seq<Action>)
    requires rel.spec.disableHooks && rels != []
    requires rendering.result.Ok? ==>
               AllMayUpdate(env, rel, LastOf(rels).spec.manifest, rendering.result.value, out, done)
    requires rendering.result.Err? ==> forall k :: 0 <= k < |done| ==> done[k].Asked? && done[k].call.Discover?
    ensures forall k :: 0 <= k < |done| ==> !IsHookCall(done[k])
  {
    if rendering.result.Ok? {
      forall k | 0 <= k < |done| ensures !IsHookCall(done[k]) {
        assert MayUpdate(env, rel, LastOf(rels).spec.manifest, rendering.result.value, out, done[k]);
      }
    }
  }

  lemma CarriesValues(rel: Snapshot, current: Snapshot, r: Rendered, now: Time, out: Snapshot)
    requires Revises(rel, current, r, now, out)
    ensures out.spec.chart == rel.spec.chart
    ensures out.spec.config == Inherited(rel.spec.config, current.spec.config)
    ensures out.spec.version == NextVersion(current) == out.status.lastDeployedVersion
  {
    InheritedIs(rel, current);
    hide DefaultConfig, ReuseValues, Inherited;
  }

  predicate IsHookCall(a: Action) {
    a.Asked? && (a.call.CreateResources? || a.call.WatchUntilReady?)
  }

  /** All hooks of the two events ran around the Kubernetes update from one manifest to the other. */
  ghost predicate RunsAllHooks(done: seq<Action>, r: Rendered, ns: string, timeout: int, prior: string) {
    var update := Asked(UpdateResources(ns, prior, r.manifest, false, timeout, false), true);
    forall k :: 0 <= k < |r.hooks| ==>
      && (PRE_UPGRADE in r.hooks[k].events ==> RunsBefore(done, ns, r.hooks[k].manifest, timeout, update))
      && (POST_UPGRADE in r.hooks[k].events ==> RunsAfter(done, ns, r.hooks[k].manifest, timeout, update))
  }

  lemma AppendsOne(store: Store, current: Snapshot, rel: Snapshot)
    requires IdOf(current) in store && store[IdOf(current)] == RecordOf(current) && current.spec.version < MAX_INT32
    requires IdOf(rel) == Id(current.name, current.spec.version + 1) && IdOf(rel) !in store
    ensures OnlyAppends(store, Superseded(store, current), current.name, current.spec.version, current.spec.version + 1)
    ensures OnlyAppends(store, Superseded(store, current)[IdOf(rel) := RecordOf(rel)],
                        current.name, current.spec.version, current.spec.version + 1)
  {
  }

  /**
    What a rollback wrote as version, manifest and hooks has no influence: an update recomputes them
    from the archive it finds, so a version that became stale in the meantime cannot collide.
  */
  lemma StaleTargetIsHarmless(env: Env, w: World, rel: Snapshot, rels: seq<Snapshot>, rendering: Rendering,
                              version: int32, manifest: string, hooks: seq<Hook>)
    ensures var other := rel.(spec := rel.spec.(version := version, manifest := manifest, hooks := hooks));
            var o, o' := UpdateRelease(env, w, rel, rels, rendering), UpdateRelease(env, w, other, rels, rendering);
            o.world == o'.world && o.err == o'.err
  {
    hide PrepareUpdate, PerformUpdate;
    SamePreparation(env, w, rel, rel.(spec := rel.spec.(version := version, manifest := manifest, hooks := hooks)),
                    rels, rendering);
  }

  /** The same release but for what an update recomputes. */
  predicate Alike(rel: Snapshot, other: Snapshot) {
    other == rel.(spec := rel.spec.(version := other.spec.version, manifest := other.spec.manifest,
                                    hooks := other.spec.hooks))
  }

  lemma SamePreparation(env: Env, w: World, rel: Snapshot, other: Snapshot, rels: seq<Snapshot>, rendering: Rendering)
    requires Alike(rel, other)
    ensures var p, p' := PrepareUpdate(env, w, rel, rels, rendering), PrepareUpdate(env, w, other, rels, rendering);
            p.world == p'.world && p.err == p'.err && (p.err.None? ==> p.rel == p'.rel)
  {
    hide MatchString, Revised, ReuseValues, DefaultConfig, IsEmptyConfig;
    if rels != [] && rendering.result.Ok? {
      var current, w1 := LastOf(rels), World(w.store, w.log + rendering.calls);
      SameValues(rel, other, current);
      SameRevision(env, w1, DefaultConfig(ReuseValues(rel, current)), DefaultConfig(ReuseValues(other, current)),
                   current, rendering.result.value);
    }
  }

  lemma SameValues(rel: Snapshot, other: Snapshot, current: Snapshot)
    requires Alike(rel, other)
    ensures Alike(DefaultConfig(ReuseValues(rel, current)), DefaultConfig(ReuseValues(other, current)))
  {
    hide IsEmptyConfig;
    SameReuse(rel, other, current);
    hide ReuseValues;
    var reused, reused' := ReuseValues(rel, current), ReuseValues(other, current);
    assert Alike(reused, reused');
  }

  lemma SameReuse(rel: Snapshot, other: Snapshot, current: Snapshot)
    requires Alike(rel, other)
    ensures Alike(ReuseValues(rel, current), ReuseValues(other, current))
  {
    hide IsEmptyConfig;
  }

  /** The revised release forgets what it replaces. */
  lemma SameRevision(env: Env, w: World, rel: Snapshot, other: Snapshot, current: Snapshot, r: Rendered)
    requires Alike(rel, other)
    ensures Revised(env, w, rel, current, r) == Revised(env, w, other, current, r)
  {
  }
}
