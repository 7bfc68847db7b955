/**
  What a handler's error and the record it leaves say about what happened: a failed Kubernetes update
  is always reported, and DEPLOYED is recorded only for a run in which nothing failed.
*/
module Outcomes {
  import opened Wrappers
  import opened ReleaseKey
  import opened ReleaseName
  import opened Hapi
  import opened Worlds
  import opened Lifecycle
  import opened HookLaws
  import opened HandlerLaws
  import opened History

  /** Everything asked for was answered well. */
  predicate NothingFailed(actions: seq<Action>) {
    forall k :: 0 <= k < |actions| && actions[k].Asked? ==> actions[k].ok
  }

  /** A release is recorded with some code. */
  ghost predicate Records(actions: seq<Action>, code: Code) {
    exists k :: 0 <= k < |actions| && actions[k].Create? && actions[k].rel.status.code == code
  }

  /** The archive with the newest revision superseded. */
  function Superseded(store: Store, current: Snapshot): Store {
    store[IdOf(current) := RecordOf(current.WithCode(SUPERSEDED))]
  }

  // ---------- update ----------

  /** What the writes of an update make of the archive. */
  lemma UpdatedStore(store: Store, current: Snapshot, rel: Snapshot, end: UpdateEnd)
    requires IdOf(current) in store && IdOf(rel) !in store
    ensures PerformAll(store, UpdateWrites(current, rel, end)) ==
              match end
              case Refused => store
              case Unpublished => Superseded(store, current)
              case _ => Superseded(store, current)[IdOf(rel) := RecordOf(rel)]
  {
    PerformFour(store, UpdateWrites(current, rel, end));
  }

  /** Only the Create of an update that was not refused records anything. */
  lemma UpdateRecords(calls: seq<Action>, current: Snapshot, rel: Snapshot, end: UpdateEnd, code: Code)
    requires Neutral(calls)
    ensures Records(calls + UpdateWrites(current, rel, end), code)
            <==> (end.Failed? || end.Deployed?) && rel.status.code == code
  {
    var writes := UpdateWrites(current, rel, end);
    var all := calls + writes;
    assert forall k :: 0 <= k < |writes| ==> all[|calls| + k] == writes[k];
    if end.Failed? {
      assert all[|calls| + 2] == Create(rel);
    } else if end.Deployed? {
      assert all[|calls| + 2] == Create(rel);
    }
  }

  lemma UpdateFailures(calls: seq<Action>, current: Snapshot, rel: Snapshot, end: UpdateEnd)
    ensures UpdateFailedIn(calls + UpdateWrites(current, rel, end)) <==> UpdateFailedIn(calls)
  {
    UpdateFailsInParts(calls, UpdateWrites(current, rel, end));
  }

  /** How an update ends, in terms of the archive; the revision it may record is always a new one. */
  lemma UpdateOutcome(env: Env, w: World, rel: Snapshot, rels: seq<Snapshot>, rendering: Rendering, bound: int)
      returns (calls: seq<Action>, end: UpdateEnd)
    requires Plausible(rendering) && IsHistory(env.namespace, w.store, rel.name, rels)
    requires WellKeyed(w.store, bound) && bound < MAX_INT32
    ensures var o := UpdateRelease(env, w, rel, rels, rendering);
            && Neutral(calls) && o.rel.spec.dryRun == rel.spec.dryRun
            && (UpdateFailedIn(Done(w, o)) <==> end.Failed?)
            && (end.Refused? ==>
                  && Done(w, o) == calls && o.world.store == w.store
                  && UpdateRefused(env, w, rel, rels, rendering, o, calls)
                  && (o.err.Some? || o.rel.spec.dryRun))
            && (!end.Refused? ==>
                  && MatchString(rel.name) && rel.spec.chart.Some?
                  && rels != [] && rendering.result.Ok? && !o.rel.spec.dryRun
                  && var current := LastOf(rels);
                  && Revises(rel, current, rendering.result.value, env.clock(w.log + rendering.calls, 0), o.rel)
                  && IdOf(o.rel) == Id(rel.name, current.spec.version + 1) && IdOf(o.rel) !in w.store
                  && o.rel.status.lastDeployedVersion == current.spec.version + 1
                  && o.rel.status.firstDeployed == ZERO_TIME
                  && Done(w, o) == calls + UpdateWrites(current, o.rel, end)
                  && calls == rendering.calls + [Built(current.namespace, o.rel)] + UpdateCalls(current, o.rel, end)
                  && o.rel.status.code == (if end.Failed? then FAILED else DEPLOYED)
                  && o.err == UpdateError(w.store, o.rel, end)
                  && o.world.store == if end.Unpublished? then Superseded(w.store, current)
                                      else Superseded(w.store, current)[IdOf(o.rel) := RecordOf(o.rel)])
            && (end.Deployed? ==> AllOk(calls))
  {
    hide UpdateRelease, IsHistory, WellKeyed, UpdateWrites, UpdateCalls, PerformAll, Neutral, UpdateFailedIn, AllOk,
         Done, MatchString;
    var o := UpdateRelease(env, w, rel, rels, rendering);
    calls, end := UpdateShape(env, w, rel, rels, rendering);
    if end.Refused? {
      DoneIs(w, o, calls, []);
      NothingPerformed(w.store, calls);
      RefusedUpdateReports(env, w, rel, rels, rendering, o, calls);
    } else {
      var current := LastOf(rels);
      NewestOf(env.namespace, w.store, rel.name, rels, bound);
      DoneIs(w, o, calls, UpdateWrites(current, o.rel, end));
      UpdateFailures(calls, current, o.rel, end);
      UpdatedStore(w.store, current, o.rel, end);
    }
  }

  lemma RefusedUpdateReports(env: Env, w: World, rel: Snapshot, rels: seq<Snapshot>, rendering: Rendering, o: Outcome,
                             calls: seq<Action>)
    requires UpdateRefused(env, w, rel, rels, rendering, o, calls)
    ensures o.rel.spec.dryRun == rel.spec.dryRun && (o.err.Some? || o.rel.spec.dryRun)
    ensures MatchString(rel.name) && rel.spec.chart.Some? && rels != [] && rendering.result.Ok? && !rel.spec.dryRun ==>
              EndsInFailure(calls)
  {
    hide MatchString, LosesHook, Restamped;
    if performed: seq<Action> :|
      && rels != []
      && calls == rendering.calls + [Built(LastOf(rels).namespace, o.rel)] + performed
      && PerformRefused(LastOf(rels), o.rel, performed, o.err)
    {
      assert EndsInFailure(performed) ==> calls[|calls| - 1] == performed[|performed| - 1];
    }
  }

  lemma NothingPerformed(store: Store, calls: seq<Action>)
    ensures PerformAll(store, []) == store && calls + [] == calls
  {
  }

  /**
    A failed Kubernetes update is reported although its error is overwritten: either the status write
    failed too, or the second attempt to record finds the revision just recorded. Exactly one revision
    is new, as FAILED; its predecessor is superseded, and nothing else changes.
  */
  lemma FailedUpdateIsReported(env: Env, w: World, rel: Snapshot, rels: seq<Snapshot>, rendering: Rendering, bound: int)
    requires Plausible(rendering) && IsHistory(env.namespace, w.store, rel.name, rels)
    requires WellKeyed(w.store, bound) && bound < MAX_INT32
    requires UpdateFailedIn(Done(w, UpdateRelease(env, w, rel, rels, rendering)))
    ensures var o := UpdateRelease(env, w, rel, rels, rendering);
            && rels != []
            && o.rel.status.code == FAILED
            && IdOf(o.rel) == Id(rel.name, LastOf(rels).spec.version + 1) && IdOf(o.rel) !in w.store
            && o.world.store == Superseded(w.store, LastOf(rels))[IdOf(o.rel) := RecordOf(o.rel)]
            && o.err == Some(if Asked(Publish(o.rel), true) in Done(w, o) then ReleaseExists else PublishFailed)
  {
    hide UpdateRelease, IsHistory, WellKeyed, UpdateCalls, PerformAll, UpdateFailedIn, AllOk, Done;
    var o := UpdateRelease(env, w, rel, rels, rendering);
    var calls, end := UpdateOutcome(env, w, rel, rels, rendering, bound);
    var writes := UpdateWrites(LastOf(rels), o.rel, end);
    assert Asked(Publish(o.rel), true) !in calls;
    assert writes[0] == Asked(Publish(o.rel), end.published);
    assert Asked(Publish(o.rel), true) in calls + writes <==> end.published;
  }

  /**
    All that an update does when nothing fails: after the rendering's calls it has the new manifest validated,
    runs the hooks before, has Kubernetes go from the recorded manifest to the rendered one, runs the hooks
    after, supersedes the newest revision, writes the object and records it.
  */
  ghost predicate UpdateTrace(env: Env, rel: Snapshot, newest: Snapshot, rendering: Rendering, done: seq<Action>,
                              out: Snapshot)
    requires rendering.result.Ok?
  {
    var r := rendering.result.value;
    exists before: seq<Action>, after: seq<Action> ::
      && AsksGuarded(before, rel.spec.disableHooks, r.hooks, rel.namespace, PRE_UPGRADE, rel.spec.timeout)
      && AsksGuarded(after, rel.spec.disableHooks, r.hooks, rel.namespace, POST_UPGRADE, rel.spec.timeout)
      && done == rendering.calls
                 + [Asked(BuildResources(env.namespace, r.manifest), true)]
                 + before
                 + [Asked(UpdateResources(rel.namespace, newest.spec.manifest, r.manifest, rel.spec.recreate,
                                          rel.spec.timeout, rel.spec.wait), true)]
                 + after
                 + [Put(newest.WithCode(SUPERSEDED)), Asked(Publish(out), true), Create(out)]
  }

  lemma DeployedTrace(env: Env, rel: Snapshot, newest: Snapshot, rendering: Rendering, out: Snapshot, now: Time)
    requires rendering.result.Ok? && Revises(rel, newest, rendering.result.value, now, out)
    requires newest.namespace == env.namespace
    ensures UpdateTrace(env, rel, newest, rendering,
                        rendering.calls + [Built(newest.namespace, out)] + UpdateCalls(newest, out, Deployed)
                        + UpdateWrites(newest, out, Deployed), out)
  {
    hide HookCalls, AsksGuarded;
    var r := rendering.result.value;
    HookCallsAsk(out, r.hooks, rel.namespace, PRE_UPGRADE);
    HookCallsAsk(out, r.hooks, rel.namespace, POST_UPGRADE);
    var before, after := HookCalls(out, out.namespace, PRE_UPGRADE), HookCalls(out, out.namespace, POST_UPGRADE);
    var done := rendering.calls + [Built(newest.namespace, out)] + UpdateCalls(newest, out, Deployed)
                + UpdateWrites(newest, out, Deployed);
    assert done == rendering.calls + [Asked(BuildResources(env.namespace, r.manifest), true)] + before
                   + [Asked(UpdateResources(rel.namespace, newest.spec.manifest, r.manifest, rel.spec.recreate,
                                            rel.spec.timeout, rel.spec.wait), true)]
                   + after + [Put(newest.WithCode(SUPERSEDED)), Asked(Publish(out), true), Create(out)];
  }

  /**
    An update that is no dry run succeeds exactly when it records a DEPLOYED revision; it is then the
    next one, and the update made precisely these calls, each answered well: rendering, validation, all
    pre-upgrade hooks, the Kubernetes update, all post-upgrade hooks, the status write.
  */
  lemma UpdateDeploys(env: Env, w: World, rel: Snapshot, rels: seq<Snapshot>, rendering: Rendering, bound: int)
    requires Plausible(rendering) && IsHistory(env.namespace, w.store, rel.name, rels)
    requires WellKeyed(w.store, bound) && bound < MAX_INT32
    ensures var o := UpdateRelease(env, w, rel, rels, rendering);
            && (o.err.None? && !o.rel.spec.dryRun <==> Records(Done(w, o), DEPLOYED))
            && (Records(Done(w, o), DEPLOYED) ==>
                  && rels != [] && rendering.result.Ok?
                  && NothingFailed(Done(w, o))
                  && UpdateTrace(env, rel, LastOf(rels), rendering, Done(w, o), o.rel)
                  && o.world.store == Superseded(w.store, LastOf(rels))[IdOf(o.rel) := RecordOf(o.rel)])
  {
    hide UpdateRelease, IsHistory, WellKeyed, UpdateCalls, PerformAll, UpdateFailedIn, UpdateWrites, Records, Done,
         Neutral, AllOk, NothingFailed;
    var o := UpdateRelease(env, w, rel, rels, rendering);
    var calls, end := UpdateOutcome(env, w, rel, rels, rendering, bound);
    if end.Refused? {
      NeutralRecordsNothing(calls, DEPLOYED);
    } else {
      UpdateRecords(calls, LastOf(rels), o.rel, end, DEPLOYED);
      if end.Deployed? {
        DeployedWithoutFailure(calls, LastOf(rels), o.rel);
        NewestOf(env.namespace, w.store, rel.name, rels, bound);
        DeployedTrace(env, rel, LastOf(rels), rendering, o.rel, env.clock(w.log + rendering.calls, 0));
      }
    }
  }

  /**
    What it takes to deploy: an update of a known release with a valid name and a chart that renders, and
    no dry run, records a DEPLOYED revision exactly when nothing it asked for failed.
  */
  lemma UpdateDeploysUnlessFailing(env: Env, w: World, rel: Snapshot, rels: seq<Snapshot>, rendering: Rendering,
                                   bound: int)
    requires Plausible(rendering) && IsHistory(env.namespace, w.store, rel.name, rels)
    requires WellKeyed(w.store, bound) && bound < MAX_INT32
    requires MatchString(rel.name) && rel.spec.chart.Some? && rels != [] && rendering.result.Ok? && !rel.spec.dryRun
    ensures var done := Done(w, UpdateRelease(env, w, rel, rels, rendering));
            Records(done, DEPLOYED) <==> NothingFailed(done)
  {
    hide UpdateRelease, IsHistory, WellKeyed, PerformAll, UpdateFailedIn, Records, Done, Neutral, AllOk, NothingFailed,
         MatchString, UpdateRefused, HookCalls;
    var o := UpdateRelease(env, w, rel, rels, rendering);
    var calls, end := UpdateOutcome(env, w, rel, rels, rendering, bound);
    if end.Refused? {
      NeutralRecordsNothing(calls, DEPLOYED);
      RefusedUpdateReports(env, w, rel, rels, rendering, o, calls);
      FailureShows(calls, []);
    } else {
      var writes := UpdateWrites(LastOf(rels), o.rel, end);
      UpdateRecords(calls, LastOf(rels), o.rel, end, DEPLOYED);
      match end
      case Failed(_) => FailureShows(calls, writes);
      case Unpublished =>
        assert calls + writes == (calls + writes) + [];
        FailureShows(calls + writes, []);
      case Deployed =>
        hide UpdateWrites, UpdateCalls;
        DeployedWithoutFailure(calls, LastOf(rels), o.rel);
    }
  }

  lemma FailureShows(calls: seq<Action>, rest: seq<Action>)
    ensures EndsInFailure(calls) ==> !NothingFailed(calls) && !NothingFailed(calls + rest)
  {
    if EndsInFailure(calls) { assert (calls + rest)[|calls| - 1] == calls[|calls| - 1]; }
  }

  lemma NeutralRecordsNothing(calls: seq<Action>, code: Code)
    requires Neutral(calls)
    ensures !Records(calls, code)
  {
  }

  lemma DeployedWithoutFailure(calls: seq<Action>, current: Snapshot, rel: Snapshot)
    requires AllOk(calls)
    ensures NothingFailed(calls + UpdateWrites(current, rel, Deployed))
  {
  }

  /**
    A successful update of the revisions 1..n leaves 1..n+1 exactly when n is below the int32 maximum: at
    the maximum the next version wraps around to the minimum, and what is left is no such range.
  */
  lemma RevisionLimit(env: Env, w: World, rel: Snapshot, rels: seq<Snapshot>, rendering: Rendering, n: int32)
    requires Plausible(rendering) && IsHistory(env.namespace, w.store, rel.name, rels)
    requires WellKeyed(w.store, MAX_INT32) && Interval(w.store, rel.name, 1, n) && n >= 1
    requires Records(Done(w, UpdateRelease(env, w, rel, rels, rendering)), DEPLOYED)
    ensures var o := UpdateRelease(env, w, rel, rels, rendering);
            && (Settled(o.world.store, rel.name) <==> n < MAX_INT32)
            && (n < MAX_INT32 ==> Interval(o.world.store, rel.name, 1, n + 1))
            && rels != [] && IdOf(o.rel) == Id(rel.name, if n < MAX_INT32 then n + 1 else MIN_INT32)
            && o.world.store == Superseded(w.store, LastOf(rels))[IdOf(o.rel) := RecordOf(o.rel)]
  {
    hide UpdateRelease, UpdateCalls, IsHistory, WellKeyed, Interval, Settled, Records, Done, Neutral, AllOk,
         UpdateFailedIn, UpdateWrites, PerformAll, Restamped;
    var o := UpdateRelease(env, w, rel, rels, rendering);
    var calls, end := UpdateShape(env, w, rel, rels, rendering);
    HistoryEnds(env.namespace, w.store, rel.name, rels, MAX_INT32, 1, n);
    var writes := if end.Refused? then [] else UpdateWrites(LastOf(rels), o.rel, end);
    DoneIs(w, o, calls, writes);
    if end.Refused? {
      NothingPerformed(w.store, calls);
      NeutralRecordsNothing(calls, DEPLOYED);
    } else {
      UpdateRecords(calls, LastOf(rels), o.rel, end, DEPLOYED);
      NewestOf(env.namespace, w.store, rel.name, rels, MAX_INT32);
      WritesAtLimit(w.store, LastOf(rels), o.rel, n);
      NextIsFree(w.store, LastOf(rels), n);
      UpdatedStore(w.store, LastOf(rels), o.rel, end);
    }
  }

  lemma WritesAtLimit(store: Store, current: Snapshot, rel: Snapshot, n: int32)
    requires Interval(store, current.name, 1, n) && current.spec.version == n >= 1
    requires rel.name == current.name && rel.spec.version == NextVersion(current)
    ensures var store' := PerformAll(store, UpdateWrites(current, rel, Deployed));
            && (Settled(store', current.name) <==> n < MAX_INT32)
            && (n < MAX_INT32 ==> Interval(store', current.name, 1, n + 1))
  {
    hide Interval;
    NextIsFree(store, current, n);
    UpdatedStore(store, current, rel, Deployed);
    var store' := Superseded(store, current)[IdOf(rel) := RecordOf(rel)];
    if n < MAX_INT32 {
      OneMore(store, current, rel, n);
    } else if Settled(store', current.name) {
      var m :| Interval(store', current.name, 1, m);
      assert IdOf(rel) == Id(current.name, MIN_INT32);
      NoneBelow(store', current.name, m, MIN_INT32);
    }
  }

  lemma NextIsFree(store: Store, current: Snapshot, n: int32)
    requires Interval(store, current.name, 1, n) && current.spec.version == n >= 1
    ensures IdOf(current) in store && Id(current.name, NextVersion(current)) !in store
    ensures NextVersion(current) == if n < MAX_INT32 then n + 1 else MIN_INT32
  {
  }

  lemma NoneBelow(store: Store, name: string, n: int, v: int32)
    requires Interval(store, name, 1, n) && v < 1
    ensures Id(name, v) !in store
  {
  }

  lemma OneMore(store: Store, current: Snapshot, rel: Snapshot, n: int32)
    requires Interval(store, current.name, 1, n) && current.spec.version == n >= 1 && n < MAX_INT32
    requires rel.name == current.name && rel.spec.version == n + 1
    ensures Interval(Superseded(store, current)[IdOf(rel) := RecordOf(rel)], current.name, 1, n + 1)
  {
  }

  // ---------- install ----------

  lemma InstallRecords(calls: seq<Action>, rel: Snapshot, end: InstallEnd, code: Code)
    requires Neutral(calls)
    ensures Records(calls + InstallWrites(rel, end), code) <==> !end.NotInstalled? && rel.status.code == code
  {
    var writes := InstallWrites(rel, end);
    var all := calls + writes;
    if !end.NotInstalled? { assert all[|calls| + 1] == Create(rel); }
  }

  /** The archive after an install has tried to record: revision 1 is added unless there is one already. */
  function WithFirst(store: Store, rel: Snapshot): Store {
    if IdOf(rel) in store then store else store[IdOf(rel) := RecordOf(rel)]
  }

  /**
    How an install ends, in terms of the archive. Every install that reached Kubernetes tries to record its
    release as revision 1; where that is taken the archive stays as it is, and the error does not tell.
  */
  lemma InstallOutcome(env: Env, w: World, rel: Snapshot, rendering: Rendering)
      returns (calls: seq<Action>, end: InstallEnd)
    requires Plausible(rendering)
    ensures var o := InstallRelease(env, w, rel, rendering);
            && Neutral(calls) && Done(w, o) == calls + InstallWrites(o.rel, end)
            && (end.NotInstalled? ==>
                  o.world.store == w.store && InstallRefused(env, w, rel, rendering, o, calls))
            && (!end.NotInstalled? ==>
                  && rendering.result.Ok? && !rel.spec.dryRun
                  && Installs(rel, rendering.result.value, env.clock(w.log + rendering.calls, 0),
                              env.clock(w.log + rendering.calls, 1), o.rel)
                  && calls == rendering.calls + [Built(o.rel.namespace, o.rel)] + InstallCalls(o.rel, end)
                  && IdOf(o.rel) == Id(rel.name, 1) && o.world.store == WithFirst(w.store, o.rel)
                  && o.rel.status.code == (if end.Installed? then DEPLOYED else FAILED)
                  && o.err == InstallError(end))
            && (end.Installed? ==> AllOk(calls))
            && (end.HookLost? ==> EndsInFailure(end.lost) && Loses(o.rel, o.rel.namespace, POST_INSTALL, end.lost))
  {
    hide InstallRelease, InstallCalls, Done, Neutral, AllOk, InstallRefused, Restamped, EndsInFailure, Loses;
    var o := InstallRelease(env, w, rel, rendering);
    calls, end := InstallShape(env, w, rel, rendering);
    DoneIs(w, o, calls, InstallWrites(o.rel, end));
    PerformThree(w.store, InstallWrites(o.rel, end));
  }

  /**
    All that an install does when nothing but its status write may fail: after the rendering's calls it has the
    manifest validated, runs the hooks before in the namespace named like the release, has Kubernetes create
    the rendered manifest, runs the hooks after, writes the object and records it.
  */
  ghost predicate InstallTrace(rel: Snapshot, rendering: Rendering, done: seq<Action>, out: Snapshot)
    requires rendering.result.Ok?
  {
    var r := rendering.result.value;
    exists before: seq<Action>, after: seq<Action>, published ::
      && AsksGuarded(before, rel.spec.disableHooks, r.hooks, rel.name, PRE_INSTALL, rel.spec.timeout)
      && AsksGuarded(after, rel.spec.disableHooks, r.hooks, rel.namespace, POST_INSTALL, rel.spec.timeout)
      && done == rendering.calls
                 + [Asked(BuildResources(rel.namespace, r.manifest), true)]
                 + before
                 + [Asked(CreateResources(rel.namespace, r.manifest, rel.spec.timeout, rel.spec.wait), true)]
                 + after
                 + [Asked(Publish(out), published), Create(out)]
  }

  lemma InstalledTrace(rel: Snapshot, rendering: Rendering, out: Snapshot, first: Time, last: Time, published: bool)
    requires rendering.result.Ok? && Installs(rel, rendering.result.value, first, last, out)
    ensures InstallTrace(rel, rendering,
                         rendering.calls + [Built(out.namespace, out)] + InstallCalls(out, Installed(published))
                         + InstallWrites(out, Installed(published)), out)
  {
    hide HookCalls, AsksGuarded;
    var r := rendering.result.value;
    HookCallsAsk(out, r.hooks, rel.name, PRE_INSTALL);
    HookCallsAsk(out, r.hooks, rel.namespace, POST_INSTALL);
    var before, after := HookCalls(out, rel.name, PRE_INSTALL), HookCalls(out, rel.namespace, POST_INSTALL);
    var done := rendering.calls + [Built(out.namespace, out)] + InstallCalls(out, Installed(published))
                + InstallWrites(out, Installed(published));
    assert done == rendering.calls + [Asked(BuildResources(rel.namespace, r.manifest), true)] + before
                   + [Asked(CreateResources(rel.namespace, r.manifest, rel.spec.timeout, rel.spec.wait), true)]
                   + after + [Asked(Publish(out), published), Create(out)];
  }

  /**
    An install records DEPLOYED only when rendering, validation, all pre-install hooks, the creation
    of the resources and all post-install hooks succeeded; the status write alone may have failed.
  */
  lemma InstallDeploys(env: Env, w: World, rel: Snapshot, rendering: Rendering)
    requires Plausible(rendering)
    requires Records(Done(w, InstallRelease(env, w, rel, rendering)), DEPLOYED)
    ensures var o := InstallRelease(env, w, rel, rendering);
            && o.err.None? && IdOf(o.rel) == Id(rel.name, 1) && o.world.store == WithFirst(w.store, o.rel)
            && rendering.result.Ok? && InstallTrace(rel, rendering, Done(w, o), o.rel)
            && OnlyPublishFailed(Done(w, o))
  {
    hide InstallRelease, InstallCalls, InstallWrites, Records, Done, Neutral, AllOk, Restamped, InstallRefused;
    var o := InstallRelease(env, w, rel, rendering);
    var calls, end := InstallOutcome(env, w, rel, rendering);
    InstallRecords(calls, o.rel, end, DEPLOYED);
    InstalledTrace(rel, rendering, o.rel, env.clock(w.log + rendering.calls, 0),
                   env.clock(w.log + rendering.calls, 1), end.published);
    InstalledWithoutFailure(calls, o.rel, end);
  }

  /**
    An install that records FAILED ends its calls with the failure. The refusal of Kubernetes is always
    reported; a failed post-install hook is reported exactly when the status write failed too.
  */
  lemma FailedInstallIsReported(env: Env, w: World, rel: Snapshot, rendering: Rendering) returns (end: InstallEnd)
    requires Plausible(rendering)
    requires Records(Done(w, InstallRelease(env, w, rel, rendering)), FAILED)
    ensures var o := InstallRelease(env, w, rel, rendering);
            var calls := rendering.calls + [Built(o.rel.namespace, o.rel)] + InstallCalls(o.rel, end);
            && (end.KubeRefused? || end.HookLost?)
            && IdOf(o.rel) == Id(rel.name, 1) && o.world.store == WithFirst(w.store, o.rel)
            && Done(w, o) == calls + InstallWrites(o.rel, end)
            && EndsInFailure(calls)
            && (end.KubeRefused? ==> o.err == Some(KubeFailed))
            && (end.HookLost? ==> o.err == if end.published then None else Some(PublishFailed))
  {
    hide InstallRelease, InstallWrites, Records, Done, Neutral, AllOk, HookCalls;
    var o := InstallRelease(env, w, rel, rendering);
    var calls;
    calls, end := InstallOutcome(env, w, rel, rendering);
    InstallRecords(calls, o.rel, end, FAILED);
  }

  /** The status write alone may fail without spoiling an install. */
  predicate OnlyPublishFailed(actions: seq<Action>) {
    forall k :: 0 <= k < |actions| && actions[k].Asked? && !actions[k].ok ==> actions[k].call.Publish?
  }

  lemma RefusedInstallFails(env: Env, w: World, rel: Snapshot, rendering: Rendering, o: Outcome, calls: seq<Action>)
    requires InstallRefused(env, w, rel, rendering, o, calls) && Neutral(calls)
    requires rel.spec.chart.Some? && rel.spec.chart.value.templates != [] && rendering.result.Ok? && !rel.spec.dryRun
    ensures !OnlyPublishFailed(calls)
  {
    hide LosesHook, Prepares;
    assert EndsInFailure(calls);
    assert !calls[|calls| - 1].call.Publish?;
  }

  /**
    What it takes to install: an install with a chart that renders, and no dry run, records DEPLOYED
    exactly when nothing but the status write failed.
  */
  lemma InstallDeploysUnlessFailing(env: Env, w: World, rel: Snapshot, rendering: Rendering)
    requires Plausible(rendering)
    requires rel.spec.chart.Some? && rel.spec.chart.value.templates != [] && rendering.result.Ok? && !rel.spec.dryRun
    ensures var o := InstallRelease(env, w, rel, rendering);
            var done := Done(w, o);
            && (Records(done, DEPLOYED) <==> OnlyPublishFailed(done))
            && (OnlyPublishFailed(done) ==> o.world.store == WithFirst(w.store, o.rel) && o.rel.status.code == DEPLOYED)
  {
    hide InstallRelease, Records, Done, Neutral, InstallRefused, HookCalls, OnlyPublishFailed, AllOk;
    var o := InstallRelease(env, w, rel, rendering);
    var calls, end := InstallOutcome(env, w, rel, rendering);
    var writes := InstallWrites(o.rel, end);
    InstallRecords(calls, o.rel, end, DEPLOYED);
    match end
    case NotInstalled =>
      assert calls + [] == calls;
      RefusedInstallFails(env, w, rel, rendering, o, calls);
    case Installed(_) => InstalledWithoutFailure(calls, o.rel, end);
    case _ =>
      assert EndsInFailure(calls);
      FailureOfCall(calls, writes);
  }

  lemma InstalledWithoutFailure(calls: seq<Action>, rel: Snapshot, end: InstallEnd)
    requires AllOk(calls)
    ensures OnlyPublishFailed(calls + InstallWrites(rel, end))
  {
  }

  lemma FailureOfCall(calls: seq<Action>, rest: seq<Action>)
    requires EndsInFailure(calls) && Neutral(calls)
    ensures !OnlyPublishFailed(calls + rest)
  {
    assert (calls + rest)[|calls| - 1] == calls[|calls| - 1];
  }
}
