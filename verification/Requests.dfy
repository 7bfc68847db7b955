/**
  What the handlers ask Kubernetes for, call by call and argument by argument, in terms of the release they
  were called with, the files its chart renders to and what the archive holds. This is said of every run, with
  whatever answers, not only of those that succeed.
*/
module Requests {
  import opened Wrappers
  import opened GoStrings
  import opened ReleaseKey
  import opened ReleaseName
  import opened Hapi
  import opened Worlds
  import opened KindSorter
  import opened Manifests
  import opened ManifestBlob
  import opened Annotations
  import opened Lifecycle
  import opened HookLaws
  import opened HandlerLaws
  import opened History
  import opened Outcomes
  import opened Conservation
  import opened Renderings
  import Server = ReleaseServer

  // ---------- calls for hooks ----------

  /** The call creates, or waits for, the manifest of one of the hooks that carry the event. */
  ghost predicate ForHook(call: Call, hs: seq<Hook>, ns: string, event: HookEvent, timeout: int) {
    exists k :: 0 <= k < |hs| && event in hs[k].events && ForManifest(call, hs[k].manifest, ns, timeout)
  }

  predicate ForManifest(call: Call, manifest: string, ns: string, timeout: int) {
    call == CreateResources(ns, manifest, timeout, false) || call == WatchUntilReady(ns, manifest, timeout)
  }

  ghost predicate OnlyForHooks(calls: seq<Action>, hs: seq<Hook>, ns: string, event: HookEvent, timeout: int) {
    forall k :: 0 <= k < |calls| ==> calls[k].Asked? && ForHook(calls[k].call, hs, ns, event, timeout)
  }

  lemma {:induction false} CallsAreForHooks(hs: seq<Hook>, ns: string, event: HookEvent, timeout: int)
    ensures OnlyForHooks(Calls(hs, ns, event, timeout), hs, ns, event, timeout)
    decreases |hs|
  {
    if hs != [] {
      var init, last := hs[..|hs| - 1], hs[|hs| - 1];
      CallsAreForHooks(init, ns, event, timeout);
      assert hs == init + [last];
      CallsSnoc(init, last, ns, event, timeout);
      hide Calls;
      MoreHooks(Calls(init, ns, event, timeout), init, hs, ns, event, timeout);
      LastIsForHook(hs, ns, event, timeout);
    }
  }

  lemma LastIsForHook(hs: seq<Hook>, ns: string, event: HookEvent, timeout: int)
    requires hs != []
    ensures OnlyForHooks(SuccessCalls(hs[|hs| - 1], ns, event, timeout), hs, ns, event, timeout)
  {
  }

  lemma MoreHooks(calls: seq<Action>, some: seq<Hook>, all: seq<Hook>, ns: string, event: HookEvent, timeout: int)
    requires OnlyForHooks(calls, some, ns, event, timeout) && some <= all
    ensures OnlyForHooks(calls, all, ns, event, timeout)
  {
    hide ForManifest;
    forall k | 0 <= k < |calls| ensures ForHook(calls[k].call, all, ns, event, timeout) {
      var i :| 0 <= i < |some| && event in some[i].events && ForManifest(calls[k].call, some[i].manifest, ns, timeout);
      assert all[i] == some[i];
    }
  }

  /** A guarded run that succeeds or fails asks for hooks only, and for nothing where they are disabled. */
  lemma GuardedCalls(rel: Snapshot, ns: string, event: HookEvent, calls: seq<Action>)
    requires calls == HookCalls(rel, ns, event) || Loses(rel, ns, event, calls)
    ensures OnlyForHooks(calls, rel.spec.hooks, ns, event, rel.spec.timeout)
    ensures rel.spec.disableHooks ==> calls == []
  {
    var hs, timeout := rel.spec.hooks, rel.spec.timeout;
    hide OnlyForHooks, Calls, FailingCalls;
    if calls == HookCalls(rel, ns, event) {
      if rel.spec.disableHooks { NoCalls(hs, ns, event, timeout); } else { CallsAreForHooks(hs, ns, event, timeout); }
    } else {
      var stop: nat :| FailsAt(rel, ns, event, calls, stop);
      var failing: seq<Action> :|
        FailingCalls(failing, hs[stop], ns, timeout) && calls == Calls(hs[..stop], ns, event, timeout) + failing;
      CallsAreForHooks(hs[..stop], ns, event, timeout);
      MoreHooks(Calls(hs[..stop], ns, event, timeout), hs[..stop], hs, ns, event, timeout);
      FailingIsForHook(failing, hs, stop, ns, event, timeout);
      BothForHooks(Calls(hs[..stop], ns, event, timeout), failing, hs, ns, event, timeout);
    }
  }

  lemma NoCalls(hs: seq<Hook>, ns: string, event: HookEvent, timeout: int)
    ensures OnlyForHooks([], hs, ns, event, timeout)
  {
  }

  lemma FailingIsForHook(failing: seq<Action>, hs: seq<Hook>, k: nat, ns: string, event: HookEvent, timeout: int)
    requires k < |hs| && event in hs[k].events && FailingCalls(failing, hs[k], ns, timeout)
    ensures OnlyForHooks(failing, hs, ns, event, timeout)
  {
    forall i | 0 <= i < |failing|
      ensures failing[i].Asked? && ForManifest(failing[i].call, hs[k].manifest, ns, timeout)
    {
    }
  }

  lemma BothForHooks(a: seq<Action>, b: seq<Action>, hs: seq<Hook>, ns: string, event: HookEvent, timeout: int)
    requires OnlyForHooks(a, hs, ns, event, timeout) && OnlyForHooks(b, hs, ns, event, timeout)
    ensures OnlyForHooks(a + b, hs, ns, event, timeout)
  {
    hide ForHook;
  }

  lemma StampsChangeNothing(calls: seq<Action>, before: seq<Hook>, after: seq<Hook>, ns: string, event: HookEvent,
                            timeout: int)
    requires OnlyForHooks(calls, after, ns, event, timeout) && Restamped(before, after)
    ensures OnlyForHooks(calls, before, ns, event, timeout)
  {
    hide ForManifest;
    forall k | 0 <= k < |calls| ensures ForHook(calls[k].call, before, ns, event, timeout) {
      var i :| 0 <= i < |after| && event in after[i].events
        && ForManifest(calls[k].call, after[i].manifest, ns, timeout);
      assert after[i] == before[i].(lastRun := after[i].lastRun);
    }
  }

  /** The calls of a guarded run, in terms of the hooks as they were rendered. */
  lemma RunsRendered(rel: Snapshot, rendered: seq<Hook>, ns: string, event: HookEvent, calls: seq<Action>)
    requires calls == HookCalls(rel, ns, event) || Loses(rel, ns, event, calls)
    requires Restamped(rendered, rel.spec.hooks)
    ensures OnlyForHooks(calls, rendered, ns, event, rel.spec.timeout)
    ensures rel.spec.disableHooks ==> calls == []
  {
    GuardedCalls(rel, ns, event, calls);
    StampsChangeNothing(calls, rendered, rel.spec.hooks, ns, event, rel.spec.timeout);
  }

  // ---------- update ----------

  /** What an update may do, one action at a time, when its chart rendered; `prior` is the manifest it replaces. */
  ghost predicate MayUpdate(env: Env, rel: Snapshot, prior: string, r: Rendered, out: Snapshot, a: Action) {
    a.Asked? ==>
      match a.call
      case Discover => true
      case BuildResources(ns, manifest) => ns == env.namespace && manifest == r.manifest
      case UpdateResources(ns, current, target, recreate, timeout, wait) =>
        && !rel.spec.dryRun && ns == rel.namespace && current == prior && target == r.manifest
        && recreate == rel.spec.recreate && timeout == rel.spec.timeout && wait == rel.spec.wait
      case CreateResources(_, _, _, _) => MayRunHook(rel, r.hooks, a.call)
      case WatchUntilReady(_, _, _) => MayRunHook(rel, r.hooks, a.call)
      case Publish(published) => !rel.spec.dryRun && published == out
      case DeleteResources(_, _) => false
      case FetchRelease(_) => false
  }

  ghost predicate MayRunHook(rel: Snapshot, hooks: seq<Hook>, call: Call) {
    && !rel.spec.dryRun && !rel.spec.disableHooks
    && (|| ForHook(call, hooks, rel.namespace, PRE_UPGRADE, rel.spec.timeout)
        || ForHook(call, hooks, rel.namespace, POST_UPGRADE, rel.spec.timeout))
  }

  ghost predicate AllMayUpdate(env: Env, rel: Snapshot, prior: string, r: Rendered, out: Snapshot, actions: seq<Action>)
  {
    forall k :: 0 <= k < |actions| ==> MayUpdate(env, rel, prior, r, out, actions[k])
  }

  predicate IsKubeUpdate(a: Action) {
    a.Asked? && a.call.UpdateResources?
  }

  predicate NoKubeUpdate(actions: seq<Action>) {
    forall k :: 0 <= k < |actions| ==> !IsKubeUpdate(actions[k])
  }

  predicate OneKubeUpdate(actions: seq<Action>) {
    forall i, j :: 0 <= i < j < |actions| ==> !(IsKubeUpdate(actions[i]) && IsKubeUpdate(actions[j]))
  }

  lemma BothMayUpdate(env: Env, rel: Snapshot, prior: string, r: Rendered, out: Snapshot, a: seq<Action>,
                      b: seq<Action>)
    requires AllMayUpdate(env, rel, prior, r, out, a) && AllMayUpdate(env, rel, prior, r, out, b)
    ensures AllMayUpdate(env, rel, prior, r, out, a + b)
    ensures NoKubeUpdate(a) && NoKubeUpdate(b) ==> NoKubeUpdate(a + b)
    ensures (NoKubeUpdate(a) && OneKubeUpdate(b)) || (OneKubeUpdate(a) && NoKubeUpdate(b)) ==> OneKubeUpdate(a + b)
  {
    hide MayUpdate, IsKubeUpdate;
    var ab := a + b;
    assert forall k :: 0 <= k < |b| ==> ab[|a| + k] == b[k];
    assert forall k :: |a| <= k < |ab| ==> ab[k] == b[k - |a|];
  }

  lemma HooksMayUpdate(env: Env, rel: Snapshot, prior: string, r: Rendered, out: Snapshot, event: HookEvent,
                       calls: seq<Action>)
    requires calls == HookCalls(out, rel.namespace, event) || Loses(out, rel.namespace, event, calls)
    requires Restamped(r.hooks, out.spec.hooks) && (event.PRE_UPGRADE? || event.POST_UPGRADE?)
    requires out.spec.disableHooks == rel.spec.disableHooks && out.spec.timeout == rel.spec.timeout
    requires !rel.spec.dryRun
    ensures AllMayUpdate(env, rel, prior, r, out, calls) && NoKubeUpdate(calls)
  {
    RunsRendered(out, r.hooks, rel.namespace, event, calls);
    hide HookCalls, Loses, Restamped;
    forall k | 0 <= k < |calls|
      ensures MayUpdate(env, rel, prior, r, out, calls[k]) && !IsKubeUpdate(calls[k])
    {
      assert ForHook(calls[k].call, r.hooks, rel.namespace, event, rel.spec.timeout);
    }
  }

  lemma OneMayUpdate(env: Env, rel: Snapshot, current: Snapshot, r: Rendered, out: Snapshot, now: Time, ok: bool)
    requires Revises(rel, current, r, now, out) && current.namespace == env.namespace
    ensures var asked := Asked(BuildResources(current.namespace, out.spec.manifest), ok);
            AllMayUpdate(env, rel, current.spec.manifest, r, out, [asked]) && NoKubeUpdate([asked])
    ensures !rel.spec.dryRun ==>
              && AllMayUpdate(env, rel, current.spec.manifest, r, out, [Asked(KubeUpdate(current, out), ok)])
              && OneKubeUpdate([Asked(KubeUpdate(current, out), ok)])
  {
    hide Restamped;
  }

  lemma WritesMayUpdate(env: Env, rel: Snapshot, current: Snapshot, r: Rendered, out: Snapshot, end: UpdateEnd)
    requires !rel.spec.dryRun
    ensures AllMayUpdate(env, rel, current.spec.manifest, r, out, UpdateWrites(current, out, end))
    ensures NoKubeUpdate(UpdateWrites(current, out, end))
  {
  }

  lemma RenderingMayUpdate(env: Env, rel: Snapshot, prior: string, r: Rendered, out: Snapshot, rendering: Rendering)
    requires Plausible(rendering)
    ensures AllMayUpdate(env, rel, prior, r, out, rendering.calls) && NoKubeUpdate(rendering.calls)
  {
  }

  lemma NothingMayUpdate(env: Env, rel: Snapshot, prior: string, r: Rendered, out: Snapshot)
    ensures AllMayUpdate(env, rel, prior, r, out, []) && NoKubeUpdate([])
  {
  }

  /** The calls from the hooks to Kubernetes and back, of an update that is no dry run. */
  lemma PerformedMayUpdate(env: Env, rel: Snapshot, current: Snapshot, r: Rendered, out: Snapshot, now: Time,
                           calls: seq<Action>, err: Option<Error>)
    requires Revises(rel, current, r, now, out) && current.namespace == env.namespace
    requires PerformRefused(current, out, calls, err)
             || (!rel.spec.dryRun && exists end: UpdateEnd :: calls == UpdateCalls(current, out, end))
    ensures AllMayUpdate(env, rel, current.spec.manifest, r, out, calls) && OneKubeUpdate(calls)
  {
    hide AllMayUpdate, NoKubeUpdate, OneKubeUpdate, HookCalls, Loses, KubeUpdate, EndsInFailure;
    var prior, pre := current.spec.manifest, HookCalls(out, rel.namespace, PRE_UPGRADE);
    NothingMayUpdate(env, rel, prior, r, out);
    NoneIsOne(calls);
    if out.spec.dryRun {
      return;
    }
    HooksMayUpdate(env, rel, prior, r, out, PRE_UPGRADE, pre);
    if end: UpdateEnd :| calls == UpdateCalls(current, out, end) {
      var asked := [Asked(KubeUpdate(current, out), !end.Failed?)];
      var post := if end.Failed? then [] else HookCalls(out, rel.namespace, POST_UPGRADE);
      OneMayUpdate(env, rel, current, r, out, now, !end.Failed?);
      if !end.Failed? { HooksMayUpdate(env, rel, prior, r, out, POST_UPGRADE, post); }
      BothMayUpdate(env, rel, prior, r, out, pre, asked);
      BothMayUpdate(env, rel, prior, r, out, pre + asked, post);
    } else if LosesHook(calls, [], out, rel.namespace, PRE_UPGRADE) {
      var lost: seq<Action> :| calls == [] + lost && Loses(out, rel.namespace, PRE_UPGRADE, lost);
      assert calls == lost;
      HooksMayUpdate(env, rel, prior, r, out, PRE_UPGRADE, lost);
    } else {
      var asked := [Asked(KubeUpdate(current, out), true)];
      var lost: seq<Action> :| calls == pre + asked + lost && Loses(out, rel.namespace, POST_UPGRADE, lost);
      OneMayUpdate(env, rel, current, r, out, now, true);
      HooksMayUpdate(env, rel, prior, r, out, POST_UPGRADE, lost);
      BothMayUpdate(env, rel, prior, r, out, pre, asked);
      BothMayUpdate(env, rel, prior, r, out, pre + asked, lost);
    }
  }

  lemma NoneIsOne(calls: seq<Action>)
    ensures NoKubeUpdate(calls) ==> OneKubeUpdate(calls)
  {
  }

  /**
    Whatever fails, an update asks Kubernetes at most once to update resources, and then to go from the manifest
    recorded at the newest revision to the rendered one, with the options of the release as it was handed in.
    It validates the rendered manifest, runs rendered hooks of its two events unless hooks are disabled, writes
    the release it leaves, and asks for nothing else; a dry run validates, and no more.
  */
  lemma UpdateAsks(env: Env, w: World, rel: Snapshot, rels: seq<Snapshot>, rendering: Rendering, bound: int, n: int32)
    requires Plausible(rendering) && IsHistory(env.namespace, w.store, rel.name, rels)
    requires WellKeyed(w.store, bound) && Id(rel.name, n) in w.store
    requires forall v: int32 :: Id(rel.name, v) in w.store ==> v <= n
    ensures var o := UpdateRelease(env, w, rel, rels, rendering);
            var done := Done(w, o);
            && OneKubeUpdate(done)
            && (rendering.result.Ok? ==>
                  AllMayUpdate(env, rel, w.store[Id(rel.name, n)].spec.manifest, rendering.result.value, o.rel, done))
            && (rendering.result.Err? ==> forall k :: 0 <= k < |done| ==> done[k].Asked? && done[k].call.Discover?)
  {
    hide UpdateRelease, IsHistory, WellKeyed, UpdateCalls, UpdateWrites, AllMayUpdate, NoKubeUpdate, OneKubeUpdate,
         MatchString, Done, Revises, Plausible, PerformRefused, Neutral, UpdateFailedIn, AllOk;
    var o := UpdateRelease(env, w, rel, rels, rendering);
    HistoryHolds(env.namespace, w.store, rel.name, rels, n);
    NewestOf(env.namespace, w.store, rel.name, rels, bound);
    var current := LastOf(rels);
    var prior := current.spec.manifest;
    assert current.spec.version == n && w.store[Id(rel.name, n)].spec.manifest == prior;
    var calls, end := UpdateShape(env, w, rel, rels, rendering);
    var writes := if end.Refused? then [] else UpdateWrites(current, o.rel, end);
    DoneIs(w, o, calls, writes);
    assert calls + [] == calls;
    if rendering.result.Err? {
      DiscoversOnly(rendering);
    } else {
      var r := rendering.result.value;
      NothingMayUpdate(env, rel, prior, r, o.rel);
      RenderingMayUpdate(env, rel, prior, r, o.rel, rendering);
      NoneIsOne(calls);
      if end.Refused? {
        RefusedMayUpdate(env, w, rel, rels, rendering, o, calls);
      } else {
        var now := env.clock(w.log + rendering.calls, 0);
        PreparedMayUpdate(env, rel, current, r, o.rel, now, rendering, UpdateCalls(current, o.rel, end), None);
        WritesMayUpdate(env, rel, current, r, o.rel, end);
        BothMayUpdate(env, rel, prior, r, o.rel, calls, writes);
      }
    }
  }

  lemma DiscoversOnly(rendering: Rendering)
    requires Plausible(rendering)
    ensures forall k :: 0 <= k < |rendering.calls| ==> rendering.calls[k].Asked? && rendering.calls[k].call.Discover?
    ensures NoKubeUpdate(rendering.calls) && OneKubeUpdate(rendering.calls) && OneKubeUpdate([])
  {
  }

  lemma PreparedMayUpdate(env: Env, rel: Snapshot, current: Snapshot, r: Rendered, out: Snapshot, now: Time,
                          rendering: Rendering, performed: seq<Action>, err: Option<Error>)
    requires Plausible(rendering) && Revises(rel, current, r, now, out) && current.namespace == env.namespace
    requires PerformRefused(current, out, performed, err)
             || (!rel.spec.dryRun && exists end: UpdateEnd :: performed == UpdateCalls(current, out, end))
    ensures var calls := rendering.calls + [Built(current.namespace, out)] + performed;
            AllMayUpdate(env, rel, current.spec.manifest, r, out, calls) && OneKubeUpdate(calls)
  {
    hide AllMayUpdate, NoKubeUpdate, OneKubeUpdate, Revises, PerformRefused, UpdateCalls, Plausible;
    var prior, built := current.spec.manifest, [Built(current.namespace, out)];
    RenderingMayUpdate(env, rel, prior, r, out, rendering);
    OneMayUpdate(env, rel, current, r, out, now, true);
    PerformedMayUpdate(env, rel, current, r, out, now, performed, err);
    BothMayUpdate(env, rel, prior, r, out, rendering.calls, built);
    BothMayUpdate(env, rel, prior, r, out, rendering.calls + built, performed);
  }

  lemma RefusedMayUpdate(env: Env, w: World, rel: Snapshot, rels: seq<Snapshot>, rendering: Rendering, o: Outcome,
                         calls: seq<Action>)
    requires UpdateRefused(env, w, rel, rels, rendering, o, calls)
    requires Plausible(rendering) && rendering.result.Ok? && rels != [] && LastOf(rels).namespace == env.namespace
    ensures AllMayUpdate(env, rel, LastOf(rels).spec.manifest, rendering.result.value, o.rel, calls)
    ensures OneKubeUpdate(calls)
  {
    hide AllMayUpdate, NoKubeUpdate, OneKubeUpdate, Revises, PerformRefused, MatchString, Plausible, UpdateCalls;
    var current, r := LastOf(rels), rendering.result.value;
    var prior, now := current.spec.manifest, env.clock(w.log + rendering.calls, 0);
    NothingMayUpdate(env, rel, prior, r, o.rel);
    NoneIsOne(calls);
    if calls != [] {
      var failed := [Built(current.namespace, o.rel).(ok := false)];
      if performed: seq<Action> :|
        && calls == rendering.calls + [Built(current.namespace, o.rel)] + performed
        && PerformRefused(current, o.rel, performed, o.err)
      {
        PreparedMayUpdate(env, rel, current, r, o.rel, now, rendering, performed, o.err);
      } else {
        RenderingMayUpdate(env, rel, prior, r, o.rel, rendering);
        OneMayUpdate(env, rel, current, r, o.rel, now, false);
        BothMayUpdate(env, rel, prior, r, o.rel, rendering.calls, failed);
      }
    }
  }

  // ---------- the files that are hooks ----------

  /** The file's hook annotation lists the word, and nothing keeps the file from being a hook. */
  ghost predicate ListsWord(env: Env, groups: Groups, name: string, content: string, word: string) {
    && !Underscored(name) && !AllBlank(content) && !IsNotes(name) && env.head(content).Some?
    && var head := env.head(content).value;
    && (head.version == "" || Serving(groups, head.version))
    && head.metadata.Some? && "helm.sh/hook" in head.metadata.value.annotations
    && exists k :: 0 <= k < |Split(head.metadata.value.annotations["helm.sh/hook"], ",")|
         && Spells(Split(head.metadata.value.annotations["helm.sh/hook"], ",")[k], word)
  }

  ghost predicate FileLists(env: Env, groups: Groups, files: map<string, string>, name: string, word: string) {
    name in files && ListsWord(env, groups, name, files[name], word)
  }

  lemma SpelledIsHeeded(tokens: seq<string>, events: seq<HookEvent>, i: nat, e: HookEvent)
    requires Heeds(tokens, events) && i < |tokens| && Spells(tokens[i], EventName(e))
    ensures e in events
  {
    hide Spells, EventName;
    var at: seq<nat> :| HeedsAt(tokens, events, at);
    var k :| 0 <= k < |at| && at[k] == i;
    TokenNames(tokens[i], e);
    TokenNames(tokens[i], events[k]);
  }

  /** Such a file is one of the rendered hooks. */
  lemma FileIsHook(env: Env, groups: Groups, chart: Chart, files: map<string, string>, r: Rendered, name: string,
                   e: HookEvent)
      returns (k: nat)
    requires RendersFiles(env, groups, chart, files, r) && name in files
    requires ListsWord(env, groups, name, files[name], EventName(e))
    ensures k < |r.hooks| && r.hooks[k].path == name && r.hooks[k].manifest == files[name] && e in r.hooks[k].events
  {
    hide Underscored, AllBlank, Heeds, Spells, EventName, Place, IsNotes, Split, Shows;
    var apis: set<string> :| ServedBy(groups, apis) && FilesWent(env.head, apis, files, r);
    var content := files[name];
    var tokens := Split(env.head(content).value.metadata.value.annotations["helm.sh/hook"], ",");
    var i :| 0 <= i < |tokens| && Spells(tokens[i], EventName(e));
    PlaceMeans(env.head, apis, name, content);
    HeedsRecognised(tokens);
    SpelledIsHeeded(tokens, RecognisedEvents(tokens), i, e);
    hide RecognisedEvents;
    var h := Place(env.head, apis, name, content).hook;
    assert h in r.hooks;
    k :| 0 <= k < |r.hooks| && r.hooks[k] == h;
  }

  /** Every hook that carries the event is among those asked for. */
  lemma HookIsAsked(calls: seq<Action>, hs: seq<Hook>, ns: string, event: HookEvent, timeout: int, k: nat)
      returns (i: nat)
    requires AsksHooks(calls, hs, ns, event, timeout) && k < |hs| && event in hs[k].events
    ensures i + 1 < |calls| && calls[i] == Asked(CreateResources(ns, hs[k].manifest, timeout, false), true)
    ensures calls[i + 1] == Asked(WatchUntilReady(ns, hs[k].manifest, timeout), true)
  {
    var at: seq<nat> :| PlacesOf(at, hs, event) && AsksAt(calls, hs, at, ns, timeout);
    assert Marks(at, k);
    var j :| 0 <= j < |at| && at[j] == k;
    i := 2 * j;
  }

  /** The hook's manifest is created and waited for before the action. */
  ghost predicate RunsBefore(done: seq<Action>, ns: string, manifest: string, timeout: int, action: Action) {
    exists i, j :: 0 <= i && i + 1 < j < |done| && RunsAt(done, i, ns, manifest, timeout) && done[j] == action
  }

  ghost predicate RunsAfter(done: seq<Action>, ns: string, manifest: string, timeout: int, action: Action) {
    exists i, j :: 0 <= j < i && i + 1 < |done| && RunsAt(done, i, ns, manifest, timeout) && done[j] == action
  }

  predicate RunsAt(done: seq<Action>, i: int, ns: string, manifest: string, timeout: int)
    requires 0 <= i && i + 1 < |done|
  {
    && done[i] == Asked(CreateResources(ns, manifest, timeout, false), true)
    && done[i + 1] == Asked(WatchUntilReady(ns, manifest, timeout), true)
  }

  lemma Before(done: seq<Action>, front: seq<Action>, calls: seq<Action>, action: Action, i: nat, ns: string,
               manifest: string, timeout: int)
    requires front + calls + [action] <= done && i + 1 < |calls| && RunsAt(calls, i, ns, manifest, timeout)
    ensures RunsBefore(done, ns, manifest, timeout, action)
  {
    var j := |front| + |calls|;
    assert done[j] == action && RunsAt(done, |front| + i, ns, manifest, timeout);
  }

  lemma After(done: seq<Action>, front: seq<Action>, calls: seq<Action>, action: Action, i: nat, ns: string,
              manifest: string, timeout: int)
    requires front + [action] + calls <= done && i + 1 < |calls| && RunsAt(calls, i, ns, manifest, timeout)
    ensures RunsAfter(done, ns, manifest, timeout, action)
  {
    var j := |front|;
    assert done[j] == action && RunsAt(done, j + 1 + i, ns, manifest, timeout);
  }

  /** A deployed update runs every hook of its two events. */
  lemma UpdateRunsHook(env: Env, rel: Snapshot, newest: Snapshot, rendering: Rendering, done: seq<Action>,
                       out: Snapshot, k: nat)
    requires rendering.result.Ok? && UpdateTrace(env, rel, newest, rendering, done, out) && !rel.spec.disableHooks
    requires k < |rendering.result.value.hooks|
    ensures var r, timeout := rendering.result.value, rel.spec.timeout;
            var update := Asked(UpdateResources(rel.namespace, newest.spec.manifest, r.manifest, rel.spec.recreate,
                                                timeout, rel.spec.wait), true);
            && (PRE_UPGRADE in r.hooks[k].events ==>
                  RunsBefore(done, rel.namespace, r.hooks[k].manifest, timeout, update))
            && (POST_UPGRADE in r.hooks[k].events ==>
                  RunsAfter(done, rel.namespace, r.hooks[k].manifest, timeout, update))
  {
    hide AsksHooks, RunsAt;
    var r, timeout := rendering.result.value, rel.spec.timeout;
    var update := Asked(UpdateResources(rel.namespace, newest.spec.manifest, r.manifest, rel.spec.recreate, timeout,
                                        rel.spec.wait), true);
    var before: seq<Action>, after: seq<Action> :|
      && AsksGuarded(before, rel.spec.disableHooks, r.hooks, rel.namespace, PRE_UPGRADE, rel.spec.timeout)
      && AsksGuarded(after, rel.spec.disableHooks, r.hooks, rel.namespace, POST_UPGRADE, rel.spec.timeout)
      && done == rendering.calls
                 + [Asked(BuildResources(env.namespace, r.manifest), true)]
                 + before
                 + [Asked(UpdateResources(rel.namespace, newest.spec.manifest, r.manifest, rel.spec.recreate,
                                          rel.spec.timeout, rel.spec.wait), true)]
                 + after
                 + [Put(newest.WithCode(SUPERSEDED)), Asked(Publish(out), true), Create(out)];
    var front := rendering.calls + [Asked(BuildResources(env.namespace, r.manifest), true)];
    if PRE_UPGRADE in r.hooks[k].events {
      var i := HookIsAsked(before, r.hooks, rel.namespace, PRE_UPGRADE, timeout, k);
      Before(done, front, before, update, i, rel.namespace, r.hooks[k].manifest, timeout);
    }
    if POST_UPGRADE in r.hooks[k].events {
      var i := HookIsAsked(after, r.hooks, rel.namespace, POST_UPGRADE, timeout, k);
      After(done, front + before, after, update, i, rel.namespace, r.hooks[k].manifest, timeout);
    }
  }

  lemma InstallRunsHook(rel: Snapshot, rendering: Rendering, done: seq<Action>, out: Snapshot, k: nat)
    requires rendering.result.Ok? && InstallTrace(rel, rendering, done, out) && !rel.spec.disableHooks
    requires k < |rendering.result.value.hooks|
    ensures var r, timeout := rendering.result.value, rel.spec.timeout;
            var create := Asked(CreateResources(rel.namespace, r.manifest, timeout, rel.spec.wait), true);
            && (PRE_INSTALL in r.hooks[k].events ==>
                  RunsBefore(done, rel.name, r.hooks[k].manifest, timeout, create))
            && (POST_INSTALL in r.hooks[k].events ==>
                  RunsAfter(done, rel.namespace, r.hooks[k].manifest, timeout, create))
  {
    hide AsksHooks, RunsAt;
    var r, timeout := rendering.result.value, rel.spec.timeout;
    var create := Asked(CreateResources(rel.namespace, r.manifest, timeout, rel.spec.wait), true);
    var before: seq<Action>, after: seq<Action>, published :|
      && AsksGuarded(before, rel.spec.disableHooks, r.hooks, rel.name, PRE_INSTALL, rel.spec.timeout)
      && AsksGuarded(after, rel.spec.disableHooks, r.hooks, rel.namespace, POST_INSTALL, rel.spec.timeout)
      && done == rendering.calls
                 + [Asked(BuildResources(rel.namespace, r.manifest), true)]
                 + before
                 + [Asked(CreateResources(rel.namespace, r.manifest, rel.spec.timeout, rel.spec.wait), true)]
                 + after
                 + [Asked(Publish(out), published), Create(out)];
    var front := rendering.calls + [Asked(BuildResources(rel.namespace, r.manifest), true)];
    if PRE_INSTALL in r.hooks[k].events {
      var i := HookIsAsked(before, r.hooks, rel.name, PRE_INSTALL, timeout, k);
      Before(done, front, before, create, i, rel.name, r.hooks[k].manifest, timeout);
    }
    if POST_INSTALL in r.hooks[k].events {
      var i := HookIsAsked(after, r.hooks, rel.namespace, POST_INSTALL, timeout, k);
      After(done, front + before, after, create, i, rel.namespace, r.hooks[k].manifest, timeout);
    }
  }

  /**
    An install that is recorded as DEPLOYED has run every file that lists "pre-install", in whatever case, before
    Kubernetes was asked to create the manifest, in the namespace named like the release, and every file that
    lists "post-install" after that, in the release's own.
  */
  lemma InstallRunsFiles(env: Env, w: World, rel: Snapshot, rendering: Rendering, name: string)
    requires Server.ReadForInstall(env, w, rel, rendering) && !rel.spec.disableHooks
    requires rel.spec.chart.Some? && rel.spec.chart.value.templates != [] && rendering.result.Ok?
    requires Records(Done(w, InstallRelease(env, w, rel, rendering)), DEPLOYED)
    ensures var config := if rel.spec.config == None then "" else rel.spec.config.value;
            var rendered := env.render(rel.spec.chart.value, config, Options(rel.name, rel.namespace, 1, false));
            var done := Done(w, InstallRelease(env, w, rel, rendering));
            var timeout := rel.spec.timeout;
            var create := Asked(CreateResources(rel.namespace, rendering.result.value.manifest, timeout,
                                                rel.spec.wait), true);
            && rendered.Some?
            && (FileLists(env, env.groups(w.log), rendered.value, name, "pre-install") ==>
                  RunsBefore(done, rel.name, rendered.value[name], timeout, create))
            && (FileLists(env, env.groups(w.log), rendered.value, name, "post-install") ==>
                  RunsAfter(done, rel.namespace, rendered.value[name], timeout, create))
  {
    hide InstallRelease, Done, Records, ListsWord, RendersFiles, AsksHooks;
    var config := if rel.spec.config == None then "" else rel.spec.config.value;
    var options := Options(rel.name, rel.namespace, 1, false);
    RenderingIsPlausible(env, w, rel.spec.chart.value, config, options, rendering);
    InstallRenders(env, w, rel, rendering);
    InstallDeploys(env, w, rel, rendering);
    NamesSpelledOut();
    var chart, files, r := rel.spec.chart.value, env.render(rel.spec.chart.value, config, options).value,
        rendering.result.value;
    var o := InstallRelease(env, w, rel, rendering);
    hide InstallTrace, RunsBefore, RunsAfter;
    if FileLists(env, env.groups(w.log), files, name, EventName(PRE_INSTALL)) {
      var k := FileIsHook(env, env.groups(w.log), chart, files, r, name, PRE_INSTALL);
      InstallRunsHook(rel, rendering, Done(w, o), o.rel, k);
    }
    if FileLists(env, env.groups(w.log), files, name, EventName(POST_INSTALL)) {
      var k := FileIsHook(env, env.groups(w.log), chart, files, r, name, POST_INSTALL);
      InstallRunsHook(rel, rendering, Done(w, o), o.rel, k);
    }
  }

  /**
    An update that is recorded as DEPLOYED has run every file that lists "pre-upgrade" before Kubernetes was asked
    to update, and every file that lists "post-upgrade" after that, both in the release's namespace.
  */
  lemma UpdateRunsFiles(env: Env, w: World, rel: Snapshot, rels: seq<Snapshot>, rendering: Rendering, bound: int,
                        n: int32, name: string)
    requires Server.ReadForUpdate(env, w, rel, rels, rendering) && !rel.spec.disableHooks
    requires MatchString(rel.name) && rel.spec.chart.Some? && rendering.result.Ok?
    requires WellKeyed(w.store, bound) && bound < MAX_INT32
    requires Id(rel.name, n) in w.store && forall v: int32 :: Id(rel.name, v) in w.store ==> v <= n
    requires Records(Done(w, UpdateRelease(env, w, rel, rels, rendering)), DEPLOYED)
    ensures var prior := w.store[Id(rel.name, n)].spec;
            var config := Inherited(rel.spec.config, prior.config).value;
            var rendered := env.render(rel.spec.chart.value, config, Options(rel.name, env.namespace, n + 1, true));
            var done := Done(w, UpdateRelease(env, w, rel, rels, rendering));
            var timeout := rel.spec.timeout;
            var update := Asked(UpdateResources(rel.namespace, prior.manifest, rendering.result.value.manifest,
                                                rel.spec.recreate, timeout, rel.spec.wait), true);
            && rendered.Some?
            && (FileLists(env, env.groups(w.log), rendered.value, name, "pre-upgrade") ==>
                  RunsBefore(done, rel.namespace, rendered.value[name], timeout, update))
            && (FileLists(env, env.groups(w.log), rendered.value, name, "post-upgrade") ==>
                  RunsAfter(done, rel.namespace, rendered.value[name], timeout, update))
  {
    hide UpdateRelease, Done, Records, ListsWord, RendersFiles, AsksHooks, MatchString, IsHistory, WellKeyed,
         Server.RenderingOf;
    HistoryHolds(env.namespace, w.store, rel.name, rels, n);
    NewestOf(env.namespace, w.store, rel.name, rels, bound);
    var newest, r := LastOf(rels), rendering.result.value;
    RenderingIsPlausible(env, w, rel.spec.chart.value, UpdateConfig(rel, newest), UpdateOptions(rel, newest),
                         rendering);
    UpdateRenders(env, w, rel, rels, rendering, bound, n);
    UpdateDeploys(env, w, rel, rels, rendering, bound);
    NamesSpelledOut();
    var prior := w.store[Id(rel.name, n)].spec;
    var chart, config := rel.spec.chart.value, Inherited(rel.spec.config, prior.config).value;
    var files := env.render(chart, config, Options(rel.name, env.namespace, n + 1, true)).value;
    var o := UpdateRelease(env, w, rel, rels, rendering);
    hide UpdateTrace, RunsBefore, RunsAfter;
    if FileLists(env, env.groups(w.log), files, name, EventName(PRE_UPGRADE)) {
      var k := FileIsHook(env, env.groups(w.log), chart, files, r, name, PRE_UPGRADE);
      UpdateRunsHook(env, rel, newest, rendering, Done(w, o), o.rel, k);
    }
    if FileLists(env, env.groups(w.log), files, name, EventName(POST_UPGRADE)) {
      var k := FileIsHook(env, env.groups(w.log), chart, files, r, name, POST_UPGRADE);
      UpdateRunsHook(env, rel, newest, rendering, Done(w, o), o.rel, k);
    }
  }

  // ---------- install ----------

  /** What an install may do, one action at a time, when its chart rendered. */
  ghost predicate MayInstall(rel: Snapshot, r: Rendered, out: Snapshot, a: Action) {
    a.Asked? ==>
      match a.call
      case Discover => true
      case BuildResources(ns, manifest) => ns == rel.namespace && manifest == r.manifest
      case CreateResources(ns, manifest, timeout, wait) =>
        && !rel.spec.dryRun
        && (|| (ns == rel.namespace && manifest == r.manifest && timeout == rel.spec.timeout && wait == rel.spec.wait)
            || IsInstallHook(rel, r.hooks, a.call))
      case WatchUntilReady(_, _, _) => !rel.spec.dryRun && IsInstallHook(rel, r.hooks, a.call)
      case Publish(published) => !rel.spec.dryRun && published == out
      case UpdateResources(_, _, _, _, _, _) => false
      case DeleteResources(_, _) => false
      case FetchRelease(_) => false
  }

  ghost predicate IsInstallHook(rel: Snapshot, hooks: seq<Hook>, call: Call) {
    && !rel.spec.disableHooks
    && (|| ForHook(call, hooks, rel.name, PRE_INSTALL, rel.spec.timeout)
        || ForHook(call, hooks, rel.namespace, POST_INSTALL, rel.spec.timeout))
  }

  ghost predicate AllMayInstall(rel: Snapshot, r: Rendered, out: Snapshot, actions: seq<Action>) {
    forall k :: 0 <= k < |actions| ==> MayInstall(rel, r, out, actions[k])
  }

  lemma BothMayInstall(rel: Snapshot, r: Rendered, out: Snapshot, a: seq<Action>, b: seq<Action>)
    requires AllMayInstall(rel, r, out, a) && AllMayInstall(rel, r, out, b)
    ensures AllMayInstall(rel, r, out, a + b)
  {
    hide MayInstall;
  }

  lemma HooksMayInstall(rel: Snapshot, r: Rendered, out: Snapshot, ns: string, event: HookEvent, calls: seq<Action>)
    requires calls == HookCalls(out, ns, event) || Loses(out, ns, event, calls)
    requires Restamped(r.hooks, out.spec.hooks) && !rel.spec.dryRun
    requires out.spec.disableHooks == rel.spec.disableHooks && out.spec.timeout == rel.spec.timeout
    requires (event.PRE_INSTALL? && ns == rel.name) || (event.POST_INSTALL? && ns == rel.namespace)
    ensures AllMayInstall(rel, r, out, calls)
  {
    RunsRendered(out, r.hooks, ns, event, calls);
    hide HookCalls, Loses, Restamped;
    forall k | 0 <= k < |calls| ensures MayInstall(rel, r, out, calls[k]) {
      assert ForHook(calls[k].call, r.hooks, ns, event, rel.spec.timeout);
    }
  }

  lemma PartsMayInstall(rel: Snapshot, r: Rendered, out: Snapshot, rendering: Rendering, end: InstallEnd, ok: bool)
    requires Plausible(rendering) && out.namespace == rel.namespace && out.spec.manifest == r.manifest
    requires out.spec.timeout == rel.spec.timeout && out.spec.wait == rel.spec.wait
    ensures AllMayInstall(rel, r, out, []) && AllMayInstall(rel, r, out, rendering.calls)
    ensures AllMayInstall(rel, r, out, [Asked(BuildResources(out.namespace, out.spec.manifest), ok)])
    ensures !rel.spec.dryRun ==>
              && AllMayInstall(rel, r, out, [Asked(InstallCall(out), ok)])
              && AllMayInstall(rel, r, out, InstallWrites(out, end))
  {
  }

  /**
    Whatever fails, an install validates the rendered manifest and has Kubernetes create it with the options of the
    release, runs rendered hooks of its two events unless hooks are disabled, writes the release it leaves, and
    asks for nothing else; a dry run validates, and no more.
  */
  lemma InstallAsks(env: Env, w: World, rel: Snapshot, rendering: Rendering)
    requires Plausible(rendering)
    ensures var o := InstallRelease(env, w, rel, rendering);
            var done := Done(w, o);
            && (rendering.result.Ok? ==> AllMayInstall(rel, rendering.result.value, o.rel, done))
            && (rendering.result.Err? ==> forall k :: 0 <= k < |done| ==> done[k].Asked? && done[k].call.Discover?)
  {
    hide InstallRelease, InstallCalls, AllMayInstall, Done, Restamped, Neutral, AllOk, EndsInFailure, Loses, HookCalls,
         Installs, InstallRefused, Plausible;
    var o := InstallRelease(env, w, rel, rendering);
    var calls, end := InstallOutcome(env, w, rel, rendering);
    var writes := InstallWrites(o.rel, end);
    assert calls + [] == calls;
    if rendering.result.Err? {
      DiscoversOnly(rendering);
      NothingInstalled(env, w, rel, rendering, o, calls);
    } else if end.NotInstalled? {
      RefusedMayInstall(env, w, rel, rendering, o, calls);
    } else {
      var r := rendering.result.value;
      PerformedMayInstall(rel, rendering, o.rel, env.clock(w.log + rendering.calls, 0),
                          env.clock(w.log + rendering.calls, 1), end);
      BothMayInstall(rel, r, o.rel, calls, writes);
    }
  }

  lemma NothingInstalled(env: Env, w: World, rel: Snapshot, rendering: Rendering, o: Outcome, calls: seq<Action>)
    requires InstallRefused(env, w, rel, rendering, o, calls) && rendering.result.Err?
    ensures calls == [] || calls == rendering.calls
  {
  }

  lemma RefusedMayInstall(env: Env, w: World, rel: Snapshot, rendering: Rendering, o: Outcome, calls: seq<Action>)
    requires InstallRefused(env, w, rel, rendering, o, calls) && Plausible(rendering) && rendering.result.Ok?
    ensures AllMayInstall(rel, rendering.result.value, o.rel, calls)
  {
    hide AllMayInstall, Restamped, Loses, HookCalls, EndsInFailure, Plausible;
    var r := rendering.result.value;
    NothingMayInstall(rel, r, o.rel);
    if calls != [] {
      var build := BuildResources(o.rel.namespace, o.rel.spec.manifest);
      PartsMayInstall(rel, r, o.rel, rendering, NotInstalled, true);
      PartsMayInstall(rel, r, o.rel, rendering, NotInstalled, false);
      BothMayInstall(rel, r, o.rel, rendering.calls, [Asked(build, true)]);
      BothMayInstall(rel, r, o.rel, rendering.calls, [Asked(build, false)]);
      if o.err == Some(HookFailed) && !rel.spec.dryRun
        && LosesHook(calls, rendering.calls + [Built(o.rel.namespace, o.rel)], o.rel, o.rel.name, PRE_INSTALL)
      {
        var lost: seq<Action> :|
          && calls == rendering.calls + [Built(o.rel.namespace, o.rel)] + lost
          && Loses(o.rel, o.rel.name, PRE_INSTALL, lost);
        HooksMayInstall(rel, r, o.rel, rel.name, PRE_INSTALL, lost);
        BothMayInstall(rel, r, o.rel, rendering.calls + [Asked(build, true)], lost);
      }
    }
  }

  lemma NothingMayInstall(rel: Snapshot, r: Rendered, out: Snapshot)
    ensures AllMayInstall(rel, r, out, [])
  {
  }

  lemma PerformedMayInstall(rel: Snapshot, rendering: Rendering, out: Snapshot, first: Time, last: Time,
                            end: InstallEnd)
    requires Plausible(rendering) && rendering.result.Ok? && !rel.spec.dryRun && !end.NotInstalled?
    requires Installs(rel, rendering.result.value, first, last, out)
    requires end.HookLost? ==> Loses(out, out.namespace, POST_INSTALL, end.lost)
    ensures var r := rendering.result.value;
            && AllMayInstall(rel, r, out, rendering.calls + [Built(out.namespace, out)] + InstallCalls(out, end))
            && AllMayInstall(rel, r, out, InstallWrites(out, end))
  {
    hide AllMayInstall, Restamped, Loses, HookCalls, Plausible, InstallCall;
    var r := rendering.result.value;
    var front, pre := rendering.calls + [Built(out.namespace, out)], HookCalls(out, out.name, PRE_INSTALL);
    var asked := [Asked(InstallCall(out), !end.KubeRefused?)];
    var post := if end.HookLost? then end.lost
                else if end.Installed? then HookCalls(out, out.namespace, POST_INSTALL) else [];
    PartsMayInstall(rel, r, out, rendering, end, true);
    PartsMayInstall(rel, r, out, rendering, end, !end.KubeRefused?);
    HooksMayInstall(rel, r, out, rel.name, PRE_INSTALL, pre);
    if !end.KubeRefused? { HooksMayInstall(rel, r, out, rel.namespace, POST_INSTALL, post); }
    BothMayInstall(rel, r, out, rendering.calls, [Built(out.namespace, out)]);
    BothMayInstall(rel, r, out, front, pre);
    BothMayInstall(rel, r, out, front + pre, asked);
    BothMayInstall(rel, r, out, front + pre + asked, post);
    assert front + InstallCalls(out, end) == front + pre + asked + post;
  }
}
