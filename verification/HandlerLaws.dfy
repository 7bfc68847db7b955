/**
  The few shapes a handler's writes can take, and what each says about its error: the failure
  patterns of all oracles, hooks and early returns come down to these.
*/
module HandlerLaws {
  import opened Wrappers
  import opened ReleaseKey
  import opened ReleaseName
  import opened Hapi
  import opened Worlds
  import opened KindSorter
  import opened ManifestBlob
  import opened Lifecycle
  import opened HookLaws

  /** What RenderResources may have done: calls that touch nothing, all answered when it succeeded. */
  ghost predicate Plausible(rendering: Rendering) {
    && (forall k :: 0 <= k < |rendering.calls| ==> rendering.calls[k].Asked? && rendering.calls[k].call.Discover?)
    && (rendering.result.Ok? ==> AllOk(rendering.calls))
  }

  /** A handler's calls before its writes, and the writes. */
  ghost predicate Wrote(w: World, o: Outcome, calls: seq<Action>, tail: seq<Action>) {
    && o.world.log == w.log + calls + tail
    && o.world.store == PerformAll(w.store, tail)
    && Neutral(calls)
  }

  /** What a handler did, in order. */
  function Done(w: World, o: Outcome): seq<Action> {
    if |w.log| <= |o.world.log| then o.world.log[|w.log|..] else []
  }

  lemma DoneIs(w: World, o: Outcome, calls: seq<Action>, tail: seq<Action>)
    requires o.world.log == w.log + calls + tail
    ensures Done(w, o) == calls + tail
  {
    assert w.log + calls + tail == w.log + (calls + tail);
  }

  lemma PerformFour(store: Store, actions: seq<Action>)
    requires |actions| <= 4
    ensures var n := |actions|;
            PerformAll(store, actions) ==
              if n == 0 then store
              else if n == 1 then Perform(store, actions[0])
              else if n == 2 then Perform(Perform(store, actions[0]), actions[1])
              else if n == 3 then Perform(Perform(Perform(store, actions[0]), actions[1]), actions[2])
              else Perform(Perform(Perform(Perform(store, actions[0]), actions[1]), actions[2]), actions[3])
  {
    hide Perform;
    if |actions| >= 3 {
      assert actions[1..][1..] == actions[2..] && actions[2..][1..] == actions[3..];
      PerformThree(Perform(store, actions[0]), actions[1..]);
    } else {
      PerformThree(store, actions);
    }
  }

  lemma PerformThree(store: Store, actions: seq<Action>)
    requires |actions| <= 3
    ensures var n := |actions|;
            PerformAll(store, actions) ==
              if n == 0 then store
              else if n == 1 then Perform(store, actions[0])
              else if n == 2 then Perform(Perform(store, actions[0]), actions[1])
              else Perform(Perform(Perform(store, actions[0]), actions[1]), actions[2])
  {
    hide Perform;
    if |actions| >= 1 {
      var s1, a1 := Perform(store, actions[0]), actions[1..];
      assert PerformAll(store, actions) == PerformAll(s1, a1);
      if |actions| >= 2 {
        var s2, a2 := Perform(s1, a1[0]), a1[1..];
        assert PerformAll(s1, a1) == PerformAll(s2, a2);
        if |actions| >= 3 {
          assert PerformAll(s2, a2) == PerformAll(Perform(s2, a2[0]), a2[1..]);
        }
      }
    }
  }

  // ---------- update ----------

  datatype UpdateEnd = Refused | Failed(published: bool) | Unpublished | Deployed

  /** The writes of an update that got as far as its end. */
  function UpdateWrites(current: Snapshot, rel: Snapshot, end: UpdateEnd): seq<Action> {
    var supersede := Put(current.WithCode(SUPERSEDED));
    match end
    case Refused => []
    case Failed(published) =>
      [Asked(Publish(rel), published), supersede, Create(rel)] + if published then [Create(rel)] else []
    case Unpublished => [supersede, Asked(Publish(rel), false)]
    case Deployed => [supersede, Asked(Publish(rel), true), Create(rel)]
  }

  /** The calls of an update from its hooks to its writes. */
  function UpdateCalls(current: Snapshot, rel: Snapshot, end: UpdateEnd): seq<Action> {
    HookCalls(rel, rel.namespace, PRE_UPGRADE)
    + [Asked(KubeUpdate(current, rel), !end.Failed?)]
    + if end.Failed? then [] else HookCalls(rel, rel.namespace, POST_UPGRADE)
  }

  /** The kinds of calls whose failure decides the end. */
  predicate UpdateFailedIn(calls: seq<Action>) {
    exists k :: 0 <= k < |calls| && calls[k].Asked? && calls[k].call.UpdateResources? && !calls[k].ok
  }

  /** The calls end in those of the release's hooks for an event, up to a failing one. */
  ghost predicate LosesHook(calls: seq<Action>, before: seq<Action>, rel: Snapshot, ns: string, event: HookEvent) {
    exists lost: seq<Action> :: calls == before + lost && Loses(rel, ns, event, lost)
  }

  lemma LosesHookBy(calls: seq<Action>, before: seq<Action>, lost: seq<Action>, rel: Snapshot, ns: string,
                    event: HookEvent)
    requires calls == before + lost && Loses(rel, ns, event, lost) && EndsInFailure(lost)
    ensures LosesHook(calls, before, rel, ns, event) && EndsInFailure(calls)
  {
    assert calls[|calls| - 1] == lost[|lost| - 1];
  }

  /** The ends of a prepared update that write nothing: a dry run, or a failed hook before or after Kubernetes. */
  ghost predicate PerformRefused(current: Snapshot, rel: Snapshot, calls: seq<Action>, err: Option<Error>) {
    if rel.spec.dryRun then calls == [] && err.None?
    else
      var toKube := HookCalls(rel, rel.namespace, PRE_UPGRADE) + [Asked(KubeUpdate(current, rel), true)];
      && err == Some(HookFailed) && EndsInFailure(calls)
      && (|| LosesHook(calls, [], rel, rel.namespace, PRE_UPGRADE)
          || LosesHook(calls, toKube, rel, rel.namespace, POST_UPGRADE))
  }

  lemma PerformUpdateShape(env: Env, w: World, current: Snapshot, rel: Snapshot)
      returns (calls: seq<Action>, end: UpdateEnd)
    ensures var o := PerformUpdate(env, w, current, rel);
            && (end.Refused? ==>
                  Wrote(w, o, calls, []) && !UpdateFailedIn(calls) && PerformRefused(current, o.rel, calls, o.err))
            && (end.Failed? ==>
                  && Wrote(w, o, calls, UpdateWrites(current, o.rel, end)[..3]) && UpdateFailedIn(calls)
                  && (o.err == if end.published then None else Some(PublishFailed)))
            && (end.Unpublished? || end.Deployed? ==>
                  && Wrote(w, o, calls, UpdateWrites(current, o.rel, end)[..2]) && AllOk(calls)
                  && !UpdateFailedIn(calls)
                  && (o.err == if end.Deployed? then None else Some(PublishFailed)))
            && (!end.Refused? ==> !rel.spec.dryRun && calls == UpdateCalls(current, o.rel, end))
            && o.rel == rel.(spec := rel.spec.(hooks := o.rel.spec.hooks),
                             status := rel.status.(code := if end.Refused? then rel.status.code
                                                           else if end.Failed? then FAILED else DEPLOYED))
            && Restamped(rel.spec.hooks, o.rel.spec.hooks)
  {
    hide RunHooks, FailUpdate, FinishUpdate, UpdateFailedIn, Neutral, AllOk, Perform, Restamped, HookCalls,
         OnlyHookCalls, EndsInFailure, Wrote, Loses, StampsExactly, FailsAt;
    var o := PerformUpdate(env, w, current, rel);
    calls, end := [], Refused;
    if rel.spec.dryRun {
      NothingCalled(w);
      NoWrites(w, o, []);
      RestampedItself(rel.spec.hooks);
      return;
    }
    var pre := RunHooks(env, w, rel, rel.namespace, PRE_UPGRADE);
    var preCalls := RunHooksTrace(env, w, rel, rel.namespace, PRE_UPGRADE);
    HookCallsAreHarmless(preCalls);
    if pre.err.Some? {
      NoWrites(w, o, preCalls);
      assert [] + preCalls == preCalls;
      RestampedLoss(rel, o.rel, rel.namespace, PRE_UPGRADE, preCalls);
      LosesHookBy(preCalls, [], preCalls, o.rel, rel.namespace, PRE_UPGRADE);
      return preCalls, Refused;
    }
    var update := KubeUpdate(current, pre.rel);
    var asked := Asked(update, env.answer(pre.world.log, update));
    var w1 := pre.world.Do(asked);
    calls := preCalls + [asked];
    AskingChangesNothing(pre.world, asked);
    assert w1 == World(w.store, w.log + calls);
    UpdateFailsInParts(preCalls, [asked]);
    OneUpdate(asked);
    SameHookCalls(rel, pre.rel, rel.namespace, PRE_UPGRADE);
    if !asked.ok {
      end := FailUpdateShape(env, w, calls, current, pre.rel);
      SameHookCalls(rel, o.rel, rel.namespace, PRE_UPGRADE);
      assert calls + [] == calls;
      return;
    }
    var postCalls;
    postCalls, end := FinishUpdateShape(env, w1, current, pre.rel);
    UpdateFailsInParts(calls, postCalls);
    RestampedTwice(rel.spec.hooks, pre.rel.spec.hooks, o.rel.spec.hooks);
    SameHookCalls(rel, o.rel, rel.namespace, PRE_UPGRADE);
    WroteAfter(w, calls, o, postCalls, if end.Refused? then [] else UpdateWrites(current, o.rel, end)[..2]);
    if end.Refused? { LosesHookBy(calls + postCalls, calls, postCalls, o.rel, rel.namespace, POST_UPGRADE); }
    calls := calls + postCalls;
  }

  lemma LosesHookCalls(rel: Snapshot, ns: string, event: HookEvent, calls: seq<Action>)
    requires Loses(rel, ns, event, calls)
    ensures OnlyHookCalls(calls)
  {
    hide Calls;
    var stop: nat :| FailsAt(rel, ns, event, calls, stop);
    CallsAreHookCalls(rel.spec.hooks[..stop], ns, event, rel.spec.timeout);
  }

  lemma HookCallsOnly(rel: Snapshot, ns: string, event: HookEvent)
    ensures OnlyHookCalls(HookCalls(rel, ns, event))
  {
    CallsAreHookCalls(rel.spec.hooks, ns, event, rel.spec.timeout);
  }

  /** Whatever is answered, Kubernetes is asked for no other update than from the one manifest to the other. */
  lemma PerformUpdateAsks(env: Env, w: World, current: Snapshot, rel: Snapshot)
    ensures var after := PerformUpdate(env, w, current, rel).world.log;
            && w.log <= after
            && forall k :: |w.log| <= k < |after| && after[k].Asked? && after[k].call.UpdateResources? ==>
                 after[k].call == UpdateResources(rel.namespace, current.spec.manifest, rel.spec.manifest,
                                                  rel.spec.recreate, rel.spec.timeout, rel.spec.wait)
  {
    var o := PerformUpdate(env, w, current, rel);
    hide PerformUpdate, HookCalls, Loses, EndsInFailure, Restamped, AllOk, UpdateFailedIn, PerformAll, Neutral;
    var calls, end := PerformUpdateShape(env, w, current, rel);
    forall event ensures OnlyHookCalls(HookCalls(o.rel, rel.namespace, event)) {
      HookCallsOnly(o.rel, rel.namespace, event);
    }
    forall lost, event | Loses(o.rel, rel.namespace, event, lost) ensures OnlyHookCalls(lost) {
      LosesHookCalls(o.rel, rel.namespace, event, lost);
    }
    var tail := if end.Refused? then [] else UpdateWrites(current, o.rel, end)[..if end.Failed? then 3 else 2];
    var done := calls + tail;
    assert o.world.log == w.log + done;
    assert forall k :: |w.log| <= k < |o.world.log| ==> o.world.log[k] == done[k - |w.log|];
    assert forall k :: 0 <= k < |tail| ==> !(tail[k].Asked? && tail[k].call.UpdateResources?);
    assert forall k :: |calls| <= k < |done| ==> done[k] == tail[k - |calls|];
    CallsAskOneUpdate(current, o.rel, calls, end, o.err);
  }

  lemma CallsAskOneUpdate(current: Snapshot, rel: Snapshot, calls: seq<Action>, end: UpdateEnd, err: Option<Error>)
    requires if end.Refused? then PerformRefused(current, rel, calls, err) else calls == UpdateCalls(current, rel, end)
    requires forall event :: OnlyHookCalls(HookCalls(rel, rel.namespace, event))
    requires forall lost, event :: Loses(rel, rel.namespace, event, lost) ==> OnlyHookCalls(lost)
    ensures forall k :: 0 <= k < |calls| && calls[k].Asked? && calls[k].call.UpdateResources? ==>
              calls[k].call == UpdateResources(rel.namespace, current.spec.manifest, rel.spec.manifest,
                                               rel.spec.recreate, rel.spec.timeout, rel.spec.wait)
  {
    hide HookCalls, Loses, EndsInFailure;
  }

  lemma FailUpdateShape(env: Env, w: World, calls: seq<Action>, current: Snapshot, rel: Snapshot)
      returns (end: UpdateEnd)
    requires Neutral(calls)
    ensures var o := FailUpdate(env, World(w.store, w.log + calls), current, rel);
            && end.Failed? && o.rel == rel.WithCode(FAILED)
            && Wrote(w, o, calls, UpdateWrites(current, o.rel, end)[..3])
            && (o.err == if end.published then None else Some(PublishFailed))
  {
    hide Neutral, Perform;
    var o := FailUpdate(env, World(w.store, w.log + calls), current, rel);
    end := Failed(o.err.None?);
    assert UpdateWrites(current, o.rel, end)[..3] ==
           [Asked(Publish(o.rel), end.published), Put(current.WithCode(SUPERSEDED)), Create(o.rel)];
    WroteThree(w, o, calls, Asked(Publish(o.rel), end.published), Put(current.WithCode(SUPERSEDED)), Create(o.rel));
  }

  lemma RestampedItself(hooks: seq<Hook>)
    ensures Restamped(hooks, hooks)
  {
  }

  lemma FinishUpdateShape(env: Env, w: World, current: Snapshot, rel: Snapshot)
      returns (calls: seq<Action>, end: UpdateEnd)
    ensures var o := FinishUpdate(env, w, current, rel);
            && !end.Failed? && !UpdateFailedIn(calls)
            && (end.Refused? ==>
                  && Wrote(w, o, calls, []) && o.err == Some(HookFailed) && EndsInFailure(calls)
                  && Loses(o.rel, o.rel.namespace, POST_UPGRADE, calls))
            && (!end.Refused? ==>
                  && Wrote(w, o, calls, UpdateWrites(current, o.rel, end)[..2]) && AllOk(calls)
                  && calls == HookCalls(o.rel, o.rel.namespace, POST_UPGRADE)
                  && (o.err == if end.Deployed? then None else Some(PublishFailed)))
            && o.rel == rel.(spec := rel.spec.(hooks := o.rel.spec.hooks),
                             status := rel.status.(code := if end.Refused? then rel.status.code else DEPLOYED))
            && Restamped(rel.spec.hooks, o.rel.spec.hooks)
  {
    hide RunHooks, UpdateFailedIn, Neutral, AllOk, Perform, Restamped, HookCalls, OnlyHookCalls, EndsInFailure, Loses,
         StampsExactly, FailsAt;
    var o := FinishUpdate(env, w, current, rel);
    var post := RunHooks(env, w, rel, rel.namespace, POST_UPGRADE);
    calls := RunHooksTrace(env, w, rel, rel.namespace, POST_UPGRADE);
    HookCallsAreHarmless(calls);
    if post.err.Some? {
      NoWrites(w, o, calls);
      RestampedLoss(rel, o.rel, rel.namespace, POST_UPGRADE, calls);
      return calls, Refused;
    }
    SameHookCalls(rel, o.rel, rel.namespace, POST_UPGRADE);
    end := if o.err.None? then Deployed else Unpublished;
    assert UpdateWrites(current, o.rel, end)[..2]
        == [Put(current.WithCode(SUPERSEDED)), Asked(Publish(o.rel), end.Deployed?)];
    TwoWrites(w, calls, Put(current.WithCode(SUPERSEDED)), Asked(Publish(o.rel), end.Deployed?));
  }

  lemma SameHookCalls(before: Snapshot, after: Snapshot, ns: string, event: HookEvent)
    requires before.spec.disableHooks == after.spec.disableHooks && before.spec.timeout == after.spec.timeout
    requires before.spec.hooks == after.spec.hooks || Restamped(before.spec.hooks, after.spec.hooks)
    ensures HookCalls(before, ns, event) == HookCalls(after, ns, event)
    ensures Restamped(before.spec.hooks, after.spec.hooks)
  {
    RestampedCalls(before.spec.hooks, after.spec.hooks, ns, event, before.spec.timeout);
  }

  lemma RestampedBack(a: seq<Hook>, b: seq<Hook>)
    requires Restamped(a, b)
    ensures Restamped(b, a)
  {
  }

  lemma RestampedTwice(a: seq<Hook>, b: seq<Hook>, c: seq<Hook>)
    requires Restamped(a, b) && Restamped(b, c)
    ensures Restamped(a, c)
  {
  }

  lemma AskingChangesNothing(w: World, a: Action)
    requires a.Asked?
    ensures w.Do(a) == World(w.store, w.log + [a])
  {
  }

  lemma TwoWrites(w: World, calls: seq<Action>, a: Action, b: Action)
    ensures World(w.store, w.log + calls).Do(a).Do(b) == World(PerformAll(w.store, [a, b]), w.log + calls + [a, b])
  {
    PerformThree(w.store, [a, b]);
    assert w.log + calls + [a] + [b] == w.log + calls + [a, b];
  }

  /** More calls and writes after calls that touched nothing. */
  lemma WroteAfter(w: World, before: seq<Action>, o: Outcome, calls: seq<Action>, tail: seq<Action>)
    requires Neutral(before) && Wrote(World(w.store, w.log + before), o, calls, tail)
    ensures Wrote(w, o, before + calls, tail)
  {
    assert w.log + before + calls == w.log + (before + calls);
    UpdateFailsInParts(before, calls);
  }

  lemma WroteTwo(w: World, o: Outcome, calls: seq<Action>, a: Action, b: Action)
    requires Neutral(calls) && o.world == World(w.store, w.log + calls).Do(a).Do(b)
    ensures Wrote(w, o, calls, [a, b])
  {
    TwoWrites(w, calls, a, b);
  }

  lemma WroteThree(w: World, o: Outcome, calls: seq<Action>, a: Action, b: Action, c: Action)
    requires Neutral(calls) && o.world == World(w.store, w.log + calls).Do(a).Do(b).Do(c)
    ensures Wrote(w, o, calls, [a, b, c])
  {
    ThreeWrites(w, calls, a, b, c);
  }

  lemma ThreeWrites(w: World, calls: seq<Action>, a: Action, b: Action, c: Action)
    ensures World(w.store, w.log + calls).Do(a).Do(b).Do(c)
            == World(PerformAll(w.store, [a, b, c]), w.log + calls + [a, b, c])
  {
    PerformThree(w.store, [a, b, c]);
    assert w.log + calls + [a] + [b] + [c] == w.log + calls + [a, b, c];
  }

  lemma NothingCalled(w: World)
    ensures w.log + [] == w.log && w.log + [] + [] == w.log && Neutral([]) && !UpdateFailedIn([])
  {
  }

  lemma OneUpdate(a: Action)
    requires a.Asked? && a.call.UpdateResources?
    ensures Neutral([a]) && (UpdateFailedIn([a]) <==> !a.ok) && (AllOk([a]) <==> a.ok)
  {
    assert [a][0] == a;
  }

  /** Hook calls are neutral, and fail no update. */
  lemma HookCallsAreHarmless(calls: seq<Action>)
    requires OnlyHookCalls(calls)
    ensures Neutral(calls) && !UpdateFailedIn(calls)
  {
  }

  lemma UpdateFailsInParts(a: seq<Action>, b: seq<Action>)
    ensures UpdateFailedIn(a + b) <==> UpdateFailedIn(a) || UpdateFailedIn(b)
    ensures Neutral(a + b) <==> Neutral(a) && Neutral(b)
    ensures AllOk(a + b) <==> AllOk(a) && AllOk(b)
  {
    var ab := a + b;
    assert forall k :: 0 <= k < |b| ==> ab[|a| + k] == b[k];
    assert forall k :: 0 <= k < |a| ==> ab[k] == a[k];
    if UpdateFailedIn(a) {
      var k :| 0 <= k < |a| && a[k].Asked? && a[k].call.UpdateResources? && !a[k].ok;
      assert ab[k] == a[k];
    }
    if UpdateFailedIn(b) {
      var k :| 0 <= k < |b| && b[k].Asked? && b[k].call.UpdateResources? && !b[k].ok;
      assert ab[|a| + k] == b[k];
    }
  }

  function NewNotes(rel: Snapshot, r: Rendered): string {
    if r.notes == "" then rel.status.notes else r.notes
  }

  /** What an update makes of the release it was called with, whatever revision that one carried. */
  ghost predicate Revises(rel: Snapshot, current: Snapshot, r: Rendered, now: Time, out: Snapshot) {
    && out == rel.(spec := rel.spec.(config := DefaultConfig(ReuseValues(rel, current)).spec.config,
                                     hooks := out.spec.hooks,
                                     version := NextVersion(current),
                                     manifest := r.manifest),
                   status := ReleaseStatus(out.status.code, rel.status.details, NewNotes(rel, r),
                                           NextVersion(current), now, current.status.firstDeployed))
    && Restamped(r.hooks, out.spec.hooks)
  }

  /** The manifest is validated. */
  function Built(ns: string, rel: Snapshot): Action {
    Asked(BuildResources(ns, rel.spec.manifest), true)
  }

  /**
    How an update stops without a write, in the order of the reasons: what it did, its error, and the release
    it leaves.
  */
  ghost predicate UpdateRefused(env: Env, w: World, rel: Snapshot, rels: seq<Snapshot>, rendering: Rendering,
                                o: Outcome, calls: seq<Action>) {
    if !MatchString(rel.name) then calls == [] && o.err == Some(MissingRelease) && o.rel == rel
    else if rel.spec.chart.None? then calls == [] && o.err == Some(MissingChart) && o.rel == rel
    else if rels == [] then calls == [] && o.err == Some(ReleaseNotFound) && o.rel == rel
    else if rendering.result.Err? then
      && calls == rendering.calls && o.err == Some(rendering.result.error)
      && o.rel == DefaultConfig(ReuseValues(rel, LastOf(rels)))
    else
      var current := LastOf(rels);
      && Revises(rel, current, rendering.result.value, env.clock(w.log + rendering.calls, 0), o.rel)
      && o.rel.status.code == rel.status.code
      && (|| (&& calls == rendering.calls + [Built(current.namespace, o.rel).(ok := false)]
              && o.err == Some(ValidationFailed))
          || exists performed: seq<Action> ::
               && calls == rendering.calls + [Built(current.namespace, o.rel)] + performed
               && PerformRefused(current, o.rel, performed, o.err))
  }

  lemma PreparedUpdate(env: Env, w: World, rel: Snapshot, rels: seq<Snapshot>, rendering: Rendering)
      returns (calls: seq<Action>)
    requires Plausible(rendering)
    ensures var p := PrepareUpdate(env, w, rel, rels, rendering);
            && p.world == World(w.store, w.log + calls)
            && Neutral(calls) && !UpdateFailedIn(calls)
            && (p.err.Some? ==> UpdateRefused(env, w, rel, rels, rendering, p, calls))
            && (p.err.None? ==>
                  && MatchString(rel.name) && rel.spec.chart.Some? && rels != [] && rendering.result.Ok? && AllOk(calls)
                  && calls == rendering.calls + [Built(LastOf(rels).namespace, p.rel)]
                  && p.rel == Revised(env, World(w.store, w.log + rendering.calls),
                                      DefaultConfig(ReuseValues(rel, LastOf(rels))), LastOf(rels),
                                      rendering.result.value))
  {
    hide MatchString, Revised;
    var p := PrepareUpdate(env, w, rel, rels, rendering);
    if p.world == w {
      NothingCalled(w);
      return [];
    }
    calls := rendering.calls;
    if rendering.result.Ok? {
      var w1 := World(w.store, w.log + rendering.calls);
      var build := BuildResources(LastOf(rels).namespace, p.rel.spec.manifest);
      var asked := Asked(build, env.answer(w1.log, build));
      assert w.log + rendering.calls + [asked] == w.log + (rendering.calls + [asked]);
      calls := rendering.calls + [asked];
      RevisedRevises(env, w1, rel, LastOf(rels), rendering.result.value);
    }
  }

  lemma RevisedRevises(env: Env, w: World, rel: Snapshot, current: Snapshot, r: Rendered)
    ensures var out := Revised(env, w, DefaultConfig(ReuseValues(rel, current)), current, r);
            Revises(rel, current, r, env.clock(w.log, 0), out) && out.status.code == rel.status.code
  {
  }

  lemma UpdateShape(env: Env, w: World, rel: Snapshot, rels: seq<Snapshot>, rendering: Rendering)
      returns (calls: seq<Action>, end: UpdateEnd)
    requires Plausible(rendering)
    ensures var o := UpdateRelease(env, w, rel, rels, rendering);
            && (end.Refused? ==> Wrote(w, o, calls, []) && UpdateRefused(env, w, rel, rels, rendering, o, calls))
            && (!end.Refused? ==>
                  && MatchString(rel.name) && rel.spec.chart.Some? && rels != []
                  && rendering.result.Ok? && !rel.spec.dryRun
                  && Wrote(w, o, calls, UpdateWrites(LastOf(rels), o.rel, end))
                  && Revises(rel, LastOf(rels), rendering.result.value, env.clock(w.log + rendering.calls, 0), o.rel)
                  && calls == rendering.calls + [Built(LastOf(rels).namespace, o.rel)]
                              + UpdateCalls(LastOf(rels), o.rel, end)
                  && o.rel.status.code == (if end.Failed? then FAILED else DEPLOYED)
                  && o.err == UpdateError(w.store, o.rel, end))
            && (end.Failed? <==> UpdateFailedIn(calls))
            && (end.Unpublished? || end.Deployed? ==> AllOk(calls))
  {
    hide UpdateFailedIn, Neutral, AllOk, MatchString, PerformUpdate, PrepareUpdate, UpdateWrites, UpdateCalls,
         Restamped;
    var p := PrepareUpdate(env, w, rel, rels, rendering);
    var prepCalls := PreparedUpdate(env, w, rel, rels, rendering);
    if p.err.Some? {
      calls, end := prepCalls, Refused;
      NoWrites(w, UpdateRelease(env, w, rel, rels, rendering), calls);
      return;
    }
    var current := LastOf(rels);
    var done := PerformUpdate(env, p.world, current, p.rel);
    var updateCalls;
    updateCalls, end := PerformUpdateShape(env, p.world, current, p.rel);
    UpdateFailsInParts(prepCalls, updateCalls);
    calls := prepCalls + updateCalls;
    RevisedRevises(env, World(w.store, w.log + rendering.calls), rel, current, rendering.result.value);
    EndOfUpdate(env, w, rel, rels, rendering, prepCalls, updateCalls, end);
  }

  /** The error an update reports, by its end. */
  function UpdateError(store: Store, rel: Snapshot, end: UpdateEnd): Option<Error> {
    match end
    case Refused => None
    case Failed(published) => Some(if published then ReleaseExists else PublishFailed)
    case Unpublished => Some(PublishFailed)
    case Deployed => if IdOf(rel) in store then Some(ReleaseExists) else None
  }

  lemma NoWrites(w: World, o: Outcome, calls: seq<Action>)
    requires o.world == World(w.store, w.log + calls) && Neutral(calls)
    ensures Wrote(w, o, calls, [])
  {
    assert w.log + calls + [] == w.log + calls;
  }

  lemma EndOfUpdate(env: Env, w: World, rel: Snapshot, rels: seq<Snapshot>, rendering: Rendering, before: seq<Action>,
                    after: seq<Action>, end: UpdateEnd)
    requires var p := PrepareUpdate(env, w, rel, rels, rendering);
             && rels != [] && p.err.None? && p.world == World(w.store, w.log + before)
             && var done := PerformUpdate(env, p.world, LastOf(rels), p.rel);
                && (end.Refused? ==>
                      && Wrote(p.world, done, after, [])
                      && PerformRefused(LastOf(rels), done.rel, after, done.err))
                && (end.Failed? ==>
                      && Wrote(p.world, done, after, UpdateWrites(LastOf(rels), done.rel, end)[..3])
                      && done.err == if end.published then None else Some(PublishFailed))
                && (end.Unpublished? || end.Deployed? ==>
                      && Wrote(p.world, done, after, UpdateWrites(LastOf(rels), done.rel, end)[..2])
                      && done.err == if end.Deployed? then None else Some(PublishFailed))
                && (!end.Refused? ==> !done.rel.spec.dryRun)
    requires Neutral(before + after)
    ensures var o := UpdateRelease(env, w, rel, rels, rendering);
            && o.rel == PerformUpdate(env, PrepareUpdate(env, w, rel, rels, rendering).world, LastOf(rels),
                                      PrepareUpdate(env, w, rel, rels, rendering).rel).rel
            && (end.Refused? ==>
                  Wrote(w, o, before + after, []) && PerformRefused(LastOf(rels), o.rel, after, o.err))
            && (!end.Refused? ==>
                  && Wrote(w, o, before + after, UpdateWrites(LastOf(rels), o.rel, end))
                  && o.err == UpdateError(w.store, o.rel, end))
  {
    hide PrepareUpdate, PerformUpdate, Neutral, Perform;
    var p := PrepareUpdate(env, w, rel, rels, rendering);
    var done := PerformUpdate(env, p.world, LastOf(rels), p.rel);
    var writes := UpdateWrites(LastOf(rels), done.rel, end);
    assert w.log + before + after == w.log + (before + after);
    CreateAgain(w.store, LastOf(rels), done.rel, end);
    match end
    case Refused =>
    case Failed(published) =>
      if published { assert writes == writes[..3] + [Create(done.rel)]; } else { assert writes == writes[..3]; }
    case Unpublished => assert writes == writes[..2];
    case Deployed => assert writes == writes[..2] + [Create(done.rel)];
  }

  /** Where the writes leave the archive, and whether the last Create finds its key taken. */
  lemma CreateAgain(store: Store, current: Snapshot, rel: Snapshot, end: UpdateEnd)
    ensures var writes := UpdateWrites(current, rel, end);
            && (end.Failed? ==>
                  && IdOf(rel) in PerformAll(store, writes[..3])
                  && PerformAll(store, writes)
                     == if end.published then Perform(PerformAll(store, writes[..3]), Create(rel))
                        else PerformAll(store, writes[..3]))
            && (end.Deployed? ==>
                  && (IdOf(rel) in PerformAll(store, writes[..2]) <==> IdOf(rel) in store)
                  && PerformAll(store, writes) == Perform(PerformAll(store, writes[..2]), Create(rel)))
            && (end.Unpublished? ==> PerformAll(store, writes) == PerformAll(store, writes[..2]))
  {
    var writes := UpdateWrites(current, rel, end);
    PerformFour(store, writes);
    if end.Failed? {
      PerformThree(store, writes[..3]);
      assert !end.published ==> writes[..3] == writes;
    } else if !end.Refused? {
      PerformThree(store, writes[..2]);
      assert end.Unpublished? ==> writes[..2] == writes;
    }
  }

  // ---------- install ----------

  /** `lost` are the calls of the post-install hooks, up to the failing one. */
  datatype InstallEnd =
    | NotInstalled
    | KubeRefused(published: bool)
    | HookLost(lost: seq<Action>, published: bool)
    | Installed(published: bool)

  /** The writes of an install that reached Kubernetes. */
  function InstallWrites(rel: Snapshot, end: InstallEnd): seq<Action> {
    if end.NotInstalled? then [] else [Asked(Publish(rel), end.published), Create(rel)]
  }

  function InstallCall(rel: Snapshot): Call {
    CreateResources(rel.namespace, rel.spec.manifest, rel.spec.timeout, rel.spec.wait)
  }

  function InstallError(end: InstallEnd): Option<Error> {
    match end
    case NotInstalled => None
    case KubeRefused(_) => Some(KubeFailed)
    case HookLost(_, published) => if published then None else Some(PublishFailed)
    case Installed(_) => None
  }

  /**
    The calls of an install from its hooks to its writes; pre-install hooks run in the namespace named like
    the release.
  */
  function InstallCalls(rel: Snapshot, end: InstallEnd): seq<Action> {
    HookCalls(rel, rel.name, PRE_INSTALL)
    + [Asked(InstallCall(rel), !end.KubeRefused?)]
    + match end
      case HookLost(lost, _) => lost
      case Installed(_) => HookCalls(rel, rel.namespace, POST_INSTALL)
      case _ => []
  }

  /** What an install makes of the release it was called with. */
  ghost predicate Installs(rel: Snapshot, r: Rendered, first: Time, last: Time, out: Snapshot) {
    && out == rel.(spec := rel.spec.(config := DefaultConfig(rel).spec.config,
                                     hooks := out.spec.hooks,
                                     version := 1,
                                     manifest := r.manifest),
                   status := ReleaseStatus(out.status.code, rel.status.details, NewNotes(rel, r), 1, last, first))
    && Restamped(r.hooks, out.spec.hooks)
  }

  /**
    How an install stops without a write, in the order of the reasons: what it did, its error, and the release
    it leaves.
  */
  ghost predicate InstallRefused(env: Env, w: World, rel: Snapshot, rendering: Rendering, o: Outcome,
                                 calls: seq<Action>) {
    if rel.spec.chart.None? || rel.spec.chart.value.templates == [] then
      calls == [] && o.err == Some(MissingChart) && o.rel == rel
    else if rendering.result.Err? then
      calls == rendering.calls && o.err == Some(rendering.result.error) && o.rel == DefaultConfig(rel)
    else
      var now := World(w.store, w.log + rendering.calls);
      && Prepares(rel, rendering.result.value, env.clock(now.log, 0), env.clock(now.log, 1), o.rel)
      && (|| (&& calls == rendering.calls + [Built(o.rel.namespace, o.rel).(ok := false)]
              && o.err == Some(ValidationFailed))
          || (calls == rendering.calls + [Built(o.rel.namespace, o.rel)] && o.err.None? && rel.spec.dryRun)
          || (&& !rel.spec.dryRun && o.err == Some(HookFailed) && EndsInFailure(calls)
              && LosesHook(calls, rendering.calls + [Built(o.rel.namespace, o.rel)], o.rel, o.rel.name, PRE_INSTALL)))
  }

  /** The release as it is before Kubernetes is asked to install it. */
  ghost predicate Prepares(rel: Snapshot, r: Rendered, first: Time, last: Time, out: Snapshot) {
    && Installs(rel, r, first, last, out.(status := out.status.(lastDeployedVersion := 1)))
    && out.status.lastDeployedVersion == rel.status.lastDeployedVersion && out.status.code == UNKNOWN
  }

  lemma PerformReleaseShape(env: Env, w: World, rel: Snapshot) returns (calls: seq<Action>, end: InstallEnd)
    ensures var o := PerformRelease(env, w, rel);
            && Wrote(w, o, calls, InstallWrites(o.rel, end))
            && (end.NotInstalled? ==>
                  && o.rel == rel.(spec := rel.spec.(hooks := o.rel.spec.hooks))
                  && Restamped(rel.spec.hooks, o.rel.spec.hooks)
                  && if rel.spec.dryRun then calls == [] && o.err.None?
                     else
                       && o.err == Some(HookFailed) && EndsInFailure(calls)
                       && Loses(o.rel, o.rel.name, PRE_INSTALL, calls))
            && (!end.NotInstalled? ==>
                  && !rel.spec.dryRun
                  && o.err == InstallError(end)
                  && o.rel == rel.(spec := rel.spec.(hooks := o.rel.spec.hooks),
                                   status := rel.status.(code := if end.Installed? then DEPLOYED else FAILED,
                                                         lastDeployedVersion := 1))
                  && Restamped(rel.spec.hooks, o.rel.spec.hooks)
                  && calls == InstallCalls(o.rel, end))
            && (end.Installed? ==> AllOk(calls))
            && (end.HookLost? ==> EndsInFailure(end.lost) && Loses(o.rel, o.rel.namespace, POST_INSTALL, end.lost))
  {
    hide RunHooks, FinishRelease, Neutral, AllOk, Perform, UpdateFailedIn, Restamped, HookCalls, OnlyHookCalls,
         EndsInFailure, Wrote, Loses, StampsExactly, FailsAt;
    var o := PerformRelease(env, w, rel);
    calls, end := [], NotInstalled;
    if rel.spec.dryRun {
      NothingCalled(w);
      NoWrites(w, o, []);
      RestampedItself(rel.spec.hooks);
      return;
    }
    var pre := RunHooks(env, w, rel, rel.name, PRE_INSTALL);
    var preCalls := RunHooksTrace(env, w, rel, rel.name, PRE_INSTALL);
    HookCallsAreHarmless(preCalls);
    if pre.err.Some? {
      NoWrites(w, o, preCalls);
      RestampedLoss(rel, o.rel, rel.name, PRE_INSTALL, preCalls);
      return preCalls, NotInstalled;
    }
    var rel1 := pre.rel.(status := pre.rel.status.(lastDeployedVersion := 1));
    var asked := Asked(InstallCall(rel1), env.answer(pre.world.log, InstallCall(rel1)));
    var w1 := pre.world.Do(asked);
    calls := preCalls + [asked];
    AskingChangesNothing(pre.world, asked);
    assert w1 == World(w.store, w.log + calls);
    UpdateFailsInParts(preCalls, [asked]);
    OneCall(asked);
    if !asked.ok {
      SameHookCalls(rel, o.rel, rel.name, PRE_INSTALL);
      assert calls + [] == calls;
      end := KubeRefused(env.answer(w1.log, Publish(o.rel)));
      WroteTwo(w, o, calls, Asked(Publish(o.rel), end.published), Create(o.rel));
      return;
    }
    var postCalls;
    postCalls, end := FinishReleaseShape(env, w1, rel1);
    UpdateFailsInParts(calls, postCalls);
    RestampedTwice(rel.spec.hooks, pre.rel.spec.hooks, o.rel.spec.hooks);
    SameHookCalls(rel, o.rel, rel.name, PRE_INSTALL);
    WroteAfter(w, calls, o, postCalls, InstallWrites(o.rel, end));
    calls := calls + postCalls;
  }

  lemma FinishReleaseShape(env: Env, w: World, rel: Snapshot) returns (calls: seq<Action>, end: InstallEnd)
    ensures var o := FinishRelease(env, w, rel);
            && Wrote(w, o, calls, InstallWrites(o.rel, end))
            && (end.HookLost? || end.Installed?)
            && o.err == InstallError(end)
            && o.rel == rel.(spec := rel.spec.(hooks := o.rel.spec.hooks),
                             status := rel.status.(code := if end.Installed? then DEPLOYED else FAILED))
            && Restamped(rel.spec.hooks, o.rel.spec.hooks)
            && (end.Installed? ==> AllOk(calls) && calls == HookCalls(o.rel, o.rel.namespace, POST_INSTALL))
            && (end.HookLost? ==>
                  calls == end.lost && EndsInFailure(calls) && Loses(o.rel, o.rel.namespace, POST_INSTALL, calls))
  {
    hide RunHooks, Neutral, AllOk, Perform, Restamped, HookCalls, OnlyHookCalls, EndsInFailure, UpdateFailedIn, Loses,
         StampsExactly, FailsAt;
    var o := FinishRelease(env, w, rel);
    var post := RunHooks(env, w, rel, rel.namespace, POST_INSTALL);
    calls := RunHooksTrace(env, w, rel, rel.namespace, POST_INSTALL);
    HookCallsAreHarmless(calls);
    SameHookCalls(rel, o.rel, rel.namespace, POST_INSTALL);
    var published := env.answer(post.world.log, Publish(o.rel));
    end := if post.err.Some? then HookLost(calls, published) else Installed(published);
    if post.err.Some? { RestampedLoss(rel, o.rel, rel.namespace, POST_INSTALL, calls); }
    TwoWrites(w, calls, Asked(Publish(o.rel), published), Create(o.rel));
  }

  lemma OneCall(a: Action)
    requires a.Asked? && !a.call.Publish?
    ensures Neutral([a]) && (AllOk([a]) <==> a.ok)
  {
    assert [a][0] == a;
  }

  lemma InstallShape(env: Env, w: World, rel: Snapshot, rendering: Rendering)
      returns (calls: seq<Action>, end: InstallEnd)
    requires Plausible(rendering)
    ensures var o := InstallRelease(env, w, rel, rendering);
            && Wrote(w, o, calls, InstallWrites(o.rel, end))
            && (end.NotInstalled? ==> InstallRefused(env, w, rel, rendering, o, calls))
            && (!end.NotInstalled? ==>
                  && rendering.result.Ok? && !rel.spec.dryRun
                  && o.err == InstallError(end)
                  && o.rel.status.code == (if end.Installed? then DEPLOYED else FAILED)
                  && Installs(rel, rendering.result.value, env.clock(w.log + rendering.calls, 0),
                              env.clock(w.log + rendering.calls, 1), o.rel)
                  && calls == rendering.calls + [Built(o.rel.namespace, o.rel)] + InstallCalls(o.rel, end))
            && (end.Installed? ==> AllOk(calls))
            && (end.HookLost? ==> EndsInFailure(end.lost) && Loses(o.rel, o.rel.namespace, POST_INSTALL, end.lost))
  {
    hide Neutral, AllOk, PerformRelease, Perform, UpdateFailedIn, InstallCalls, Restamped, EndsInFailure, Loses;
    var o := InstallRelease(env, w, rel, rendering);
    var p := PrepareRelease(env, w, rel, rendering);
    var prepCalls := PreparedRelease(env, w, rel, rendering);
    if p.err.Some? {
      NoWrites(w, o, prepCalls);
      return prepCalls, NotInstalled;
    }
    var performCalls;
    performCalls, end := PerformReleaseShape(env, p.world, p.rel);
    UpdateFailsInParts(prepCalls, performCalls);
    calls := prepCalls + performCalls;
    assert prepCalls + [] == prepCalls;
    if end.NotInstalled? && !p.rel.spec.dryRun {
      LosesHookBy(calls, prepCalls, performCalls, o.rel, o.rel.name, PRE_INSTALL);
    }
    assert w.log + prepCalls + performCalls == w.log + calls;
  }

  lemma PreparedRelease(env: Env, w: World, rel: Snapshot, rendering: Rendering) returns (calls: seq<Action>)
    requires Plausible(rendering)
    ensures var p := PrepareRelease(env, w, rel, rendering);
            && p.world == World(w.store, w.log + calls)
            && Neutral(calls)
            && (p.err.Some? ==> InstallRefused(env, w, rel, rendering, p, calls))
            && (p.err.None? ==>
                  && rel.spec.chart.Some? && rel.spec.chart.value.templates != []
                  && rendering.result.Ok? && AllOk(calls)
                  && calls == rendering.calls + [Built(p.rel.namespace, p.rel)]
                  && Prepares(rel, rendering.result.value, env.clock(w.log + rendering.calls, 0),
                              env.clock(w.log + rendering.calls, 1), p.rel)
                  && p.rel == Fresh(env, World(w.store, w.log + rendering.calls), DefaultConfig(rel),
                                    rendering.result.value))
  {
    hide Fresh;
    var p := PrepareRelease(env, w, rel, rendering);
    if p.world == w {
      NothingCalled(w);
      return [];
    }
    calls := rendering.calls;
    if rendering.result.Ok? {
      var w1 := World(w.store, w.log + rendering.calls);
      var build := BuildResources(p.rel.namespace, p.rel.spec.manifest);
      var asked := Asked(build, env.answer(w1.log, build));
      assert w.log + rendering.calls + [asked] == w.log + (rendering.calls + [asked]);
      calls := rendering.calls + [asked];
      FreshPrepares(env, w1, rel, rendering.result.value);
    }
  }

  lemma FreshPrepares(env: Env, w: World, rel: Snapshot, r: Rendered)
    ensures Prepares(rel, r, env.clock(w.log, 0), env.clock(w.log, 1), Fresh(env, w, DefaultConfig(rel), r))
  {
  }

  // ---------- uninstall ----------

  /** Asking, and rewriting one revision, is all that happens. */
  ghost predicate OnlyRewrites(actions: seq<Action>, newest: Snapshot) {
    forall k :: 0 <= k < |actions| ==>
      || (actions[k].Asked? && !actions[k].call.Publish?)
      || (actions[k].Put? && Rewrites(newest, actions[k].rel))
  }

  /** The same revision with another status code, and hooks stamped. */
  ghost predicate Rewrites(before: Snapshot, after: Snapshot) {
    && after == before.(spec := before.spec.(hooks := after.spec.hooks),
                        status := before.status.(code := after.status.code))
    && Restamped(before.spec.hooks, after.spec.hooks)
  }

  /** One delete call per file, in their order, whatever the answers. */
  ghost predicate Deletes(calls: seq<Action>, ns: string, files: seq<Manifest>) {
    && |calls| == |files|
    && forall k :: 0 <= k < |calls| ==> calls[k].Asked? && calls[k].call == DeleteResources(ns, files[k].content)
  }

  predicate NoDeletes(calls: seq<Action>) {
    forall k :: 0 <= k < |calls| && calls[k].Asked? ==> !calls[k].call.DeleteResources?
  }

  function Failures(calls: seq<Action>): nat {
    if calls == [] then 0
    else
      var last := calls[|calls| - 1];
      Failures(calls[..|calls| - 1]) + if last.Asked? && !last.ok then 1 else 0
  }

  /** Every failed deletion counts, and a failed post-delete hook once. */
  function DeletionError(deletes: seq<Action>, after: seq<Action>): Option<Error> {
    var errors := Failures(deletes) + if EndsInFailure(after) then 1 else 0;
    if errors > 0 then Some(DeletionErrors(errors)) else None
  }

  lemma {:induction false} DeleteAllTrace(env: Env, w: World, ns: string, files: seq<Manifest>)
      returns (calls: seq<Action>)
    ensures var d := DeleteAll(env, w, ns, files);
            d.world == World(w.store, w.log + calls) && Deletes(calls, ns, files) && d.errors == Failures(calls)
    decreases |files|
  {
    calls := [];
    if files == [] {
      assert w.log + [] == w.log;
    } else {
      var init := files[..|files| - 1];
      calls := DeleteAllTrace(env, w, ns, init);
      var d := DeleteAll(env, w, ns, init);
      var call := DeleteResources(ns, files[|files| - 1].content);
      var asked := Asked(call, env.answer(d.world.log, call));
      assert w.log + calls + [asked] == w.log + (calls + [asked]);
      assert (calls + [asked])[..|calls|] == calls;
      calls := calls + [asked];
    }
  }

  datatype UninstallEnd = Stopped | Corrupt | Deleted

  /** What an uninstall asks for first: its pre-delete hooks, and the API versions. */
  function BeforeDeleting(env: Env, w: World, newest: Snapshot): Outcome {
    RunHooks(env, w, newest.WithCode(DELETING), newest.namespace, PRE_DELETE)
  }

  predicate StopsEarly(env: Env, w: World, newest: Snapshot) {
    var pre := BeforeDeleting(env, w, newest);
    pre.err.Some? || env.groups(pre.world.log) == Unreachable
  }

  /** How an uninstall stops before its first write. */
  ghost predicate UninstallStopped(newest: Snapshot, calls: seq<Action>, err: Option<Error>) {
    || (Loses(newest, newest.namespace, PRE_DELETE, calls) && EndsInFailure(calls) && err == Some(HookFailed))
    || (calls == HookCalls(newest, newest.namespace, PRE_DELETE) + [Asked(Discover, false)]
        && err == Some(DiscoveryFailed))
  }

  lemma UninstallShape(env: Env, w: World, newest: Snapshot, listing: Result<seq<Manifest>, Error>)
      returns (before: seq<Action>, deletes: seq<Action>, after: seq<Action>, end: UninstallEnd)
    ensures var o := UninstallNewest(env, w, newest, listing);
            && Neutral(before) && OnlyHookCalls(after) && NoDeletes(before) && NoDeletes(after)
            && Rewrites(newest, o.rel)
            && (end.Stopped? <==> StopsEarly(env, w, newest))
            && (end.Stopped? ==> o.world.log == w.log + before && UninstallStopped(newest, before, o.err))
            && (end.Corrupt? ==>
                  && before == HookCalls(newest, newest.namespace, PRE_DELETE) + [Asked(Discover, true)]
                  && o.world.log == w.log + before + [Put(o.rel)]
                  && o.rel.status.code == DELETING && o.err == Some(CorruptedRecord) && listing.Err?)
            && (end.Deleted? ==>
                  && listing.Ok?
                  && o.rel.status.code == DELETED
                  && before == HookCalls(newest, newest.namespace, PRE_DELETE) + [Asked(Discover, true)]
                  && (if EndsInFailure(after) then Loses(newest, newest.namespace, POST_DELETE, after)
                      else after == HookCalls(newest, newest.namespace, POST_DELETE))
                  && o.err == DeletionError(deletes, after)
                  && Deletes(deletes, newest.namespace, Select(listing.value, Unannotated))
                  && exists deleting: Snapshot :: Rewrites(newest, deleting) && deleting.status.code == DELETING
                       && o.world.log == w.log + before + [Put(deleting)] + deletes + after + [Put(o.rel)])
  {
    hide RunHooks, DeleteAll, Select, Perform, Neutral, OnlyHookCalls, Deletes, Restamped, HookCalls, Failures,
         EndsInFailure, Loses, StampsExactly, FailsAt;
    var o := UninstallNewest(env, w, newest, listing);
    before, deletes, after, end := [], [], [], Stopped;
    NoActions();
    var start := newest.WithCode(DELETING);
    var pre := RunHooks(env, w, start, start.namespace, PRE_DELETE);
    var preCalls := RunHooksTrace(env, w, start, start.namespace, PRE_DELETE);
    HookCallsAreHarmless(preCalls);
    HooksDeleteNothing(preCalls);
    before := preCalls;
    RestampedItself(newest.spec.hooks);
    if pre.err.Some? {
      RestampedLoss(start, newest, newest.namespace, PRE_DELETE, preCalls);
      return;
    }
    var asked := Asked(Discover, env.groups(pre.world.log) != Unreachable);
    OneCall(asked);
    UpdateFailsInParts(preCalls, [asked]);
    before := preCalls + [asked];
    SameHookCalls(newest, start, newest.namespace, PRE_DELETE);
    var w1 := pre.world.Do(asked);
    assert w1.log == w.log + before;
    if !asked.ok { return; }
    var w2 := w1.Do(Put(pre.rel));
    if listing.Err? {
      end := Corrupt;
      return;
    }
    end := Deleted;
    var files := Select(listing.value, Unannotated);
    deletes := DeleteAllTrace(env, w2, pre.rel.namespace, files);
    var d := DeleteAll(env, w2, pre.rel.namespace, files);
    after := RunHooksTrace(env, d.world, pre.rel, pre.rel.namespace, POST_DELETE);
    RestampedTwice(newest.spec.hooks, pre.rel.spec.hooks, o.rel.spec.hooks);
    SameHookCalls(newest, pre.rel, newest.namespace, POST_DELETE);
    NoFailureAtEnd(after);
    HooksDeleteNothing(after);
    if EndsInFailure(after) {
      RestampedBack(newest.spec.hooks, pre.rel.spec.hooks);
      RestampedLoss(pre.rel, newest, newest.namespace, POST_DELETE, after);
    }
  }

  lemma NoActions()
    ensures Neutral([]) && OnlyHookCalls([]) && NoDeletes([])
  {
  }

  lemma HooksDeleteNothing(calls: seq<Action>)
    requires OnlyHookCalls(calls)
    ensures NoDeletes(calls)
  {
  }

  lemma NoFailureAtEnd(calls: seq<Action>)
    requires AllOk(calls) || EndsInFailure(calls)
    ensures AllOk(calls) <==> !EndsInFailure(calls)
  {
  }

  lemma OnlyRewritesTwice(a: seq<Action>, b: seq<Action>, newest: Snapshot)
    requires OnlyRewrites(a, newest) && OnlyRewrites(b, newest)
    ensures OnlyRewrites(a + b, newest)
  {
    hide Rewrites;
  }

  lemma PartsOnlyRewrite(newest: Snapshot)
    ensures forall calls :: Neutral(calls) || OnlyHookCalls(calls) ==> OnlyRewrites(calls, newest)
    ensures forall calls, ns, files :: Deletes(calls, ns, files) ==> OnlyRewrites(calls, newest)
    ensures forall rel :: Rewrites(newest, rel) ==> OnlyRewrites([Put(rel)], newest)
  {
  }

  /** Uninstalling without purge only ever rewrites the newest revision. */
  lemma UninstallOnlyRewrites(env: Env, w: World, newest: Snapshot, listing: Result<seq<Manifest>, Error>)
    ensures var o := UninstallNewest(env, w, newest, listing);
            exists actions :: o.world.log == w.log + actions && OnlyRewrites(actions, newest)
  {
    hide RunHooks, DeleteAll, Select, UninstallNewest, OnlyRewrites, Rewrites, Neutral, OnlyHookCalls, Deletes,
         NoDeletes, DeletionError, StopsEarly, HookCalls;
    var o := UninstallNewest(env, w, newest, listing);
    var before, deletes, after, end := UninstallShape(env, w, newest, listing);
    PartsOnlyRewrite(newest);
    var actions := before;
    match end
    case Stopped =>
    case Corrupt =>
      OnlyRewritesTwice(before, [Put(o.rel)], newest);
      actions := before + [Put(o.rel)];
    case Deleted =>
      var deleting: Snapshot :| Rewrites(newest, deleting) && deleting.status.code == DELETING
        && o.world.log == w.log + before + [Put(deleting)] + deletes + after + [Put(o.rel)];
      OnlyRewritesTwice(before, [Put(deleting)], newest);
      OnlyRewritesTwice(before + [Put(deleting)], deletes, newest);
      OnlyRewritesTwice(before + [Put(deleting)] + deletes, after, newest);
      OnlyRewritesTwice(before + [Put(deleting)] + deletes + after, [Put(o.rel)], newest);
      actions := before + [Put(deleting)] + deletes + after + [Put(o.rel)];
      assert o.world.log == w.log + actions;
  }
}
