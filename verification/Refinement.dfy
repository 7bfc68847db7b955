/**
  The methods of the release server are the machine's handlers: what a method reads enables the Take of
  its notice, and performing the plan taken, one action at a time, ends where the method ends.
*/
module Refinement {
  import opened Wrappers
  import opened ReleaseKey
  import opened ReleaseName
  import opened Hapi
  import opened Worlds
  import opened KindSorter
  import opened ManifestBlob
  import opened Lifecycle
  import opened HookLaws
  import opened HandlerLaws
  import opened Controller
  import opened Conservation
  import Server = ReleaseServer

  /** What the server's methods say they read, for the handler of a notice. */
  ghost predicate ServerReads(w: World, n: Notice, env: Env, rels: seq<Snapshot>, rendering: Rendering) {
    match n
    case Added(rel) => Server.ReadForInstall(env, w, rel, rendering)
    case Removed(rel) => MatchString(rel.name) ==> IsHistory(env.namespace, w.store, rel.name, rels)
    case Changed(_, after) => Server.ReadForUpdate(env, w, after, rels, rendering)
  }

  /** It is what the machine asks of a Take. */
  lemma ServerReadsRight(s: Sys, n: Notice, env: Env, rels: seq<Snapshot>, rendering: Rendering)
    requires ServerReads(Now(s), n, env, rels, rendering)
    ensures Reads(s.store, n, env, rels, rendering)
  {
    hide Server.RenderingOf, MatchString, Plausible, TriggersUpdate, IsHistory;
    forall chart, config, options | Server.RenderingOf(env, Now(s), chart, config, options, rendering)
      ensures Plausible(rendering)
    {
      RenderingIsPlausible(env, Now(s), chart, config, options, rendering);
    }
  }

  // ---------- a handler's actions lead to its outcome ----------

  /** The later world comes from the earlier one by performing what was logged in between. */
  ghost predicate Follows(w: World, w': World) {
    exists actions :: w' == World(PerformAll(w.store, actions), w.log + actions)
  }

  lemma FollowsBy(w: World, actions: seq<Action>)
    ensures Follows(w, World(PerformAll(w.store, actions), w.log + actions))
  {
  }

  lemma FollowsTwice(w: World, w1: World, w2: World)
    requires Follows(w, w1) && Follows(w1, w2)
    ensures Follows(w, w2)
  {
    hide PerformAll;
    var a :| w1 == World(PerformAll(w.store, a), w.log + a);
    var b :| w2 == World(PerformAll(w1.store, b), w1.log + b);
    PerformAllAppend(w.store, a, b);
    assert w.log + a + b == w.log + (a + b);
  }

  lemma FollowsItself(w: World)
    ensures Follows(w, w)
  {
    assert w.log + [] == w.log && PerformAll(w.store, []) == w.store;
  }

  lemma DoFollows(w: World, a: Action)
    ensures Follows(w, w.Do(a))
  {
    PerformAllCons(w.store, a, []);
    assert [a] + [] == [a];
    FollowsBy(w, [a]);
  }

  lemma {:induction false} NeutralChangesNothing(store: Store, calls: seq<Action>)
    requires Neutral(calls)
    ensures PerformAll(store, calls) == store
    decreases |calls|
  {
    if calls != [] { NeutralChangesNothing(store, calls[1..]); }
  }

  lemma WroteFollows(w: World, o: Outcome, calls: seq<Action>, tail: seq<Action>)
    requires Wrote(w, o, calls, tail)
    ensures Follows(w, o.world)
  {
    hide PerformAll;
    NeutralChangesNothing(w.store, calls);
    PerformAllAppend(w.store, calls, tail);
    assert w.log + calls + tail == w.log + (calls + tail);
    FollowsBy(w, calls + tail);
  }

  lemma HooksFollow(env: Env, w: World, rel: Snapshot, ns: string, event: HookEvent)
    ensures Follows(w, RunHooks(env, w, rel, ns, event).world)
  {
    var calls := RunHooksTrace(env, w, rel, ns, event);
    HookCallsAreHarmless(calls);
    NeutralChangesNothing(w.store, calls);
    FollowsBy(w, calls);
  }

  lemma {:induction false} DeleteAllFollows(env: Env, w: World, ns: string, files: seq<Manifest>)
    ensures Follows(w, DeleteAll(env, w, ns, files).world)
    decreases |files|
  {
    hide Follows;
    if files == [] {
      FollowsItself(w);
    } else {
      DeleteAllFollows(env, w, ns, files[..|files| - 1]);
      var d := DeleteAll(env, w, ns, files[..|files| - 1]);
      var call := DeleteResources(ns, files[|files| - 1].content);
      DoFollows(d.world, Asked(call, env.answer(d.world.log, call)));
      FollowsTwice(w, d.world, DeleteAll(env, w, ns, files).world);
    }
  }

  lemma {:induction false} PurgeFollows(w: World, rels: seq<Snapshot>)
    ensures Follows(w, Purge(w, rels).0)
    decreases |rels|
  {
    hide Follows, Perform;
    FollowsItself(w);
    if rels != [] {
      var remove := Remove(rels[0].name, rels[0].spec.version);
      if Succeeds(w.store, remove) {
        DoFollows(w, remove);
        PurgeFollows(w.Do(remove), rels[1..]);
        FollowsTwice(w, w.Do(remove), Purge(w, rels).0);
      }
    }
  }

  lemma UninstallNewestFollows(env: Env, w: World, newest: Snapshot, listing: Result<seq<Manifest>, Error>)
    ensures Follows(w, UninstallNewest(env, w, newest, listing).world)
  {
    hide Follows, RunHooks, DeleteAll, Select, Perform;
    var o := UninstallNewest(env, w, newest, listing);
    var start := newest.WithCode(DELETING);
    var pre := RunHooks(env, w, start, start.namespace, PRE_DELETE);
    HooksFollow(env, w, start, start.namespace, PRE_DELETE);
    var asked := Asked(Discover, env.groups(pre.world.log) != Unreachable);
    var w1 := pre.world.Do(asked);
    DoFollows(pre.world, asked);
    FollowsTwice(w, pre.world, w1);
    var w2 := w1.Do(Put(pre.rel));
    DoFollows(w1, Put(pre.rel));
    FollowsTwice(w, w1, w2);
    if pre.err.None? && asked.ok && listing.Ok? {
      var files := Select(listing.value, Unannotated);
      var d := DeleteAll(env, w2, pre.rel.namespace, files);
      DeleteAllFollows(env, w2, pre.rel.namespace, files);
      FollowsTwice(w, w2, d.world);
      var post := RunHooks(env, d.world, pre.rel, pre.rel.namespace, POST_DELETE);
      HooksFollow(env, d.world, pre.rel, pre.rel.namespace, POST_DELETE);
      FollowsTwice(w, d.world, post.world);
      DoFollows(post.world, Put(o.rel));
      FollowsTwice(w, post.world, o.world);
    }
  }

  lemma HandlerFollows(w: World, n: Notice, env: Env, rels: seq<Snapshot>, rendering: Rendering,
                       listing: Result<seq<Manifest>, Error>)
    requires Reads(w.store, n, env, rels, rendering)
    ensures Follows(w, HandlerOf(w, n, env, rels, rendering, listing).world)
  {
    hide InstallRelease, UninstallNewest, Purge, UpdateRelease, MatchString, Triggers, Follows, IsHistory;
    var o := HandlerOf(w, n, env, rels, rendering, listing);
    FollowsItself(w);
    match n
    case Added(rel) =>
      if Plausible(rendering) {
        var calls, end := InstallShape(env, w, rel, rendering);
        WroteFollows(w, o, calls, InstallWrites(o.rel, end));
      } else {
        UnreadInstall(env, w, rel, rendering);
      }
    case Removed(rel) =>
      PurgeFollows(w, rels);
      if rels != [] { UninstallNewestFollows(env, w, rels[|rels| - 1], listing); }
    case Changed(_, after) =>
      if Triggers(n) {
        if Plausible(rendering) {
          var calls, end := UpdateShape(env, w, after, rels, rendering);
          WroteFollows(w, o, calls, if end.Refused? then [] else UpdateWrites(LastOf(rels), o.rel, end));
        } else {
          UnreadUpdate(env, w, after, rels, rendering);
        }
      }
  }

  /** Performing what a handler did leads where the handler led. */
  lemma DoneLeadsThere(w: World, o: Outcome)
    requires Follows(w, o.world)
    ensures PerformAll(w.store, Done(w, o)) == o.world.store
  {
    hide PerformAll;
    var actions :| o.world == World(PerformAll(w.store, actions), w.log + actions);
    assert (w.log + actions)[|w.log|..] == actions;
  }

  lemma UnreadInstall(env: Env, w: World, rel: Snapshot, rendering: Rendering)
    requires rel.spec.chart.None? || rel.spec.chart.value.templates == []
    ensures InstallRelease(env, w, rel, rendering).world == w
  {
    hide PerformRelease;
  }

  lemma UnreadUpdate(env: Env, w: World, rel: Snapshot, rels: seq<Snapshot>, rendering: Rendering)
    requires !MatchString(rel.name) || rel.spec.chart.None? || rels == []
    ensures UpdateRelease(env, w, rel, rels, rendering).world == w
  {
    hide MatchString, PerformUpdate;
  }

  // ---------- the machine performs it ----------

  function Acts(n: nat): (steps: seq<Step>)
    ensures |steps| == n && forall k :: 0 <= k < n ==> steps[k] == Act
  {
    seq(n, _ => Act)
  }

  lemma {:induction false} ActsPerform(s: Sys)
    ensures var t := Run(s, Acts(|s.todo|));
            t.todo == [] && t.store == PerformAll(s.store, s.todo) && t.log == s.log + s.todo
    decreases |s.todo|
  {
    hide Handle;
    if s.todo != [] {
      var t := Next(s, Act);
      assert Acts(|s.todo|)[1..] == Acts(|t.todo|);
      ActsPerform(t);
      assert s.log + [s.todo[0]] + s.todo[1..] == s.log + s.todo;
    }
  }

  /**
    Taking a notice with what the server's method read, and performing the plan undisturbed, leads to
    the archive and the log the method leads to.
  */
  lemma HandlerRefinesMethod(s: Sys, step: Step)
    requires step.Take? && s.todo == [] && s.queue != [] && Ticks(step.env)
    requires ServerReads(Now(s), s.queue[0], step.env, step.rels, step.rendering)
    ensures Enabled(s, step)
    ensures var t := Next(s, step);
            var done := Run(t, Acts(|t.todo|));
            && Now(done) == HandlerOf(Now(s), s.queue[0], step.env, step.rels, step.rendering, step.listing).world
            && done.todo == []
  {
    hide HandlerOf, Reads, ServerReads, PerformAll, Run;
    ServerReadsRight(s, s.queue[0], step.env, step.rels, step.rendering);
    HandlerFollows(Now(s), s.queue[0], step.env, step.rels, step.rendering, step.listing);
    var t := Next(s, step);
    ActsPerform(t);
    var o := HandlerOf(Now(s), s.queue[0], step.env, step.rels, step.rendering, step.listing);
    var actions :| o.world == World(PerformAll(s.store, actions), s.log + actions);
    assert (s.log + actions)[|s.log|..] == actions;
  }

  /** The rollback goroutine's two reads, undisturbed, prepare the target the server's method prepares. */
  lemma ReadsRefineRollback(s: Sys, env: Env, req: RollbackRequest, rels: seq<Snapshot>)
    requires s.rollback.Idle? && IsHistory(env.namespace, s.store, RollbackName(req), rels)
    ensures var prepared := PrepareRollback(env, s.store, req, rels);
            var first := ReadLast(env.namespace, req, rels);
            if Enabled(s, first) then
              var s1 := Next(s, first);
              && Enabled(s1, ReadTarget(env.namespace))
              && Next(s1, ReadTarget(env.namespace)).rollback
                  == (if prepared.Ok? then HasTarget(prepared.value) else Idle)
            else prepared.Err?
  {
    hide MatchString, RequestedVersion, RollbackName, RollbackTarget, Stored, IsHistory;
  }

  /** Fetching answers with the live objects. */
  predicate FetchesLive(s: Sys, env: Env, name: string) {
    env.fetch(s.log) == if name in s.objects then Some(s.objects[name]) else None
  }

  /**
    The rollback goroutine's write is what performRollback does when it fetches the live object: the
    archive stays, and the object and its notice change exactly when the server's write succeeds.
  */
  lemma WriteRefinesRollback(s: Sys, env: Env)
    requires s.rollback.HasTarget? && FetchesLive(s, env, s.rollback.target.name)
    requires forall name :: name in s.objects ==> s.objects[name].name == name
    ensures var target := s.rollback.target;
            var o := PerformRollback(env, Now(s), target);
            var t := Next(s, WriteTarget(o.err.None?));
            && t.store == o.world.store == s.store && t.todo == s.todo && t.rollback == Idle
            && (o.err == Some(ObjectNotFound) <==> target.name !in s.objects)
            && t.objects == (if o.err.None? then s.objects[target.name := o.rel] else s.objects)
            && t.queue == (if o.err.None? then s.queue + [Changed(s.objects[target.name], o.rel)] else s.queue)
            && (o.err.None? ==> o.rel.name == target.name)
  {
    hide Handle;
  }
}
