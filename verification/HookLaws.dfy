/** What running hooks does: which calls, in which order, and which hooks are stamped. */
module HookLaws {
  import opened Wrappers
  import opened Hapi
  import opened Worlds
  import opened Lifecycle

  /** Calls that touch neither the archive nor the Release object. */
  predicate Neutral(actions: seq<Action>) {
    forall k :: 0 <= k < |actions| ==> actions[k].Asked? && !actions[k].call.Publish?
  }

  /** Calls as hooks make them. */
  predicate OnlyHookCalls(actions: seq<Action>) {
    forall k :: 0 <= k < |actions| ==>
      actions[k].Asked? && (actions[k].call.CreateResources? || actions[k].call.WatchUntilReady?)
  }

  predicate AllOk(actions: seq<Action>) {
    forall k :: 0 <= k < |actions| ==> actions[k].Asked? && actions[k].ok
  }

  /** The calls of a run in which every hook succeeds: create, then wait, hook by hook. */
  function Calls(hs: seq<Hook>, ns: string, event: HookEvent, timeout: int): seq<Action> {
    if hs == [] then []
    else
      SuccessCalls(hs[0], ns, event, timeout) + Calls(hs[1..], ns, event, timeout)
  }

  function SuccessCalls(h: Hook, ns: string, event: HookEvent, timeout: int): seq<Action> {
    if event in h.events then
      [Asked(CreateResources(ns, h.manifest, timeout, false), true),
       Asked(WatchUntilReady(ns, h.manifest, timeout), true)]
    else []
  }

  /** The calls made for a hook that fails: the create alone, or the create and the wait. */
  predicate FailingCalls(calls: seq<Action>, h: Hook, ns: string, timeout: int) {
    var create, watch := CreateResources(ns, h.manifest, timeout, false), WatchUntilReady(ns, h.manifest, timeout);
    calls == [Asked(create, false)] || calls == [Asked(create, true), Asked(watch, false)]
  }

  /** The first hook that fails, or the number of hooks. */
  function StopsAt(env: Env, w: World, hs: seq<Hook>, ns: string, event: HookEvent, timeout: int): (stop: nat)
    ensures stop <= |hs|
    decreases |hs|
  {
    if hs == [] then 0
    else if event !in hs[0].events then 1 + StopsAt(env, w, hs[1..], ns, event, timeout)
    else
      var turn := RunHook(env, w, hs[0], ns, timeout);
      if turn.ok then 1 + StopsAt(env, turn.world, hs[1..], ns, event, timeout) else 0
  }

  predicate Stamped(before: Hook, after: Hook) {
    after.lastRun.Some? && after == before.(lastRun := after.lastRun)
  }

  /** Exactly the hooks that succeeded before the first failure are stamped; no other changes. */
  ghost predicate StampsExactly(hs: seq<Hook>, after: seq<Hook>, stop: nat, event: HookEvent) {
    && |after| == |hs|
    && forall k :: 0 <= k < |hs| ==>
         if k < stop && event in hs[k].events then Stamped(hs[k], after[k]) else after[k] == hs[k]
  }

  /** The log grows by the calls of the hooks before the first failure, and by the failing hook's. */
  ghost predicate LogsExactly(before: seq<Action>, after: seq<Action>, hs: seq<Hook>, stop: nat, ns: string,
                              event: HookEvent, timeout: int)
    requires stop <= |hs|
  {
    if stop == |hs| then after == before + Calls(hs, ns, event, timeout)
    else
      exists failing :: FailingCalls(failing, hs[stop], ns, timeout)
        && after == before + Calls(hs[..stop], ns, event, timeout) + failing
  }

  /** Exactly the hooks carrying the event run, in list order, up to the first failure. */
  lemma {:induction false} ExecHookTrace(env: Env, w: World, hs: seq<Hook>, ns: string, event: HookEvent, timeout: int)
    ensures var r, stop := ExecHook(env, w, hs, ns, event, timeout), StopsAt(env, w, hs, ns, event, timeout);
            && r.world.store == w.store
            && (r.ok <==> stop == |hs|)
            && (!r.ok ==> event in hs[stop].events)
            && StampsExactly(hs, r.hooks, stop, event)
            && LogsExactly(w.log, r.world.log, hs, stop, ns, event, timeout)
    decreases |hs|
  {
    hide RunHook, LogsExactly, Calls, StampsExactly;
    if hs == [] {
      NoHooks(w.log, ns, event, timeout);
    } else {
      var h, rest := hs[0], hs[1..];
      var turn := Turn(env, w, h, ns, event, timeout);
      var calls := TurnCalls(env, w, h, ns, event, timeout);
      if turn.ok {
        ExecHookTrace(env, turn.world, rest, ns, event, timeout);
        var r := ExecHook(env, turn.world, rest, ns, event, timeout);
        var stop := StopsAt(env, turn.world, rest, ns, event, timeout);
        OneMoreLogged(w.log, calls, r.world.log, hs, stop, ns, event, timeout);
        OneMoreStamped(hs, turn.hook, r.hooks, stop, event);
      } else {
        FailsAtOnce(w.log, calls, hs, ns, event, timeout);
      }
    }
  }

  /** One step of the loop; a hook without the event is passed over. */
  function Turn(env: Env, w: World, h: Hook, ns: string, event: HookEvent, timeout: int): HookTurn {
    if event in h.events then RunHook(env, w, h, ns, timeout) else HookTurn(w, h, true)
  }

  lemma NoHooks(log: seq<Action>, ns: string, event: HookEvent, timeout: int)
    ensures LogsExactly(log, log, [], 0, ns, event, timeout) && StampsExactly([], [], 0, event)
  {
    assert log + [] == log;
  }

  lemma FailsAtOnce(log: seq<Action>, calls: seq<Action>, hs: seq<Hook>, ns: string, event: HookEvent, timeout: int)
    requires hs != [] && FailingCalls(calls, hs[0], ns, timeout)
    ensures LogsExactly(log, log + calls, hs, 0, ns, event, timeout) && StampsExactly(hs, hs, 0, event)
  {
    assert Calls(hs[..0], ns, event, timeout) == [];
    assert log + calls == log + [] + calls;
  }

  lemma OneMoreStamped(hs: seq<Hook>, first: Hook, rest: seq<Hook>, stop: nat, event: HookEvent)
    requires hs != [] && StampsExactly(hs[1..], rest, stop, event)
    requires if event in hs[0].events then Stamped(hs[0], first) else first == hs[0]
    ensures StampsExactly(hs, [first] + rest, stop + 1, event)
  {
    forall k | 0 < k < |hs|
      ensures hs[k] == hs[1..][k - 1] && ([first] + rest)[k] == rest[k - 1]
    {
    }
  }

  lemma OneMoreLogged(before: seq<Action>, calls: seq<Action>, after: seq<Action>, hs: seq<Hook>, stop: nat, ns: string,
                      event: HookEvent, timeout: int)
    requires hs != [] && stop <= |hs| - 1
    requires calls == SuccessCalls(hs[0], ns, event, timeout)
    requires LogsExactly(before + calls, after, hs[1..], stop, ns, event, timeout)
    ensures LogsExactly(before, after, hs, stop + 1, ns, event, timeout)
  {
    var rest := hs[1..];
    if stop == |rest| {
      assert before + calls + Calls(rest, ns, event, timeout) == before + (calls + Calls(rest, ns, event, timeout));
    } else {
      var failing :| FailingCalls(failing, rest[stop], ns, timeout)
        && after == before + calls + Calls(rest[..stop], ns, event, timeout) + failing;
      var front := hs[..stop + 1];
      assert front[0] == hs[0] && front[1..] == rest[..stop];
      assert before + calls + Calls(rest[..stop], ns, event, timeout) == before + Calls(front, ns, event, timeout);
      assert hs[stop + 1] == rest[stop];
    }
  }

  /** The calls of one turn. */
  lemma TurnCalls(env: Env, w: World, h: Hook, ns: string, event: HookEvent, timeout: int) returns (calls: seq<Action>)
    ensures var turn := Turn(env, w, h, ns, event, timeout);
            && turn.world == World(w.store, w.log + calls)
            && (turn.ok ==> calls == SuccessCalls(h, ns, event, timeout)
                            && if event in h.events then Stamped(h, turn.hook) else turn.hook == h)
            && (!turn.ok ==> turn.hook == h && event in h.events && FailingCalls(calls, h, ns, timeout))
  {
    calls := [];
    if event in h.events {
      var create := CreateResources(ns, h.manifest, timeout, false);
      calls := [Asked(create, env.answer(w.log, create))];
      if calls[0].ok {
        var watch := WatchUntilReady(ns, h.manifest, timeout);
        var answered := Asked(watch, env.answer(w.log + calls, watch));
        assert w.log + calls + [answered] == w.log + (calls + [answered]);
        calls := calls + [answered];
      }
    } else {
      assert w.log + [] == w.log;
    }
  }

  /** Every stamp is what the clock showed right after the hook's last call. */
  lemma {:induction false} StampsAreReadings(env: Env, w: World, hs: seq<Hook>, ns: string, event: HookEvent,
                                             timeout: int, k: nat)
      returns (log: seq<Action>)
    requires k < StopsAt(env, w, hs, ns, event, timeout) && event in hs[k].events
    ensures var r := ExecHook(env, w, hs, ns, event, timeout);
            && k < |r.hooks| && r.hooks[k].lastRun == Some(env.clock(log, 0)) && log <= r.world.log
            && log != [] && log[|log| - 1] == Asked(WatchUntilReady(ns, hs[k].manifest, timeout), true)
    decreases |hs|
  {
    var turn := Turn(env, w, hs[0], ns, event, timeout);
    var rest := ExecHook(env, turn.world, hs[1..], ns, event, timeout);
    LogGrows(env, turn.world, hs[1..], ns, event, timeout);
    if k == 0 {
      log := turn.world.log;
    } else {
      log := StampsAreReadings(env, turn.world, hs[1..], ns, event, timeout, k - 1);
      assert ([turn.hook] + rest.hooks)[k] == rest.hooks[k - 1];
    }
  }

  lemma LogGrows(env: Env, w: World, hs: seq<Hook>, ns: string, event: HookEvent, timeout: int)
    ensures w.log <= ExecHook(env, w, hs, ns, event, timeout).world.log
  {
    ExecHookTrace(env, w, hs, ns, event, timeout);
    hide ExecHook, Calls;
  }

  // ---------- what the calls of a list of hooks are ----------

  /** The calls for the hooks at some places of a list: each is created, without waiting, and then waited for. */
  ghost predicate AsksAt(calls: seq<Action>, hs: seq<Hook>, at: seq<nat>, ns: string, timeout: int) {
    && |calls| == 2 * |at|
    && forall k :: 0 <= k < |at| ==>
         && at[k] < |hs|
         && calls[2 * k] == Asked(CreateResources(ns, hs[at[k]].manifest, timeout, false), true)
         && calls[2 * k + 1] == Asked(WatchUntilReady(ns, hs[at[k]].manifest, timeout), true)
  }

  predicate Marks(at: seq<nat>, i: nat) {
    exists k :: 0 <= k < |at| && at[k] == i
  }

  /** The places of exactly the hooks that carry an event, in their order. */
  ghost predicate PlacesOf(at: seq<nat>, hs: seq<Hook>, event: HookEvent) {
    && (forall k :: 0 <= k < |at| ==> at[k] < |hs| && event in hs[at[k]].events)
    && (forall j, k :: 0 <= j < k < |at| ==> at[j] < at[k])
    && (forall i: nat :: i < |hs| && event in hs[i].events ==> Marks(at, i))
  }

  /** Exactly the hooks that carry the event are asked for, one after the other, and all answers are good. */
  ghost predicate AsksHooks(calls: seq<Action>, hs: seq<Hook>, ns: string, event: HookEvent, timeout: int) {
    exists at: seq<nat> :: PlacesOf(at, hs, event) && AsksAt(calls, hs, at, ns, timeout)
  }

  lemma {:induction false} CallsSnoc(init: seq<Hook>, last: Hook, ns: string, event: HookEvent, timeout: int)
    ensures Calls(init + [last], ns, event, timeout)
            == Calls(init, ns, event, timeout) + SuccessCalls(last, ns, event, timeout)
    decreases |init|
  {
    var hs := init + [last];
    if init == [] {
      assert Calls(hs[1..], ns, event, timeout) == [];
    } else {
      assert hs[1..] == init[1..] + [last];
      CallsSnoc(init[1..], last, ns, event, timeout);
    }
  }

  lemma {:induction false} CallsAskHooks(hs: seq<Hook>, ns: string, event: HookEvent, timeout: int)
      returns (at: seq<nat>)
    ensures PlacesOf(at, hs, event) && AsksAt(Calls(hs, ns, event, timeout), hs, at, ns, timeout)
    decreases |hs|
  {
    hide PlacesOf, AsksAt, SuccessCalls;
    at := [];
    if hs == [] {
      NoPlaces(ns, event, timeout);
    } else {
      var init, last := hs[..|hs| - 1], hs[|hs| - 1];
      at := CallsAskHooks(init, ns, event, timeout);
      assert hs == init + [last];
      CallsSnoc(init, last, ns, event, timeout);
      hide Calls;
      LastPlace(init, last, at, event);
      LastAsks(Calls(init, ns, event, timeout), init, last, at, ns, event, timeout);
      at := if event in last.events then at + [|init|] else at;
    }
  }

  lemma NoPlaces(ns: string, event: HookEvent, timeout: int)
    ensures PlacesOf([], [], event) && AsksAt([], [], [], ns, timeout)
  {
  }

  lemma LastPlace(init: seq<Hook>, last: Hook, at: seq<nat>, event: HookEvent)
    requires PlacesOf(at, init, event)
    ensures PlacesOf(if event in last.events then at + [|init|] else at, init + [last], event)
  {
    hide Marks;
    var hs, more := init + [last], at + [|init|];
    forall i: nat | i < |hs| && event in hs[i].events
      ensures Marks(more, i) && (event in last.events || Marks(at, i))
    {
      MarkedStill(at, |init|, i);
      if i < |init| { assert init[i] == hs[i]; }
    }
  }

  lemma MarkedStill(at: seq<nat>, n: nat, i: nat)
    ensures Marks(at, i) || i == n ==> Marks(at + [n], i)
  {
    var more := at + [n];
    assert more[|at|] == n;
    if Marks(at, i) {
      var k :| 0 <= k < |at| && at[k] == i;
      assert more[k] == i;
    }
  }

  lemma LastAsks(calls: seq<Action>, init: seq<Hook>, last: Hook, at: seq<nat>, ns: string, event: HookEvent,
                 timeout: int)
    requires AsksAt(calls, init, at, ns, timeout)
    ensures AsksAt(calls + SuccessCalls(last, ns, event, timeout), init + [last],
                   if event in last.events then at + [|init|] else at, ns, timeout)
  {
    var hs, n := init + [last], |at|;
    var more := calls + SuccessCalls(last, ns, event, timeout);
    forall k | 0 <= k < n
      ensures at[k] < |hs| && hs[at[k]] == init[at[k]]
      ensures more[2 * k] == calls[2 * k] && more[2 * k + 1] == calls[2 * k + 1]
    {
    }
    if event in last.events {
      var at' := at + [|init|];
      assert hs[at'[n]] == last && more[2 * n] == SuccessCalls(last, ns, event, timeout)[0];
      assert more[2 * n + 1] == SuccessCalls(last, ns, event, timeout)[1];
      assert forall k :: 0 <= k < n ==> at'[k] == at[k];
    }
  }

  // ---------- guarded runs ----------

  /** The calls of a guarded run in which nothing fails. */
  function HookCalls(rel: Snapshot, ns: string, event: HookEvent): seq<Action> {
    if rel.spec.disableHooks then [] else Calls(rel.spec.hooks, ns, event, rel.spec.timeout)
  }

  /** What such a run asks for: nothing where hooks are disabled. */
  ghost predicate AsksGuarded(calls: seq<Action>, disabled: bool, hs: seq<Hook>, ns: string, event: HookEvent,
                              timeout: int) {
    if disabled then calls == [] else AsksHooks(calls, hs, ns, event, timeout)
  }

  /** Hooks that were stamped since ask for the same. */
  lemma HookCallsAsk(rel: Snapshot, before: seq<Hook>, ns: string, event: HookEvent)
    requires Restamped(before, rel.spec.hooks)
    ensures AsksGuarded(HookCalls(rel, ns, event), rel.spec.disableHooks, before, ns, event, rel.spec.timeout)
  {
    RestampedCalls(before, rel.spec.hooks, ns, event, rel.spec.timeout);
    var at := CallsAskHooks(before, ns, event, rel.spec.timeout);
  }

  predicate EndsInFailure(calls: seq<Action>) {
    calls != [] && calls[|calls| - 1].Asked? && !calls[|calls| - 1].ok
  }

  /** The calls of a guarded run that ends at one of its hooks: those of the hooks before it, and its own. */
  ghost predicate FailsAt(rel: Snapshot, ns: string, event: HookEvent, calls: seq<Action>, stop: nat) {
    var hs, timeout := rel.spec.hooks, rel.spec.timeout;
    && !rel.spec.disableHooks && stop < |hs| && event in hs[stop].events
    && exists failing: seq<Action> ::
         FailingCalls(failing, hs[stop], ns, timeout) && calls == Calls(hs[..stop], ns, event, timeout) + failing
  }

  /** The calls of a guarded run in which some hook fails. */
  ghost predicate Loses(rel: Snapshot, ns: string, event: HookEvent, calls: seq<Action>) {
    exists stop: nat :: FailsAt(rel, ns, event, calls, stop)
  }

  /** Hooks as runs leave them: only the times of their last runs may differ. */
  predicate Restamped(before: seq<Hook>, after: seq<Hook>) {
    && |after| == |before|
    && forall k :: 0 <= k < |before| ==> after[k] == before[k].(lastRun := after[k].lastRun)
  }

  /** Stamps do not change what a later run will do. */
  lemma {:induction false} RestampedCalls(before: seq<Hook>, after: seq<Hook>, ns: string, event: HookEvent,
                                          timeout: int)
    requires Restamped(before, after)
    ensures Calls(before, ns, event, timeout) == Calls(after, ns, event, timeout)
    decreases |before|
  {
    if before != [] {
      assert after[0] == before[0].(lastRun := after[0].lastRun);
      assert forall k :: 0 <= k < |before| - 1 ==> after[1..][k] == after[k + 1] && before[1..][k] == before[k + 1];
      RestampedCalls(before[1..], after[1..], ns, event, timeout);
    }
  }

  /** Stamps do not change which calls a failing run makes. */
  lemma RestampedLoss(before: Snapshot, after: Snapshot, ns: string, event: HookEvent, calls: seq<Action>)
    requires Loses(before, ns, event, calls) && Restamped(before.spec.hooks, after.spec.hooks)
    requires before.spec.disableHooks == after.spec.disableHooks && before.spec.timeout == after.spec.timeout
    ensures Loses(after, ns, event, calls)
  {
    hide Calls;
    var hs, hs', timeout := before.spec.hooks, after.spec.hooks, before.spec.timeout;
    var stop: nat :| FailsAt(before, ns, event, calls, stop);
    RestampedCalls(hs[..stop], hs'[..stop], ns, event, timeout);
    assert hs'[stop] == hs[stop].(lastRun := hs'[stop].lastRun);
    var failing :| FailingCalls(failing, hs[stop], ns, timeout)
      && calls == Calls(hs[..stop], ns, event, timeout) + failing;
    assert FailingCalls(failing, hs'[stop], ns, timeout);
    assert FailsAt(after, ns, event, calls, stop);
  }

  /**
    A guarded run makes all its calls, or those of the hooks before one that fails and that one's; exactly
    the hooks that carry the event and succeeded are stamped, and nothing else changes.
  */
  lemma RunHooksTrace(env: Env, w: World, rel: Snapshot, ns: string, event: HookEvent) returns (calls: seq<Action>)
    ensures var o := RunHooks(env, w, rel, ns, event);
            && o.world == World(w.store, w.log + calls) && OnlyHookCalls(calls)
            && (o.err.None? ==> calls == HookCalls(rel, ns, event) && AllOk(calls))
            && (o.err.Some? ==> o.err.value == HookFailed && EndsInFailure(calls) && Loses(rel, ns, event, calls))
            && (o.err.Some? ==> exists stop: nat ::
                  FailsAt(rel, ns, event, calls, stop) && StampsExactly(rel.spec.hooks, o.rel.spec.hooks, stop, event))
            && (o.err.None? ==>
                  if rel.spec.disableHooks then o.rel == rel
                  else StampsExactly(rel.spec.hooks, o.rel.spec.hooks, |rel.spec.hooks|, event))
            && o.rel == rel.(spec := rel.spec.(hooks := o.rel.spec.hooks))
            && Restamped(rel.spec.hooks, o.rel.spec.hooks)
  {
    hide ExecHook, Calls, OnlyHookCalls, AllOk, EndsInFailure, Restamped, StampsExactly, FailingCalls;
    var hs := rel.spec.hooks;
    if rel.spec.disableHooks {
      calls := [];
      assert w.log + [] == w.log;
      NothingRun(hs);
    } else {
      var stop;
      calls, stop := ExecHookCalls(env, w, hs, ns, event, rel.spec.timeout);
      if stop < |hs| { assert FailsAt(rel, ns, event, calls, stop); }
    }
  }

  lemma NothingRun(hs: seq<Hook>)
    ensures OnlyHookCalls([]) && AllOk([]) && Restamped(hs, hs)
  {
  }

  lemma ExecHookCalls(env: Env, w: World, hs: seq<Hook>, ns: string, event: HookEvent, timeout: int)
      returns (calls: seq<Action>, stop: nat)
    ensures var r := ExecHook(env, w, hs, ns, event, timeout);
            && r.world == World(w.store, w.log + calls) && OnlyHookCalls(calls)
            && stop <= |hs| && (r.ok <==> stop == |hs|)
            && (r.ok ==> calls == Calls(hs, ns, event, timeout) && AllOk(calls))
            && (!r.ok ==> EndsInFailure(calls) && event in hs[stop].events)
            && (!r.ok ==> exists failing: seq<Action> ::
                  && FailingCalls(failing, hs[stop], ns, timeout)
                  && calls == Calls(hs[..stop], ns, event, timeout) + failing)
            && StampsExactly(hs, r.hooks, stop, event) && Restamped(hs, r.hooks)
  {
    ExecHookTrace(env, w, hs, ns, event, timeout);
    hide ExecHook, Calls, StopsAt;
    var r := ExecHook(env, w, hs, ns, event, timeout);
    stop := StopsAt(env, w, hs, ns, event, timeout);
    if r.ok {
      calls := Calls(hs, ns, event, timeout);
      CallsAreHookCalls(hs, ns, event, timeout);
    } else {
      var failing :| FailingCalls(failing, hs[stop], ns, timeout)
        && r.world.log == w.log + Calls(hs[..stop], ns, event, timeout) + failing;
      CallsAreHookCalls(hs[..stop], ns, event, timeout);
      calls := Calls(hs[..stop], ns, event, timeout) + failing;
      assert r.world.log == w.log + calls;
      assert calls[|calls| - 1] == failing[|failing| - 1];
    }
  }

  lemma {:induction false} CallsAreHookCalls(hs: seq<Hook>, ns: string, event: HookEvent, timeout: int)
    ensures var calls := Calls(hs, ns, event, timeout); OnlyHookCalls(calls) && AllOk(calls)
    decreases |hs|
  {
    if hs != [] { CallsAreHookCalls(hs[1..], ns, event, timeout); }
  }
}
