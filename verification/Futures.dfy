/**
  What may follow a state of the machine when no further object is created: pending actions end, notices
  pass, installs and updates go through, and a rollback claims what it has read.
*/
module Futures {
  import opened Wrappers
  import opened ReleaseKey
  import opened ReleaseName
  import opened Hapi
  import opened Worlds
  import opened KindSorter
  import opened Lifecycle
  import opened HookLaws
  import opened HandlerLaws
  import opened History
  import opened Controller
  import opened Purging
  import opened Outcomes
  import opened Quiescence
  import opened Refinement

  // ---------- what may follow ----------

  predicate NoCreation(steps: seq<Step>) {
    forall k :: 0 <= k < |steps| ==> !steps[k].CreateObject?
  }

  /** Some steps, none of which creates an object or meets the version limit, lead from one state to the other. */
  ghost predicate Leads(s: Sys, t: Sys) {
    exists steps: seq<Step> :: NoCreation(steps) && BelowLimit(s, steps) && Run(s, steps) == t
  }

  lemma LeadsItself(s: Sys)
    ensures Leads(s, s)
  {
    assert NoCreation([]) && BelowLimit(s, []) && Run(s, []) == s;
  }

  lemma LeadsBy(s: Sys, step: Step)
    requires Enabled(s, step) && !step.CreateObject? && (step.Take? ==> BelowMax(s.store))
    ensures Leads(s, Next(s, step))
  {
    hide Enabled, Next, BelowMax;
    var t := Next(s, step);
    assert [step][1..] == [];
    assert Run(t, []) == t && BelowLimit(t, []);
    assert NoCreation([step]) && BelowLimit(s, [step]) && Run(s, [step]) == t;
  }

  lemma {:induction false} RunTwice(s: Sys, a: seq<Step>, b: seq<Step>)
    ensures Run(s, a + b) == Run(Run(s, a), b)
    ensures BelowLimit(s, a + b) <==> BelowLimit(s, a) && BelowLimit(Run(s, a), b)
    decreases |a|
  {
    hide Next, Enabled, BelowMax;
    if a == [] {
      assert a + b == b;
    } else {
      assert (a + b)[0] == a[0] && (a + b)[1..] == a[1..] + b;
      RunTwice(After(s, a[0]), a[1..], b);
    }
  }

  lemma LeadsTwice(s: Sys, t: Sys, u: Sys)
    requires Leads(s, t) && Leads(t, u)
    ensures Leads(s, u)
  {
    hide Run, BelowLimit;
    var a: seq<Step> :| NoCreation(a) && BelowLimit(s, a) && Run(s, a) == t;
    var b: seq<Step> :| NoCreation(b) && BelowLimit(t, b) && Run(t, b) == u;
    RunTwice(s, a, b);
    assert NoCreation(a + b) && BelowLimit(s, a + b) && Run(s, a + b) == u;
  }

  // ---------- moving on ----------

  lemma LeadsTidy(s: Sys, t: Sys)
    requires Tidy(s) && Leads(s, t)
    ensures Tidy(t)
  {
    hide Tidy, Run, BelowLimit;
    var steps: seq<Step> :| NoCreation(steps) && BelowLimit(s, steps) && Run(s, steps) == t;
    RunKeepsTidy(s, steps);
  }

  /** An action that touches no object. */
  lemma QuietAct(s: Sys)
    requires s.todo != [] && !Publishes(s.todo[0])
    ensures Leads(s, s.(store := Perform(s.store, s.todo[0]), log := s.log + [s.todo[0]], todo := s.todo[1..]))
  {
    LeadsBy(s, Act);
  }

  function Finished(s: Sys): Sys {
    s.(store := PerformAll(s.store, s.todo), log := s.log + s.todo, todo := [])
  }

  lemma {:induction false} ActsLead(s: Sys)
    requires NoPublish(s.todo)
    ensures Leads(s, Finished(s))
    decreases |s.todo|
  {
    hide Leads, Perform;
    if s.todo == [] {
      assert s.log + [] == s.log;
      LeadsItself(s);
    } else {
      var t := s.(store := Perform(s.store, s.todo[0]), log := s.log + [s.todo[0]], todo := s.todo[1..]);
      QuietAct(s);
      ActsLead(t);
      assert s.log + [s.todo[0]] + s.todo[1..] == s.log + s.todo;
      LeadsTwice(s, t, Finished(s));
    }
  }

  /** Whatever the pending actions are, they can be performed. */
  lemma {:induction false} ActsEnd(s: Sys) returns (t: Sys)
    ensures Leads(s, t) && t.todo == [] && t.store == Eventual(s)
    ensures MoreChanges(s, t) && t.objects.Keys == s.objects.Keys && t.rollback == s.rollback
    ensures Keyed(s) ==> Keyed(t)
    decreases |s.todo|
  {
    hide Leads, Perform, Handle;
    if s.todo == [] {
      t := s;
      LeadsItself(s);
    } else {
      LeadsBy(s, Act);
      Acted(s);
      var s1 := Next(s, Act);
      t := ActsEnd(s1);
      LeadsTwice(s, s1, t);
      MoreAndMore(s, s1, t);
    }
  }

  lemma MoreAndMore(s: Sys, t: Sys, u: Sys)
    requires MoreChanges(s, t) && MoreChanges(t, u)
    ensures MoreChanges(s, u)
  {
    assert forall k :: 0 <= k < |t.queue| ==> u.queue[k] == t.queue[k];
  }

  /** The last status write among the pending actions is what its object has in the end. */
  lemma {:induction false} ActsPublish(s: Sys, k: nat) returns (t: Sys)
    requires k < |s.todo| && Publishes(s.todo[k]) && s.todo[k].call.rel.name in s.objects
    requires NoPublish(s.todo[k + 1..])
    ensures Leads(s, t) && t.todo == [] && t.store == Eventual(s) && MoreChanges(s, t)
    ensures var rel := s.todo[k].call.rel; rel.name in t.objects && t.objects[rel.name] == rel
    decreases k
  {
    hide Leads, Perform, Handle;
    LeadsBy(s, Act);
    Acted(s);
    var s1 := Next(s, Act);
    if k == 0 {
      ActsLead(s1);
      t := Finished(s1);
    } else {
      assert s1.todo[k - 1] == s.todo[k] && s1.todo[k..] == s.todo[k + 1..];
      t := ActsPublish(s1, k - 1);
    }
    LeadsTwice(s, s1, t);
    MoreAndMore(s, s1, t);
  }

  /** Where the rollback goroutine has nothing in hand any more. */
  lemma RollbackGivesUp(s: Sys)
    ensures Leads(s, s.(rollback := Idle))
  {
    hide Leads, RollbackTarget, Stored;
    match s.rollback
    case Idle => LeadsItself(s);
    case HasTarget(_) => LeadsBy(s, WriteTarget(false));
    case HasLast(_, _) =>
      LeadsBy(s, ReadTarget("ns"));
      var t := Next(s, ReadTarget("ns"));
      if t.rollback.HasTarget? {
        LeadsBy(t, WriteTarget(false));
        LeadsTwice(s, t, s.(rollback := Idle));
      }
  }

  // ---------- a rollback that claims the newest revision ----------

  /** The state after a rollback of the name to its newest revision, run in one go. */
  lemma RollbackClaims(s: Sys, name: string, ns: string, rels: seq<Snapshot>, bound: int) returns (t: Sys)
    requires s.rollback == Idle && name in s.objects && MatchString(name)
    requires IsHistory(ns, s.store, name, rels) && rels != [] && WellKeyed(s.store, bound)
    ensures Leads(s, t)
    ensures t.store == s.store && t.todo == s.todo && t.log == s.log && t.rollback == Idle
    ensures name in t.objects && t.objects[name].status.lastDeployedVersion == rels[|rels| - 1].spec.version
    ensures s.queue <= t.queue
  {
    NewestOf(ns, s.store, name, rels, bound);
    var version := rels[|rels| - 1].spec.version;
    var req := RollbackRequest(MakeKey(name, version), false, false, 0);
    NameRoundTrip(name, version);
    VersionRoundTrip(name, version);
    hide MatchString, IsHistory, WellKeyed, MakeKey, GetReleaseNameFromReleaseVersion, RequestedVersion, Leads,
         BelowMax;
    var s1 := ReadsNewest(s, ns, req, rels);
    var s2 := ReadsPicked(s1, name, version);
    LeadsTwice(s, s1, s2);
    t := WritesClaim(s2, name);
    LeadsTwice(s, s2, t);
  }

  lemma ReadsNewest(s: Sys, ns: string, req: RollbackRequest, rels: seq<Snapshot>) returns (t: Sys)
    requires s.rollback == Idle && CheckRollback(req).None? && rels != []
    requires IsHistory(ns, s.store, RollbackName(req), rels)
    ensures t == s.(rollback := HasLast(req, LastOf(rels))) && Leads(s, t)
  {
    hide IsHistory, CheckRollback, RollbackName;
    LeadsBy(s, ReadLast(ns, req, rels));
    t := Next(s, ReadLast(ns, req, rels));
  }

  lemma ReadsPicked(s: Sys, name: string, version: int32) returns (t: Sys)
    requires s.rollback.HasLast? && TargetId(s.rollback) == Id(name, version) && version >= 0
    requires Id(name, version) in s.store
    ensures Leads(s, t) && t == s.(rollback := t.rollback) && t.rollback.HasTarget?
    ensures t.rollback.target.name == name && t.rollback.target.status == s.rollback.current.status
  {
    hide TargetId;
    LeadsBy(s, ReadTarget("ns"));
    t := Next(s, ReadTarget("ns"));
  }

  /** The pending write gives the object the status the rollback read. */
  lemma WritesClaim(s: Sys, name: string) returns (t: Sys)
    requires s.rollback.HasTarget? && s.rollback.target.name == name && name in s.objects
    ensures Leads(s, t)
    ensures t.store == s.store && t.todo == s.todo && t.log == s.log && t.rollback == Idle
    ensures name in t.objects && t.objects[name].status == s.rollback.target.status
    ensures s.queue <= t.queue
  {
    hide Leads;
    LeadsBy(s, WriteTarget(true));
    t := Next(s, WriteTarget(true));
  }

  // ---------- the history of a settled name ----------

  lemma {:induction false} HistoryUpTo(store: Store, name: string, n: nat) returns (rels: seq<Snapshot>)
    requires n <= MAX_INT32
    requires forall v: int32 :: 1 <= v <= n ==> Id(name, v) in store && store[Id(name, v)].spec.version == v
    ensures |rels| == n
    ensures forall i :: 0 <= i < n ==>
              && Id(name, i + 1) in store && rels[i].spec.version == i + 1
              && rels[i] == Decode("ns", Id(name, i + 1), store[Id(name, i + 1)])
  {
    rels := [];
    if n > 0 {
      rels := HistoryUpTo(store, name, n - 1);
      rels := rels + [Decode("ns", Id(name, n), store[Id(name, n)])];
    }
  }

  lemma HistoryExists(s: Sys, name: string) returns (rels: seq<Snapshot>)
    requires Tidy(s) && s.todo == []
    ensures IsHistory("ns", s.store, name, rels) && WellKeyed(s.store, MAX_INT32)
  {
    assert SafePlan(s.store, s.todo, name, MAX_INT32);
    IsSettled(s, name);
    var n :| Interval(s.store, name, 1, n);
    rels := HistoryUpTo(s.store, name, n);
    hide Decode;
    forall v | Id(name, v) in s.store
      ensures exists i :: 0 <= i < |rels| && rels[i].spec.version == v
    {
      assert rels[v - 1].spec.version == v;
    }
  }

  // ---------- letting notices pass ----------

  /** Nothing is granted. */
  const DENYING := Env("ns", (_, _) => false, _ => Unreachable, (_, _, _) => None, _ => None, (_, _) => 1, _ => None)

  const NO_RENDERING := Rendering([], Err(RenderFailed))

  const NO_LISTING: Result<seq<Manifest>, Error> := Err(CorruptedRecord)

  /** Where nothing is granted, a handler can do nothing but purge what it was told to remove. */
  predicate OnlyPurges(todo: seq<Action>, n: Notice) {
    forall k :: 0 <= k < |todo| ==>
      || (todo[k].Asked? && !Publishes(todo[k]))
      || (n.Removed? && todo[k].Remove? && todo[k].name == n.rel.name)
  }

  lemma DeniedUninstall(w: World, rel: Snapshot, rels: seq<Snapshot>, bound: int)
    requires IsHistory("ns", w.store, rel.name, rels) && WellKeyed(w.store, bound)
    ensures var plan := Done(w, UninstallRelease(DENYING, w, rel, rels, NO_LISTING));
            OnlyPurges(plan, Removed(rel)) && (Spared(w.store, rel.name) ==> NoRemovals(plan))
  {
    hide MatchString, UninstallNewest, Purge, IsHistory, WellKeyed, HookCalls;
    assert w.log[|w.log|..] == [];
    if MatchString(rel.name) && rels != [] {
      var newest := rels[|rels| - 1];
      NewestOf("ns", w.store, rel.name, rels, bound);
      if newest.spec.purge {
        PurgeConcerns("ns", w, rel, rels, bound);
        RemovalsOnlyPurge(rel, rels);
      } else {
        var before, deletes, after, end := UninstallShape(DENYING, w, newest, NO_LISTING);
        var o := UninstallNewest(DENYING, w, newest, NO_LISTING);
        assert end.Stopped?;
        assert (w.log + before)[|w.log|..] == before;
      }
    }
  }

  lemma RemovalsOnlyPurge(rel: Snapshot, rels: seq<Snapshot>)
    requires Concerns(Removals(rels), rel.name)
    ensures OnlyPurges(Removals(rels), Removed(rel))
  {
  }

  lemma DeniedHandler(w: World, n: Notice, rels: seq<Snapshot>, bound: int)
    requires IsHistory("ns", w.store, NoticeName(n), rels) && WellKeyed(w.store, bound)
    ensures var plan := Done(w, HandlerOf(w, n, DENYING, rels, NO_RENDERING, NO_LISTING));
            OnlyPurges(plan, n) && (Spared(w.store, NoticeName(n)) ==> NoRemovals(plan))
  {
    hide MatchString, UninstallRelease, IsHistory, WellKeyed, TriggersUpdate, PerformUpdate, PerformRelease, Spared;
    assert w.log + [] == w.log && w.log[|w.log|..] == [];
    if n.Removed? { DeniedUninstall(w, n.rel, rels, bound); }
  }

  lemma {:induction false} PurgesOnlyRemove(store: Store, todo: seq<Action>, n: Notice)
    requires OnlyPurges(todo, n)
    ensures NoPublish(todo) && PerformAll(store, todo).Keys <= store.Keys
    decreases |todo|
  {
    if todo != [] { PurgesOnlyRemove(Perform(store, todo[0]), todo[1..], n); }
  }

  lemma {:induction false} PurgesKeepOthers(store: Store, todo: seq<Action>, n: Notice, name: string)
    requires OnlyPurges(todo, n) && ((n.Removed? ==> n.rel.name != name) || NoRemovals(todo))
    ensures Untouched(store, PerformAll(store, todo), name)
    decreases |todo|
  {
    if todo != [] { PurgesKeepOthers(Perform(store, todo[0]), todo[1..], n, name); }
  }

  lemma UntouchedTwice(a: Store, b: Store, c: Store, name: string)
    requires Untouched(a, b, name) && Untouched(b, c, name)
    ensures Untouched(a, c, name)
  {
  }

  /** The first notice can pass while nothing is granted: all it may do is purge a name it reports as removed. */
  lemma NoticePasses(s: Sys) returns (t: Sys)
    requires Tidy(s) && s.todo == [] && s.queue != [] && BelowMax(s.store)
    ensures Leads(s, t) && Tidy(t) && t.todo == [] && BelowMax(t.store)
    ensures t.queue == s.queue[1..] && t.objects == s.objects && t.rollback == s.rollback
    ensures var n := s.queue[0];
            forall name :: (n.Removed? ==> n.rel.name != name) || Spared(s.store, name) ==>
                Untouched(s.store, t.store, name)
  {
    var n := s.queue[0];
    var rels := HistoryExists(s, NoticeName(n));
    DeniedHandler(Now(s), n, rels, MAX_INT32);
    hide Spared, NoRemovals, Tidy, Leads, IsHistory, HandlerOf, Done, OnlyPurges, PerformAll, Untouched, MatchString,
         Triggers;
    var step := Take(DENYING, rels, NO_RENDERING, NO_LISTING);
    assert Enabled(s, step);
    LeadsBy(s, step);
    var s1 := Next(s, step);
    PurgesOnlyRemove(s1.store, s1.todo, n);
    forall name | (n.Removed? ==> n.rel.name != name) || Spared(s.store, name)
      ensures Untouched(s1.store, PerformAll(s1.store, s1.todo), name)
    {
      PurgesKeepOthers(s1.store, s1.todo, n, name);
    }
    ActsLead(s1);
    t := Finished(s1);
    LeadsTwice(s, s1, t);
    LeadsTidy(s, t);
  }

  /** None of the first k notices reports the name's removal. */
  predicate NoRemovalAhead(queue: seq<Notice>, k: nat, name: string)
    requires k <= |queue|
  {
    forall j :: 0 <= j < k && queue[j].Removed? ==> queue[j].rel.name != name
  }

  /** Any number of notices can pass; a name keeps its revisions unless one of them reports its removal and purges. */
  lemma {:induction false} NoticesPass(s: Sys, k: nat) returns (t: Sys)
    requires Tidy(s) && s.todo == [] && k <= |s.queue| && BelowMax(s.store)
    ensures Leads(s, t) && Tidy(t) && t.todo == [] && BelowMax(t.store)
    ensures t.queue == s.queue[k..] && t.objects == s.objects && t.rollback == s.rollback
    ensures forall name :: NoRemovalAhead(s.queue, k, name) || Spared(s.store, name) ==>
                Untouched(s.store, t.store, name)
    decreases k
  {
    hide Tidy, Leads, BelowMax, Spared;
    assert forall name :: Untouched(s.store, s.store, name);
    if k == 0 {
      t := s;
      LeadsItself(s);
    } else {
      var s1 := NoticePasses(s);
      t := NoticesPass(s1, k - 1);
      LeadsTwice(s, s1, t);
      assert forall j :: 0 <= j < |s1.queue| ==> s1.queue[j] == s.queue[j + 1];
      forall name | NoRemovalAhead(s.queue, k, name) || Spared(s.store, name)
        ensures Untouched(s.store, t.store, name)
      {
        NoneIsKept(s.store, s1.store, name);
        UntouchedTwice(s.store, s1.store, t.store, name);
      }
    }
  }

  // ---------- handlers that are granted what they ask for ----------

  /** Everything is granted. */
  const GRANTING := Env("ns", (_, _) => true, _ => NoGroups, (_, _, _) => Some(map[]), _ => None, (_, _) => 1,
                        _ => None)

  const BARE_RENDERING := Rendering([], Ok(Rendered([], "", "")))

  lemma BareIsPlausible()
    ensures Plausible(BARE_RENDERING)
  {
  }

  /** An update that is granted everything records a revision, with the purge it asks for. */
  lemma GrantedUpdate(w: World, rel: Snapshot, rels: seq<Snapshot>)
    requires MatchString(rel.name) && Updatable(rel) && rels != []
    ensures var o := UpdateRelease(GRANTING, w, rel, rels, BARE_RENDERING);
            && |w.log| < |o.world.log| && o.world.log[|o.world.log| - 1] == Create(o.rel)
            && o.rel.status.code == DEPLOYED && o.rel.spec.purge == rel.spec.purge
  {
    hide MatchString, Revised, ReuseValues, DefaultConfig;
    var current := LastOf(rels);
    var p := PrepareUpdate(GRANTING, w, rel, rels, BARE_RENDERING);
    RevisedIs(World(w.store, w.log + []), rel, current);
    assert p.err.None? && |w.log| <= |p.world.log|;
    GrantedUpdateEnds(p.world, current, p.rel);
    hide PrepareUpdate, PerformUpdate;
  }

  lemma RevisedIs(w: World, rel: Snapshot, current: Snapshot)
    ensures var reused := DefaultConfig(ReuseValues(rel, current));
            var out := Revised(GRANTING, w, reused, current, BARE_RENDERING.result.value);
            out.spec.hooks == [] && out.spec.dryRun == rel.spec.dryRun && out.spec.purge == rel.spec.purge
  {
  }

  lemma GrantedUpdateEnds(w: World, current: Snapshot, rel: Snapshot)
    requires rel.spec.hooks == [] && !rel.spec.dryRun
    ensures var o := PerformUpdate(GRANTING, w, current, rel);
            && o.err.None? && o.rel == rel.WithCode(DEPLOYED) && |w.log| <= |o.world.log|
  {
  }

  lemma LastRecords(w: World, o: Outcome)
    requires |w.log| < |o.world.log| && o.world.log[|o.world.log| - 1] == Create(o.rel) && o.rel.status.code == DEPLOYED
    ensures Records(Done(w, o), DEPLOYED)
  {
    assert Done(w, o)[|o.world.log| - 1 - |w.log|] == Create(o.rel);
  }

  /** What such an update makes of the archive. */
  lemma GrantedUpdateGrows(w: World, rel: Snapshot, rels: seq<Snapshot>, n: int32)
    requires IsHistory("ns", w.store, rel.name, rels) && WellKeyed(w.store, MAX_INT32 - 1) && BelowMax(w.store)
    requires MatchString(rel.name) && Updatable(rel) && Interval(w.store, rel.name, 1, n) && 1 <= n < MAX_INT32 - 1
    ensures var store := UpdateRelease(GRANTING, w, rel, rels, BARE_RENDERING).world.store;
            && Interval(store, rel.name, 1, n + 1) && BelowMax(store)
            && (rel.spec.purge ==> !Spared(store, rel.name))
  {
    hide UpdateRelease, IsHistory, WellKeyed, Done, UpdateWrites, UpdateCalls, AllOk, UpdateFailedIn, UpdateRefused,
         Records, Neutral, Superseded, Spared, BelowMax, RecordOf, Revises, NothingFailed, Interval, MatchString;
    HistoryEnds("ns", w.store, rel.name, rels, MAX_INT32 - 1, 1, n);
    NewestOf("ns", w.store, rel.name, rels, MAX_INT32 - 1);
    BareIsPlausible();
    var o := UpdateRelease(GRANTING, w, rel, rels, BARE_RENDERING);
    GrantedUpdate(w, rel, rels);
    LastRecords(w, o);
    var calls, end := UpdateOutcome(GRANTING, w, rel, rels, BARE_RENDERING, MAX_INT32 - 1);
    UpdateDeploys(GRANTING, w, rel, rels, BARE_RENDERING, MAX_INT32 - 1);
    OneMore(w.store, LastOf(rels), o.rel, n);
    AskingNewest(w.store, LastOf(rels), o.rel);
  }

  lemma AskingNewest(store: Store, current: Snapshot, rel: Snapshot)
    requires BelowMax(store) && 1 <= current.spec.version < MAX_INT32 - 1
    requires IdOf(rel) == Id(current.name, current.spec.version + 1)
    requires forall v: int32 :: Id(current.name, v) in store ==> v <= current.spec.version
    ensures var after := Superseded(store, current)[IdOf(rel) := RecordOf(rel)];
            BelowMax(after) && (rel.spec.purge ==> !Spared(after, current.name))
  {
    var after := Superseded(store, current)[IdOf(rel) := RecordOf(rel)];
    assert after[Id(current.name, rel.spec.version)].spec.purge == rel.spec.purge;
    assert forall u: int32 :: Id(current.name, u) in after ==> u <= rel.spec.version;
  }

  /** The first notice is an update that can be carried out: it is, and adds a revision. */
  lemma UpdateGoesThrough(s: Sys, n: int32) returns (t: Sys)
    requires Tidy(s) && s.todo == [] && BelowMax(s.store) && s.queue != []
    requires s.queue[0].Changed? && Triggers(s.queue[0]) && Updatable(s.queue[0].after)
    requires var name := s.queue[0].after.name;
             MatchString(name) && Interval(s.store, name, 1, n) && 1 <= n < MAX_INT32 - 1
    ensures Leads(s, t) && Tidy(t) && t.todo == [] && BelowMax(t.store)
    ensures var rel := s.queue[0].after;
            Interval(t.store, rel.name, 1, n + 1) && (rel.spec.purge ==> !Spared(t.store, rel.name))
    ensures MoreChanges(s.(queue := s.queue[1..]), t) && t.rollback == s.rollback
    ensures t.objects.Keys == s.objects.Keys && (Keyed(s) ==> Keyed(t))
  {
    var rel := s.queue[0].after;
    var rels := HistoryExists(s, rel.name);
    BelowBound(s.store);
    hide Leads, Tidy, IsHistory, WellKeyed, UpdateRelease, BelowMax, Spared, MatchString, TriggersUpdate, Interval,
         PerformAll, HandlerOf, Reads;
    GrantedUpdateGrows(Now(s), rel, rels, n);
    var s1 := UpdateIsTaken(s, rels);
    t := ActsEnd(s1);
    LeadsTwice(s, s1, t);
    LeadsTidy(s, t);
  }

  lemma BelowBound(store: Store)
    requires WellKeyed(store, MAX_INT32) && BelowMax(store)
    ensures WellKeyed(store, MAX_INT32 - 1)
  {
  }

  lemma UpdateIsTaken(s: Sys, rels: seq<Snapshot>) returns (t: Sys)
    requires s.todo == [] && BelowMax(s.store) && s.queue != [] && s.queue[0].Changed? && Triggers(s.queue[0])
    requires IsHistory("ns", s.store, s.queue[0].after.name, rels)
    ensures Leads(s, t) && t == s.(queue := s.queue[1..], todo := t.todo, updates := t.updates, takes := t.takes)
    ensures Eventual(t) == UpdateRelease(GRANTING, Now(s), s.queue[0].after, rels, BARE_RENDERING).world.store
  {
    hide Leads, IsHistory, UpdateRelease, BelowMax, Done, MatchString, TriggersUpdate, PerformAll;
    var step := Take(GRANTING, rels, BARE_RENDERING, NO_LISTING);
    BareIsPlausible();
    assert Enabled(s, step);
    LeadsBy(s, step);
    t := Next(s, step);
    HandlerLeadsThere(s, s.queue[0], GRANTING, rels, BARE_RENDERING, NO_LISTING);
  }

  // ---------- revisions can be added one by one ----------

  /** An edit of the object that its echo cannot be mistaken for, and that asks for no purge. */
  function Edited(spec: ReleaseSpec): ReleaseSpec {
    spec.(chart := Some(Chart("c", [])), dryRun := false, purge := false, timeout := spec.timeout + 1)
  }

  lemma GrowsByOne(s: Sys, name: string, n: int32) returns (t: Sys)
    requires Tidy(s) && Keyed(s) && s.todo == [] && BelowMax(s.store) && name in s.objects && MatchString(name)
    requires Interval(s.store, name, 1, n) && 1 <= n < MAX_INT32 - 1 && NoRemovalAhead(s.queue, |s.queue|, name)
    ensures Leads(s, t) && Tidy(t) && Keyed(t) && t.todo == [] && BelowMax(t.store) && name in t.objects
    ensures Interval(t.store, name, 1, n + 1) && NoRemovalAhead(t.queue, |t.queue|, name) && t.rollback == s.rollback
  {
    var edit := EditObject(name, Edited(s.objects[name].spec));
    hide Leads, Tidy, BelowMax, MatchString, Interval, Spared;
    LeadsBy(s, edit);
    var s1 := Next(s, edit);
    LeadsTidy(s, s1);
    var s2 := NoticesPass(s1, |s.queue|);
    LeadsTwice(s, s1, s2);
    assert Untouched(s.store, s2.store, name);
    IntervalIsKept(s.store, s2.store, name, n);
    var notice := s1.queue[|s.queue|];
    assert s2.queue == [notice] && notice.after.spec.timeout != notice.before.spec.timeout;
    t := UpdateGoesThrough(s2, n);
    LeadsTwice(s, s2, t);
  }

  lemma IntervalIsKept(before: Store, after: Store, name: string, n: int)
    requires Untouched(before, after, name)
    ensures Interval(before, name, 1, n) <==> Interval(after, name, 1, n)
  {
  }

  lemma {:induction false} GrowsTo(s: Sys, name: string, n: int32, m: int32) returns (t: Sys)
    requires Tidy(s) && Keyed(s) && s.todo == [] && BelowMax(s.store) && name in s.objects && MatchString(name)
    requires Interval(s.store, name, 1, n) && NoRemovalAhead(s.queue, |s.queue|, name) && 1 <= n <= m < MAX_INT32
    ensures Leads(s, t) && t.todo == [] && name in t.objects && Interval(t.store, name, 1, m)
    ensures t.rollback == s.rollback
    decreases m - n
  {
    hide Leads, Tidy, Keyed, BelowMax, MatchString, Interval, NoRemovalAhead;
    if n == m {
      t := s;
      LeadsItself(s);
    } else {
      var s1 := GrowsByOne(s, name, n);
      t := GrowsTo(s1, name, n + 1, m);
      LeadsTwice(s, s1, t);
    }
  }

  // ---------- an install with the status and manifest of one's choice ----------

  /** Clocks show what the status asks for, and Kubernetes refuses exactly if it says so. */
  function Giving(status: ReleaseStatus): Env {
    Env("ns", (_, call: Call) => !(call.CreateResources? && status.code.FAILED?), _ => NoGroups,
        (_, _, _) => Some(map[]), _ => None,
        (_, k) => if k == 0 then status.firstDeployed else status.lastDeployed, _ => None)
  }

  function Yielding(status: ReleaseStatus, manifest: string): Rendering {
    Rendering([], Ok(Rendered([], manifest, status.notes)))
  }

  /** The release as such an install leaves it. */
  function Given(rel: Snapshot, status: ReleaseStatus, manifest: string): Snapshot {
    rel.(spec := rel.spec.(config := DefaultConfig(rel).spec.config, hooks := [], version := 1, manifest := manifest),
         status := status)
  }

  function GivingSteps(out: Snapshot): seq<Action> {
    [Built(out.namespace, out), Asked(InstallCall(out), !out.status.code.FAILED?), Asked(Publish(out), true),
     Create(out)]
  }

  /** A status that an install can give. */
  predicate Possible(status: ReleaseStatus) {
    FirstStatus(status) && status.firstDeployed != ZERO_TIME
  }

  lemma GivingInstall(w: World, rel: Snapshot, status: ReleaseStatus, manifest: string)
    requires Installable(rel) && rel.status == EMPTY_STATUS && Possible(status)
    ensures Done(w, InstallRelease(Giving(status), w, rel, Yielding(status, manifest)))
            == GivingSteps(Given(rel, status, manifest))
  {
    hide Fresh, PerformRelease;
    var env, rendering := Giving(status), Yielding(status, manifest);
    var out := Given(rel, status, manifest);
    var plan := GivingSteps(out);
    var p := PrepareRelease(env, w, rel, rendering);
    assert w.log + [] == w.log;
    FreshIsGiven(w, rel, status, manifest);
    assert p.err.None? && p.world == World(w.store, w.log + plan[..1]);
    GivingPerform(p.world, p.rel, out, status);
    hide PrepareRelease;
    var o := InstallRelease(env, w, rel, rendering);
    assert o.world.log == w.log + plan;
  }

  lemma FreshIsGiven(w: World, rel: Snapshot, status: ReleaseStatus, manifest: string)
    requires rel.status == EMPTY_STATUS && Possible(status)
    ensures var out := Given(rel, status, manifest);
            Fresh(Giving(status), w, DefaultConfig(rel), Yielding(status, manifest).result.value)
            == out.(status := status.(code := UNKNOWN, lastDeployedVersion := 0))
  {
  }

  lemma GivingPerform(w: World, rel: Snapshot, out: Snapshot, status: ReleaseStatus)
    requires rel.spec.hooks == [] && !rel.spec.dryRun && Possible(status)
    requires rel == out.(status := status.(code := UNKNOWN, lastDeployedVersion := 0)) && out.status == status
    ensures PerformRelease(Giving(status), w, rel).world.log == w.log + GivingSteps(out)[1..]
  {
    hide Conclude;
    var env := Giving(status);
    var asked := Asked(InstallCall(out), !out.status.code.FAILED?);
    var w1 := World(w.store, w.log + [asked]);
    var err := if status.code.FAILED? then Some(KubeFailed) else None;
    assert PerformRelease(env, w, rel) == Conclude(env, w1, out, err);
    ConcludesWith(env, w1, out, err);
    assert w.log + [asked] + [Asked(Publish(out), true), Create(out)] == w.log + GivingSteps(out)[1..];
  }

  lemma ConcludesWith(env: Env, w: World, out: Snapshot, err: Option<Error>)
    requires env.answer(w.log, Publish(out))
    ensures Conclude(env, w, out, err).world.log == w.log + [Asked(Publish(out), true), Create(out)]
  {
    var asked := Asked(Publish(out), true);
    assert env.Ask(w, Publish(out)) == w.Do(asked);
    assert w.log + [asked] + [Create(out)] == w.log + [asked, Create(out)];
  }

  /** The install's notice is taken, and its first two calls are made. */
  lemma InstallStarts(s: Sys, rel: Snapshot, status: ReleaseStatus, manifest: string) returns (t: Sys)
    requires s.todo == [] && s.queue != [] && s.queue[0] == Added(rel) && BelowMax(s.store)
    requires Installable(rel) && rel.status == EMPTY_STATUS && Possible(status)
    ensures var out := Given(rel, status, manifest);
            Leads(s, t) && t.todo == [Asked(Publish(out), true), Create(out)]
    ensures t == s.(queue := s.queue[1..], todo := t.todo, log := t.log, updates := t.updates, takes := t.takes)
  {
    GivingInstall(Now(s), rel, status, manifest);
    hide Leads, InstallRelease, BelowMax, Done, Given;
    var step := Take(Giving(status), [], Yielding(status, manifest), NO_LISTING);
    assert Enabled(s, step);
    LeadsBy(s, step);
    var s1 := Next(s, step);
    QuietAct(s1);
    var s2 := s1.(store := Perform(s1.store, s1.todo[0]), log := s1.log + [s1.todo[0]], todo := s1.todo[1..]);
    QuietAct(s2);
    t := s2.(store := Perform(s2.store, s2.todo[0]), log := s2.log + [s2.todo[0]], todo := s2.todo[1..]);
    LeadsTwice(s, s1, s2);
    LeadsTwice(s, s2, t);
  }

  /** Its status write and its record follow. */
  lemma InstallGoesThrough(s: Sys, rel: Snapshot, status: ReleaseStatus, manifest: string) returns (t: Sys)
    requires Tidy(s) && s.todo == [] && s.queue != [] && s.queue[0] == Added(rel) && BelowMax(s.store)
    requires Installable(rel) && rel.status == EMPTY_STATUS && Possible(status) && rel.name in s.objects
    ensures var out := Given(rel, status, manifest);
            Leads(s, t) && t.store == Perform(s.store, Create(out)) && t.objects == s.objects[rel.name := out]
    ensures Tidy(t) && t.todo == [] && BelowMax(t.store) && t.rollback == s.rollback
    ensures MoreChanges(s.(queue := s.queue[1..]), t)
  {
    var out := Given(rel, status, manifest);
    var s1 := InstallStarts(s, rel, status, manifest);
    hide Leads;
    LeadsBy(s1, Act);
    var s2 := Next(s1, Act);
    assert s2.todo == [Create(out)];
    QuietAct(s2);
    t := s2.(store := Perform(s2.store, Create(out)), log := s2.log + [Create(out)], todo := []);
    LeadsTwice(s, s1, s2);
    LeadsTwice(s, s2, t);
    LeadsTidy(s, t);
  }
}
