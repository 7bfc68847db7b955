/**
  Why the controller comes to rest: its own status writes never look like requests. This rests on the
  last deployed version of a Release object never running ahead of the archive.
*/
module Quiescence {
  import opened Wrappers
  import opened ReleaseKey
  import opened ReleaseName
  import opened Hapi
  import opened Worlds
  import opened KindSorter
  import opened Lifecycle
  import opened HookLaws
  import opened HandlerLaws
  import opened History
  import opened Controller
  import opened Purging

  // ---------- what the status of an object may claim ----------

  /** A claimed version is archived; no claim is made by a version that is not positive. */
  ghost predicate Covered(store: Store, name: string, claimed: int32) {
    claimed <= 0 || Id(name, claimed) in store
  }

  ghost predicate NoPublish(todo: seq<Action>) {
    forall k :: 0 <= k < |todo| ==> !Publishes(todo[k])
  }

  /** A status write claims a version that is new, or a first deployment, and that is archived in the end. */
  ghost predicate Fits(store: Store, rel: Snapshot, rest: seq<Action>) {
    && NoPublish(rest)
    && rel.status.lastDeployedVersion >= 1
    && (rel.status.firstDeployed == ZERO_TIME ==>
          forall v: int32 :: Id(rel.name, v) in store ==> v < rel.status.lastDeployedVersion)
    && Covered(PerformAll(store, rest), rel.name, rel.status.lastDeployedVersion)
  }

  /** Every status write of a plan fits the archive it will meet. */
  ghost predicate Announces(store: Store, todo: seq<Action>)
    decreases |todo|
  {
    todo == [] ||
    (&& (Publishes(todo[0]) ==> Fits(store, todo[0].call.rel, todo[1..]))
     && Announces(Perform(store, todo[0]), todo[1..]))
  }

  lemma CoverGrows(store: Store, todo: seq<Action>, name: string, claimed: int32)
    requires Covered(store, name, claimed) && !Removing(todo, name)
    ensures Covered(PerformAll(store, todo), name, claimed)
  {
    NothingLost(store, todo, name);
  }

  lemma {:induction false} AnnouncesAfter(store: Store, calls: seq<Action>, rest: seq<Action>)
    requires Neutral(calls) && Announces(store, rest)
    ensures Announces(store, calls + rest)
    decreases |calls|
  {
    if calls == [] {
      assert calls + rest == rest;
    } else {
      assert (calls + rest)[1..] == calls[1..] + rest;
      AnnouncesAfter(store, calls[1..], rest);
    }
  }

  lemma {:induction false} SilentPlansAnnounce(store: Store, todo: seq<Action>)
    requires NoPublish(todo)
    ensures Announces(store, todo)
    decreases |todo|
  {
    if todo != [] { SilentPlansAnnounce(Perform(store, todo[0]), todo[1..]); }
  }

  // ---------- the handlers' plans ----------

  /** What a plan may publish: one release, first deployed now or never. */
  ghost predicate PublishesAs(todo: seq<Action>, name: string, first: bool) {
    forall k :: 0 <= k < |todo| && Publishes(todo[k]) ==>
      && todo[k].call.rel.name == name
      && (first <==> todo[k].call.rel.status.firstDeployed != ZERO_TIME)
  }

  /** The status a first deployment may be given. */
  predicate FirstStatus(status: ReleaseStatus) {
    && status.details == "" && status.lastDeployedVersion == 1 && status.lastDeployed != ZERO_TIME
    && (status.code.DEPLOYED? || status.code.FAILED?)
  }

  ghost predicate PublishesFirst(todo: seq<Action>) {
    forall k :: 0 <= k < |todo| && Publishes(todo[k]) ==> FirstStatus(todo[k].call.rel.status)
  }

  lemma UpdateWritesAnnounce(store: Store, current: Snapshot, rel: Snapshot, end: UpdateEnd)
    requires forall v: int32 :: Id(rel.name, v) in store ==> v < rel.spec.version
    requires rel.name == current.name
    requires rel.spec.version == rel.status.lastDeployedVersion >= 1
    requires rel.status.firstDeployed == ZERO_TIME
    ensures var writes := UpdateWrites(current, rel, end);
            Announces(store, writes) && PublishesAs(writes, rel.name, false)
  {
    var supersede, create := Put(current.WithCode(SUPERSEDED)), Create(rel);
    var s1 := Perform(store, supersede);
    var writes := UpdateWrites(current, rel, end);
    SilentPlansAnnounce(store, []);
    match end
    case Refused =>
    case Failed(published) =>
      var tail := if published then [supersede, create, create] else [supersede, create];
      assert writes == [Asked(Publish(rel), published)] + tail && writes[1..] == tail;
      SilentPlansAnnounce(store, tail);
      PerformThree(store, tail);
    case Unpublished => SilentPlansAnnounce(store, writes);
    case Deployed =>
      var asked := Asked(Publish(rel), true);
      assert writes == [supersede, asked, create] && writes[1..] == [asked, create] && writes[1..][1..] == [create];
      SilentPlansAnnounce(s1, [create]);
      PerformThree(s1, [create]);
      assert Announces(s1, [asked, create]);
  }

  lemma UpdatePlan(env: Env, w: World, rel: Snapshot, rels: seq<Snapshot>, rendering: Rendering, bound: int)
    requires Plausible(rendering) && IsHistory(env.namespace, w.store, rel.name, rels)
    requires WellKeyed(w.store, bound) && bound < MAX_INT32
    ensures var plan := Done(w, UpdateRelease(env, w, rel, rels, rendering));
            Announces(w.store, plan) && PublishesAs(plan, rel.name, false)
  {
    hide UpdateRelease, MatchString, IsHistory, WellKeyed, PerformAll, UpdateWrites, UpdateCalls, Announces, Done;
    var o := UpdateRelease(env, w, rel, rels, rendering);
    var calls, end := UpdateShape(env, w, rel, rels, rendering);
    var writes := if end.Refused? then [] else UpdateWrites(LastOf(rels), o.rel, end);
    DoneIs(w, o, calls, writes);
    if end.Refused? {
      SilentPlansAnnounce(w.store, []);
    } else {
      NewestOf(env.namespace, w.store, rel.name, rels, bound);
      UpdateWritesAnnounce(w.store, LastOf(rels), o.rel, end);
    }
    AnnouncesAfter(w.store, calls, writes);
  }

  lemma InstallPlan(env: Env, w: World, rel: Snapshot, rendering: Rendering)
    requires Plausible(rendering) && Ticks(env)
    ensures var plan := Done(w, InstallRelease(env, w, rel, rendering));
            && Announces(w.store, plan) && PublishesAs(plan, rel.name, true)
            && (rel.status == EMPTY_STATUS ==> PublishesFirst(plan))
            && (!Installable(rel) ==> NoPublish(plan))
  {
    hide InstallRelease, PerformAll, Announces, InstallCalls, Done;
    var o := InstallRelease(env, w, rel, rendering);
    var calls, end := InstallShape(env, w, rel, rendering);
    var writes := InstallWrites(o.rel, end);
    DoneIs(w, o, calls, writes);
    if end.NotInstalled? {
      SilentPlansAnnounce(w.store, []);
    } else {
      if !Installable(rel) { UninstallableIsRefused(env, w, rel, rendering); }
      InstallWritesAnnounce(w.store, o.rel, end);
    }
    AnnouncesAfter(w.store, calls, writes);
  }

  lemma InstallWritesAnnounce(store: Store, rel: Snapshot, end: InstallEnd)
    requires !end.NotInstalled?
    requires rel.spec.version == 1 == rel.status.lastDeployedVersion && rel.status.firstDeployed != ZERO_TIME
    ensures Announces(store, InstallWrites(rel, end))
  {
    var create := Create(rel);
    var writes := InstallWrites(rel, end);
    assert writes[1..] == [create];
    SilentPlansAnnounce(store, [create]);
    PerformThree(store, [create]);
  }

  lemma UninstallPlan(env: Env, w: World, rel: Snapshot, rels: seq<Snapshot>, listing: Result<seq<Manifest>, Error>,
                      bound: int)
    requires IsHistory(env.namespace, w.store, rel.name, rels) && WellKeyed(w.store, bound)
    ensures NoPublish(Done(w, UninstallRelease(env, w, rel, rels, listing)))
  {
    hide MatchString, UninstallNewest, Purge, IsHistory, WellKeyed;
    if MatchString(rel.name) && rels != [] {
      if rels[|rels| - 1].spec.purge {
        PurgeConcerns(env.namespace, w, rel, rels, bound);
      } else {
        RewritePlan(env, w, rels[|rels| - 1], listing);
      }
    }
  }

  lemma RewritePlan(env: Env, w: World, newest: Snapshot, listing: Result<seq<Manifest>, Error>)
    ensures NoPublish(Done(w, UninstallNewest(env, w, newest, listing)))
  {
    hide UninstallNewest;
    var o := UninstallNewest(env, w, newest, listing);
    UninstallOnlyRewrites(env, w, newest, listing);
    var actions :| o.world.log == w.log + actions && OnlyRewrites(actions, newest);
    assert (w.log + actions)[|w.log|..] == actions;
  }

  // ---------- the invariant ----------

  /** There is no object of the name: none yet, or no more. */
  predicate Dead(s: Sys, name: string) {
    name !in s.objects
  }

  ghost predicate NeverDeployed(s: Sys, name: string) {
    name in s.objects ==> s.objects[name].status.firstDeployed == ZERO_TIME
  }

  ghost predicate Keyed(s: Sys) {
    forall name :: name in s.objects ==> s.objects[name].name == name
  }

  /** The archive once the pending plan is done. */
  function Eventual(s: Sys): Store {
    PerformAll(s.store, s.todo)
  }

  /** The archive will be below the version limit, so more handlers may start. */
  predicate Open(s: Sys) {
    BelowMax(Eventual(s))
  }

  /** The archive an object's claims are held against: while a status write is pending, the present one. */
  ghost function Horizon(s: Sys): Store {
    if NoPublish(s.todo) then Eventual(s) else s.store
  }

  ghost predicate Coverage(s: Sys) {
    forall name :: name in s.objects ==> Covered(Horizon(s), name, s.objects[name].status.lastDeployedVersion)
  }

  /** None of the notices from k on is that of a creation that may still be installed. */
  ghost predicate NoInstallFrom(s: Sys, name: string, k: nat) {
    Open(s) ==> forall j :: k <= j < |s.queue| ==> !IsInstall(s.queue[j], name)
  }

  /** The pending plan is what is left of a purge, there is no object of its name, and none to install. */
  ghost predicate Clears(s: Sys, name: string) {
    && MatchString(name) && Dead(s, name) && NoInstallFrom(s, name, 0)
    && exists ns: string, rels: seq<Snapshot> ::
         s.todo == Removals(rels) && IsHistory(ns, s.store, name, rels)
  }

  ghost predicate PurgesClear(s: Sys) {
    forall name :: Removing(s.todo, name) ==> Clears(s, name)
  }

  /** Taking the notices before the k-th, and then a removal of the name, will purge nothing. */
  ghost predicate Mild(s: Sys, name: string, k: nat)
    requires k <= |s.queue|
  {
    MatchString(name) && Open(s) ==> !WillAsk(Eventual(s), s.queue[..k], name)
  }

  /** A queued removal that may purge meets no object, and none is installed behind it. */
  ghost predicate RemovalsMild(s: Sys) {
    forall k :: 0 <= k < |s.queue| && s.queue[k].Removed? ==>
      var name := s.queue[k].rel.name;
      Mild(s, name, k) || (Dead(s, name) && NoInstallFrom(s, name, k))
  }

  ghost predicate FirstPublish(a: Action) {
    Publishes(a) && a.call.rel.status.firstDeployed != ZERO_TIME
  }

  ghost predicate CreationsBlank(s: Sys) {
    forall k :: 0 <= k < |s.queue| && s.queue[k].Added? ==> s.queue[k].rel.status == EMPTY_STATUS
  }

  /** Each object is installed once, and nothing else claims a first deployment. */
  ghost predicate InstalledOnce(s: Sys) {
    && (Open(s) ==> forall k :: 0 <= k < |s.queue| && s.queue[k].Added? && Installable(s.queue[k].rel) ==>
          NeverDeployed(s, s.queue[k].rel.name) && NoInstallFrom(s, s.queue[k].rel.name, k + 1))
    && (forall k :: 0 <= k < |s.todo| && FirstPublish(s.todo[k]) ==> Installing(s, s.todo[k].call.rel))
  }

  ghost predicate Installing(s: Sys, rel: Snapshot) {
    FirstStatus(rel.status) && NeverDeployed(s, rel.name) && NoInstallFrom(s, rel.name, 0)
  }

  /** The archive holds the claimed version, and will. */
  ghost predicate ClaimKept(s: Sys, name: string, claimed: int32) {
    Covered(s.store, name, claimed) && Covered(Eventual(s), name, claimed)
  }

  /** There will be no revision of the name, nor any until another object is created. */
  ghost predicate Barren(s: Sys, name: string) {
    NoneOf(Eventual(s), name) && NoInstallFrom(s, name, 0)
  }

  /** The rollback is to an older revision than the one it has read as the newest. */
  predicate Risky(job: RollbackJob) {
    job.HasLast? && 1 <= TargetId(job).version < job.current.status.lastDeployedVersion
  }

  /** A rollback that would claim more than the archive holds meets no revision to go back to, or no object. */
  ghost predicate RollbackCovered(s: Sys) {
    match s.rollback
    case Idle => true
    case HasLast(req, current) =>
      && current.name == RollbackName(req) && MatchString(current.name)
      && current.status.firstDeployed == ZERO_TIME
      && (Risky(s.rollback) ==>
            ClaimKept(s, current.name, current.status.lastDeployedVersion) || Barren(s, current.name))
    case HasTarget(target) =>
      && target.status.firstDeployed == ZERO_TIME
      && (ClaimKept(s, target.name, target.status.lastDeployedVersion)
          || (Barren(s, target.name) && Dead(s, target.name)))
  }

  function CountTriggers(queue: seq<Notice>): nat {
    if queue == [] then 0 else (if Triggers(queue[0]) then 1 else 0) + CountTriggers(queue[1..])
  }

  ghost predicate Counted(s: Sys) {
    s.updates + CountTriggers(s.queue) <= s.edits + s.rollbackWrites
  }

  ghost predicate Calm(s: Sys) {
    && Keyed(s) && Coverage(s) && Announces(s.store, s.todo) && PurgesClear(s) && RemovalsMild(s)
    && CreationsBlank(s) && InstalledOnce(s) && RollbackCovered(s) && Counted(s)
  }

  lemma {:induction false} CountSnoc(queue: seq<Notice>, n: Notice)
    ensures CountTriggers(queue + [n]) == CountTriggers(queue) + if Triggers(n) then 1 else 0
    decreases |queue|
  {
    if queue == [] {
      assert queue + [n] == [n];
    } else {
      assert (queue + [n])[1..] == queue[1..] + [n];
      CountSnoc(queue[1..], n);
    }
  }

  /** A purge under way leaves nothing. */
  lemma ClearsAll(s: Sys, name: string, bound: int)
    requires Clears(s, name) && WellKeyed(s.store, bound)
    ensures Barren(s, name)
  {
    hide IsHistory, WellKeyed, PerformAll, MatchString;
    var ns: string, rels: seq<Snapshot> :| s.todo == Removals(rels) && IsHistory(ns, s.store, name, rels);
    PurgeLeavesNone(ns, s.store, name, rels, bound);
  }

  /** A claim that is archived stays so, unless a purge under way takes everything and there is no object. */
  lemma ClaimStays(s: Sys, name: string, claimed: int32, bound: int)
    requires PurgesClear(s) && WellKeyed(s.store, bound) && Covered(s.store, name, claimed)
    ensures ClaimKept(s, name, claimed) || (Barren(s, name) && Dead(s, name))
  {
    hide WellKeyed, Covered, Barren, MatchString;
    if Removing(s.todo, name) { ClearsAll(s, name, bound); } else { CoverGrows(s.store, s.todo, name, claimed); }
  }

  // ---------- the controller acts ----------

  /**
    A status write of the controller is a first deployment, or raises the last deployed version; either
    way it changes the status it replaces, so its echo is never taken for an update.
  */
  lemma EchoIsIgnored(s: Sys)
    requires Calm(s) && s.todo != [] && Publishes(s.todo[0])
    ensures var rel := s.todo[0].call.rel;
            rel.name in s.objects ==>
              && (rel.status.firstDeployed == ZERO_TIME ==>
                    s.objects[rel.name].status.lastDeployedVersion < rel.status.lastDeployedVersion)
              && s.objects[rel.name].status != rel.status
              && !Triggers(Changed(s.objects[rel.name], rel))
  {
    var rel := s.todo[0].call.rel;
    assert !NoPublish(s.todo);
    if rel.name in s.objects {
      assert Covered(s.store, rel.name, s.objects[rel.name].status.lastDeployedVersion);
      if rel.status.firstDeployed != ZERO_TIME { assert FirstPublish(s.todo[0]); }
    }
  }

  /** What an action leaves: the plan's end, the names without object, and the queue but for one notice behind. */
  lemma Acted(s: Sys)
    requires s.todo != []
    ensures var t := Next(s, Act);
            && Eventual(t) == Eventual(s) && t.todo == s.todo[1..] && t.store == Perform(s.store, s.todo[0])
            && t.objects.Keys == s.objects.Keys && t.rollback == s.rollback && MoreChanges(s, t)
            && (!Publishes(s.todo[0]) ==> t.queue == s.queue && t.objects == s.objects)
            && (Keyed(s) ==> Keyed(t))
  {
    hide Handle;
  }

  /** The later queue is the earlier one, perhaps with notices of changes behind. */
  ghost predicate MoreChanges(s: Sys, t: Sys) {
    s.queue <= t.queue && forall k :: |s.queue| <= k < |t.queue| ==> t.queue[k].Changed?
  }

  lemma ActKeepsCalm(s: Sys, bound: int)
    requires Calm(s) && s.todo != [] && WellKeyed(s.store, bound)
    ensures Calm(Next(s, Act))
  {
    var t := Next(s, Act);
    Acted(s);
    ActKeepsCoverage(s);
    ActKeepsCount(s);
    ActKeepsInstalls(s);
    ActKeepsPurges(s, bound);
    ActKeepsRollback(s, bound);
    ChangesKeepMild(s, t);
    hide RemovalsMild, InstalledOnce, RollbackCovered, PurgesClear, Coverage, WellKeyed, Handle, Eventual;
    assert Announces(t.store, t.todo) && Keyed(t) && CreationsBlank(t);
  }

  /** Notices of changes that are queued later change nothing for what is queued already. */
  lemma ChangesKeepMild(s: Sys, t: Sys)
    requires RemovalsMild(s) && Eventual(t) == Eventual(s) && t.objects.Keys == s.objects.Keys && MoreChanges(s, t)
    ensures RemovalsMild(t)
  {
    hide WillAsk, MatchString, BelowMax, Eventual;
    forall k | 0 <= k < |t.queue| && t.queue[k].Removed?
      ensures Mild(t, t.queue[k].rel.name, k)
              || (Dead(t, t.queue[k].rel.name) && NoInstallFrom(t, t.queue[k].rel.name, k))
    {
      assert s.queue[k] == t.queue[k] && s.queue[..k] == t.queue[..k];
      if !Mild(s, t.queue[k].rel.name, k) { NoInstallStays(s, t, t.queue[k].rel.name, k); }
    }
  }

  lemma NoInstallStays(s: Sys, t: Sys, name: string, k: nat)
    requires NoInstallFrom(s, name, k) && Eventual(t) == Eventual(s) && s.queue <= t.queue
    requires forall j :: |s.queue| <= j < |t.queue| ==> !IsInstall(t.queue[j], name)
    ensures NoInstallFrom(t, name, k)
  {
    assert forall j :: 0 <= j < |s.queue| ==> t.queue[j] == s.queue[j];
  }

  lemma ActKeepsCount(s: Sys)
    requires Calm(s) && s.todo != []
    ensures Counted(Next(s, Act))
  {
    var a := s.todo[0];
    if Publishes(a) && a.call.rel.name in s.objects {
      EchoIsIgnored(s);
      CountSnoc(s.queue, Changed(s.objects[a.call.rel.name], a.call.rel));
    }
  }

  /** What a write does to the claims: the object's own is checked, all others grow with the archive. */
  lemma HorizonGrows(s: Sys, name: string, claimed: int32)
    requires Covered(s.store, name, claimed) && !Removing(s.todo, name)
    ensures Covered(Horizon(s), name, claimed)
  {
    CoverGrows(s.store, s.todo, name, claimed);
  }

  lemma ActKeepsCoverage(s: Sys)
    requires Calm(s) && s.todo != []
    ensures Coverage(Next(s, Act))
  {
    var a, rest := s.todo[0], s.todo[1..];
    var t := Next(s, Act);
    Acted(s);
    hide Handle, Eventual, RemovalsMild, InstalledOnce, RollbackCovered, MatchString, IsHistory, MoreChanges;
    forall name | name in t.objects
      ensures Covered(Horizon(t), name, t.objects[name].status.lastDeployedVersion)
    {
      assert !Dead(s, name);
      assert !Removing(s.todo, name) && !Removing(t.todo, name);
      if Publishes(a) && name == a.call.rel.name {
        assert Fits(s.store, a.call.rel, rest);
        assert t.store == s.store && Eventual(t) == PerformAll(s.store, rest);
      } else if NoPublish(s.todo) {
        assert NoPublish(rest) && Horizon(t) == Horizon(s);
      } else {
        StaysCovered(s.store, a, name, s.objects[name].status.lastDeployedVersion);
        HorizonGrows(t, name, t.objects[name].status.lastDeployedVersion);
      }
    }
  }

  lemma StaysCovered(store: Store, a: Action, name: string, claimed: int32)
    requires Covered(store, name, claimed) && !(a.Remove? && a.name == name)
    ensures Covered(Perform(store, a), name, claimed)
  {
  }

  lemma ActKeepsInstalls(s: Sys)
    requires Calm(s) && s.todo != []
    ensures InstalledOnce(Next(s, Act))
  {
    var a, rest := s.todo[0], s.todo[1..];
    var t := Next(s, Act);
    Acted(s);
    hide RemovalsMild, RollbackCovered, Coverage, PurgesClear, Handle, Eventual, Covered;
    if FirstPublish(a) {
      assert Fits(s.store, a.call.rel, rest) && NoPublish(rest);
      assert Installing(s, a.call.rel);
    }
    hide Announces, FirstStatus, Installable, BelowMax;
    assert forall j :: 0 <= j < |s.queue| ==> t.queue[j] == s.queue[j];
    forall name | NeverDeployed(s, name) && !(FirstPublish(a) && a.call.rel.name == name)
      ensures NeverDeployed(t, name)
    {
    }
    forall k | 0 <= k < |t.todo| && FirstPublish(t.todo[k])
      ensures Installing(t, t.todo[k].call.rel)
    {
      assert Installing(s, s.todo[k + 1].call.rel);
    }
  }

  /** A purge goes on with what is left of the history. */
  lemma ActKeepsPurges(s: Sys, bound: int)
    requires Calm(s) && s.todo != [] && WellKeyed(s.store, bound)
    ensures PurgesClear(Next(s, Act))
  {
    var t := Next(s, Act);
    Acted(s);
    hide RemovalsMild, RollbackCovered, Coverage, InstalledOnce, Handle, Eventual, Covered, Announces, MatchString,
         IsHistory;
    forall name | Removing(t.todo, name) ensures Clears(t, name) {
      assert Removing(s.todo, name) by {
        var k :| 0 <= k < |t.todo| && t.todo[k].Remove? && t.todo[k].name == name;
        assert s.todo[k + 1] == t.todo[k];
      }
      assert Clears(s, name);
      PurgeGoesOn(s, name, bound);
    }
  }

  lemma PurgeGoesOn(s: Sys, name: string, bound: int)
    requires Clears(s, name) && s.todo != [] && WellKeyed(s.store, bound)
    ensures Clears(Next(s, Act), name)
  {
    var t := Next(s, Act);
    Acted(s);
    hide Handle, Eventual, IsHistory, MatchString, Next, Perform, WellKeyed, BelowMax, Removals, MoreChanges;
    var ns: string, rels: seq<Snapshot> :| s.todo == Removals(rels) && IsHistory(ns, s.store, name, rels);
    RestOfHistory(ns, s.store, name, rels, bound);
    assert t.queue == s.queue && t.objects == s.objects;
    ClearsBy(t, name, ns, rels[1..]);
  }

  lemma ClearsBy(s: Sys, name: string, ns: string, rels: seq<Snapshot>)
    requires MatchString(name) && Dead(s, name) && NoInstallFrom(s, name, 0)
    requires s.todo == Removals(rels) && IsHistory(ns, s.store, name, rels)
    ensures Clears(s, name)
  {
  }

  lemma RestOfHistory(ns: string, store: Store, name: string, rels: seq<Snapshot>, bound: int)
    requires IsHistory(ns, store, name, rels) && rels != [] && WellKeyed(store, bound)
    ensures Removals(rels)[1..] == Removals(rels[1..])
    ensures IsHistory(ns, Perform(store, Removals(rels)[0]), name, rels[1..])
  {
    HistoryIsStored(ns, store, name, rels);
    DropOldest(ns, store, name, rels);
  }

  lemma HistoryIsStored(ns: string, store: Store, name: string, rels: seq<Snapshot>)
    requires IsHistory(ns, store, name, rels)
    ensures forall i :: 0 <= i < |rels| ==> Id(name, rels[i].spec.version) in store
  {
  }

  lemma ActKeepsRollback(s: Sys, bound: int)
    requires Calm(s) && s.todo != [] && WellKeyed(s.store, bound)
    ensures RollbackCovered(Next(s, Act))
  {
    var a, t := s.todo[0], Next(s, Act);
    Acted(s);
    hide Handle, Eventual, IsHistory, RemovalsMild, InstalledOnce, Coverage, Announces, MatchString, WellKeyed, Risky,
         Perform;
    forall name, claimed | ClaimKept(s, name, claimed)
      ensures ClaimKept(t, name, claimed)
    {
      if a.Remove? && a.name == name {
        ClearsAll(s, name, bound);
      } else {
        StaysCovered(s.store, a, name, claimed);
      }
    }
    forall name | Barren(s, name) ensures Barren(t, name) { NoInstallStays(s, t, name, 0); }
  }

  // ---------- the controller takes a notice ----------

  lemma TakeKeepsCalm(s: Sys, step: Step, bound: int)
    requires Calm(s) && step.Take? && Enabled(s, step) && WellKeyed(s.store, bound) && bound < MAX_INT32
    requires Tidy(s)
    ensures Calm(Next(s, step))
  {
    var n, t := s.queue[0], Next(s, step);
    TakenPlan(s, n, step.env, step.rels, step.rendering, step.listing, bound);
    TakeKeepsMild(s, step, bound);
    TakeKeepsPurges(s, step, bound);
    TakeKeepsRollback(s, step, bound);
    TakeKeepsInstalls(s, t, n);
    TakeKeepsCoverage(s, t);
    hide Enabled, Handle, WellKeyed, Mild, RemovalsMild, InstalledOnce, RollbackCovered, PurgesClear, Coverage, Tidy;
    assert Keyed(t) && Counted(t) && CreationsBlank(t);
  }

  lemma TakeKeepsCoverage(s: Sys, t: Sys)
    requires Coverage(s) && s.todo == [] && PurgesClear(t) && t.store == s.store && t.objects == s.objects
    ensures Coverage(t)
  {
    hide Clears;
    assert NoPublish(s.todo) && Horizon(s) == s.store;
    forall name | name in t.objects
      ensures Covered(Horizon(t), name, t.objects[name].status.lastDeployedVersion)
    {
      if Removing(t.todo, name) { DeadIfRemoving(t, name); }
      HorizonGrows(t, name, t.objects[name].status.lastDeployedVersion);
    }
  }

  lemma DeadIfRemoving(s: Sys, name: string)
    requires PurgesClear(s) && Removing(s.todo, name)
    ensures Dead(s, name) && NoInstallFrom(s, name, 0)
  {
  }

  lemma TakeKeepsMild(s: Sys, step: Step, bound: int)
    requires Calm(s) && step.Take? && Enabled(s, step) && WellKeyed(s.store, bound) && bound < MAX_INT32
    requires Tidy(s)
    ensures RemovalsMild(Next(s, step))
  {
    var t := Next(s, step);
    IsOpen(s, bound);
    assert t.objects == s.objects && t.queue == s.queue[1..];
    hide Next, Enabled, Handle, Covered, Announces, MatchString, WellKeyed, Tidy, Mild, Open, RollbackCovered,
         InstalledOnce, Coverage, PurgesClear, Installable;
    forall k | 0 <= k < |t.queue| && t.queue[k].Removed?
      ensures Mild(t, t.queue[k].rel.name, k)
              || (Dead(t, t.queue[k].rel.name) && NoInstallFrom(t, t.queue[k].rel.name, k))
    {
      var name := t.queue[k].rel.name;
      assert s.queue[k + 1] == t.queue[k];
      if Mild(s, name, k + 1) {
        TakeKeepsMildAt(s, step, bound, name, k);
      } else {
        assert forall j :: 0 <= j < |t.queue| ==> t.queue[j] == s.queue[j + 1];
      }
    }
  }

  lemma TakeKeepsMildAt(s: Sys, step: Step, bound: int, name: string, k: nat)
    requires step.Take? && Enabled(s, step) && WellKeyed(s.store, bound) && bound < MAX_INT32 && Tidy(s)
    requires k + 1 <= |s.queue| && Mild(s, name, k + 1)
    ensures Mild(Next(s, step), name, k)
  {
    var n, t := s.queue[0], Next(s, step);
    IsOpen(s, bound);
    hide Handle, Triggers, MatchString, Reads, WellKeyed, WillAsk, IsHistory, PerformAll, Tidy;
    if MatchString(name) {
      assert s.queue[..k + 1] == [n] + t.queue[..k];
      IsSettled(s, name);
      TakingKeepsMild(s, n, step.env, step.rels, step.rendering, step.listing, bound, t.queue[..k], name);
    }
  }

  /** A handler can start only below the limit. */
  lemma IsOpen(s: Sys, bound: int)
    requires s.todo == [] && WellKeyed(s.store, bound) && bound < MAX_INT32
    ensures Open(s) && Eventual(s) == s.store
  {
  }

  lemma IsSettled(s: Sys, name: string)
    requires Tidy(s) && !Removing(s.todo, name)
    ensures Settled(s.store, name)
  {
    assert SafePlan(s.store, s.todo, name, MAX_INT32);
  }

  /** A purge begins only where there is no object of the name, and none to install. */
  lemma TakeKeepsPurges(s: Sys, step: Step, bound: int)
    requires Calm(s) && step.Take? && Enabled(s, step) && WellKeyed(s.store, bound) && bound < MAX_INT32
    ensures PurgesClear(Next(s, step))
  {
    hide Next, Enabled, WellKeyed, Clears, RollbackCovered, InstalledOnce, Coverage, Announces, RemovalsMild;
    forall name | Removing(Next(s, step).todo, name)
      ensures Clears(Next(s, step), name)
    {
      TakenPurgeClears(s, step, bound, name);
    }
  }

  lemma TakenPurgeClears(s: Sys, step: Step, bound: int, name: string)
    requires RemovalsMild(s) && step.Take? && Enabled(s, step) && WellKeyed(s.store, bound) && bound < MAX_INT32
    requires Removing(Next(s, step).todo, name)
    ensures Clears(Next(s, step), name)
  {
    Taken(s, step);
    hide Handle, MatchString, WellKeyed, IsHistory, Spared, Next, RemovalsMild, Enabled, Installable, BelowMax,
         Eventual, Removals, Removing;
    var t := Next(s, step);
    IsOpen(s, bound);
    PurgeIsTaken(s, step, bound, name);
    PurgeIsAlone(s, name);
    ClearsBy(t, name, step.env.namespace, step.rels);
  }

  lemma Taken(s: Sys, step: Step)
    requires step.Take? && Enabled(s, step)
    ensures s.todo == [] && s.queue != []
    ensures Next(s, step).objects == s.objects && Next(s, step).store == s.store && Next(s, step).queue == s.queue[1..]
    ensures forall j :: 0 <= j < |s.queue| - 1 ==> Next(s, step).queue[j] == s.queue[j + 1]
  {
    hide Handle;
  }

  lemma PurgeIsTaken(s: Sys, step: Step, bound: int, name: string)
    requires step.Take? && Enabled(s, step) && WellKeyed(s.store, bound) && bound < MAX_INT32
    requires Removing(Next(s, step).todo, name)
    ensures IsRemoval(s.queue[0], name) && MatchString(name) && !Spared(s.store, name)
    ensures Next(s, step).todo == Removals(step.rels)
    ensures IsHistory(step.env.namespace, Next(s, step).store, name, step.rels)
  {
    hide Handle, Triggers, MatchString, Reads, WellKeyed, IsHistory, PerformAll, Spared;
    PlanSpares(s, s.queue[0], step.env, step.rels, step.rendering, step.listing, bound);
  }

  lemma PurgeIsAlone(s: Sys, name: string)
    requires RemovalsMild(s) && s.todo == [] && Open(s) && s.queue != [] && IsRemoval(s.queue[0], name)
    requires MatchString(name) && !Spared(s.store, name)
    ensures Dead(s, name) && NoInstallFrom(s, name, 0)
  {
    hide MatchString, Spared;
    if NoneOf(s.store, name) { NoneIsSpared(s.store, name); }
    assert WillAsk(s.store, s.queue[..0], name) && !Mild(s, name, 0);
  }

  lemma TakeKeepsRollback(s: Sys, step: Step, bound: int)
    requires Calm(s) && step.Take? && Enabled(s, step) && WellKeyed(s.store, bound) && bound < MAX_INT32
    requires PurgesClear(Next(s, step))
    ensures RollbackCovered(Next(s, step))
  {
    var t := Next(s, step);
    forall name | Barren(s, name) ensures Barren(t, name) { TakeKeepsBarren(s, step, name, bound); }
    assert t.store == s.store && t.rollback == s.rollback && t.objects == s.objects;
    hide Handle, Next, Enabled, MatchString, WellKeyed, RemovalsMild, InstalledOnce, Coverage, PurgesClear, Risky,
         Covered, Barren, Eventual, Announces;
    forall name, claimed | ClaimKept(s, name, claimed)
      ensures ClaimKept(t, name, claimed) || (Barren(t, name) && Dead(t, name))
    {
      ClaimStays(t, name, claimed, bound);
    }
  }

  lemma TakeKeepsBarren(s: Sys, step: Step, name: string, bound: int)
    requires step.Take? && Enabled(s, step) && WellKeyed(s.store, bound) && bound < MAX_INT32 && Barren(s, name)
    ensures Barren(Next(s, step), name)
  {
    var t := Next(s, step);
    Taken(s, step);
    IsOpen(s, bound);
    StaysNone(s, step, name, bound);
    hide Handle, Next, Enabled, WellKeyed, PerformAll, Installable, BelowMax;
    assert NoInstallFrom(t, name, 0);
  }

  lemma StaysNone(s: Sys, step: Step, name: string, bound: int)
    requires step.Take? && Enabled(s, step) && WellKeyed(s.store, bound) && bound < MAX_INT32
    requires NoneOf(s.store, name) && !IsInstall(s.queue[0], name)
    ensures NoneOf(Eventual(Next(s, step)), name)
  {
    var n, t := s.queue[0], Next(s, step);
    PlanSpares(s, n, step.env, step.rels, step.rendering, step.listing, bound);
    hide Handle, Triggers, MatchString, Reads, WellKeyed, IsHistory, PerformAll, Spared, Installable, BelowMax;
    if NoticeName(n) != name {
      OthersUntouched(s.store, t.todo, NoticeName(n), name);
      NoneIsKept(s.store, Eventual(t), name);
    }
  }

  /** What the plan a notice is answered with may publish. */
  ghost predicate PlanOf(n: Notice, store: Store, todo: seq<Action>) {
    && Announces(store, todo)
    && if n.Added? then
         && PublishesAs(todo, n.rel.name, true)
         && (n.rel.status == EMPTY_STATUS ==> PublishesFirst(todo))
         && (!Installable(n.rel) ==> NoPublish(todo))
       else
         forall k :: 0 <= k < |todo| ==> !FirstPublish(todo[k])
  }

  lemma TakenPlan(s: Sys, n: Notice, env: Env, rels: seq<Snapshot>, rendering: Rendering,
                  listing: Result<seq<Manifest>, Error>, bound: int)
    requires Ticks(env) && Reads(s.store, n, env, rels, rendering)
    requires WellKeyed(s.store, bound) && bound < MAX_INT32
    ensures PlanOf(n, s.store, Handle(s, n, env, rels, rendering, listing))
  {
    hide InstallRelease, UninstallRelease, UpdateRelease, Announces, MatchString, Triggers, Done, IsHistory, WellKeyed,
         Installable, FirstStatus;
    var w, todo := Now(s), Handle(s, n, env, rels, rendering, listing);
    UnreadIsUndone(w, n, env, rels, rendering, listing);
    if todo == [] {
      SilentPlansAnnounce(s.store, []);
    } else {
      match n
      case Added(rel) => InstallPlan(env, w, rel, rendering);
      case Removed(rel) =>
        UninstallPlan(env, w, rel, rels, listing, bound);
        SilentPlansAnnounce(s.store, todo);
      case Changed(_, after) => UpdatePlan(env, w, after, rels, rendering, bound);
    }
  }

  lemma TakeKeepsInstalls(s: Sys, t: Sys, n: Notice)
    requires InstalledOnce(s) && CreationsBlank(s) && s.todo == [] && s.queue != [] && n == s.queue[0]
    requires BelowMax(s.store) && PlanOf(n, s.store, t.todo)
    requires t.queue == s.queue[1..] && t.objects == s.objects
    ensures InstalledOnce(t)
  {
    hide Announces, FirstStatus, Installable, BelowMax;
    assert Eventual(s) == s.store;
    assert forall k :: 0 <= k < |t.queue| ==> t.queue[k] == s.queue[k + 1];
    if n.Added? && Installable(n.rel) {
      assert NeverDeployed(t, n.rel.name) && NoInstallFrom(t, n.rel.name, 0);
    }
  }

  // ---------- the users' steps ----------

  /** No object of the name is being installed, or waits for it. */
  ghost predicate NoInstall(s: Sys, name: string) {
    && NoInstallFrom(s, name, 0)
    && forall k :: 0 <= k < |s.todo| && FirstPublish(s.todo[k]) ==> s.todo[k].call.rel.name != name
  }

  /** What a rollback of the name that has its target will claim, the archive will hold. */
  ghost predicate TargetHeld(s: Sys, name: string) {
    s.rollback.HasTarget? && s.rollback.target.name == name ==>
      Covered(Eventual(s), name, s.rollback.target.status.lastDeployedVersion)
  }

  /** The same of a rollback that is still to read an older target. */
  ghost predicate NewestHeld(s: Sys, name: string) {
    Risky(s.rollback) && s.rollback.current.name == name ==>
      Covered(Eventual(s), name, s.rollback.current.status.lastDeployedVersion)
  }

  /**
    Nothing is left of earlier objects of the name that could harm a new one: no purge under way, no removal
    queued that may purge, and no rollback about to claim a revision that the archive will not hold. An object
    that can be installed also asks that no install of the name be under way or waiting, and that no rollback
    wait for an older revision to go back to.
  */
  ghost predicate Drained(s: Sys, rel: Snapshot) {
    && !Removing(s.todo, rel.name)
    && (forall k :: 0 <= k < |s.queue| && IsRemoval(s.queue[k], rel.name) ==> Mild(s, rel.name, k))
    && TargetHeld(s, rel.name)
    && (Open(s) && Installable(rel) ==> NoInstall(s, rel.name) && NewestHeld(s, rel.name))
  }

  ghost predicate DrainedFirst(s: Sys, step: Step) {
    step.CreateObject? && Enabled(s, step) ==> Drained(s, step.rel)
  }

  predicate ByUser(step: Step) {
    step.CreateObject? || step.EditObject? || step.DeleteObject? || step.Resync?
  }

  /** What a user's step leaves alone, and the one notice it queues. */
  lemma UserActed(s: Sys, step: Step)
    requires Enabled(s, step) && ByUser(step)
    ensures var t := Next(s, step);
            && t.store == s.store && t.todo == s.todo && t.rollback == s.rollback && Eventual(t) == Eventual(s)
            && |t.queue| == |s.queue| + 1 && t.queue == s.queue + [t.queue[|s.queue|]]
            && (forall name :: name in t.objects <==>
                  (name in s.objects && !(step.DeleteObject? && name == step.name))
                  || (step.CreateObject? && name == step.rel.name))
            && var n := t.queue[|s.queue|];
               if step.CreateObject? then n == Added(step.rel)
               else if step.DeleteObject? then n.Removed? && (Keyed(s) ==> n.rel.name == step.name)
               else n.Changed?
  {
    hide Handle;
  }

  lemma UserKeepsCalm(s: Sys, step: Step)
    requires Calm(s) && Enabled(s, step) && DrainedFirst(s, step) && ByUser(step)
    ensures Calm(Next(s, step))
  {
    UserActed(s, step);
    UserKeepsCoverage(s, step);
    UserKeepsInstalls(s, step);
    UserKeepsCount(s, step);
    UserKeepsMild(s, step);
    UserKeepsPurges(s, step);
    UserKeepsRollback(s, step);
    var t := Next(s, step);
    hide RemovalsMild, InstalledOnce, RollbackCovered, PurgesClear, Coverage, Handle, Eventual, Drained, Announces;
    assert Keyed(t) && CreationsBlank(t);
  }

  /** The notice a user's step queues is no install of a name unless it creates its object. */
  lemma UserQueuesNoInstall(s: Sys, step: Step, name: string, k: nat)
    requires Enabled(s, step) && ByUser(step) && NoInstallFrom(s, name, k)
    requires step.CreateObject? && step.rel.name == name ==> !(Open(s) && Installable(step.rel))
    ensures NoInstallFrom(Next(s, step), name, k)
  {
    UserActed(s, step);
    hide Handle, Eventual, Enabled, Next, BelowMax, Installable;
    var t := Next(s, step);
    assert forall j :: 0 <= j < |s.queue| ==> t.queue[j] == s.queue[j];
  }

  lemma UserKeepsMild(s: Sys, step: Step)
    requires Calm(s) && Enabled(s, step) && DrainedFirst(s, step) && ByUser(step)
    ensures RemovalsMild(Next(s, step))
  {
    var t := Next(s, step);
    UserActed(s, step);
    hide Announces, InstalledOnce, Coverage, Counted, Handle, WillAsk, Triggers, MatchString, RollbackCovered, Eventual,
         BelowMax, NoInstall, NewestHeld, TargetHeld, PurgesClear, Next, NoInstallFrom, Enabled;
    forall k | 0 <= k < |t.queue| && t.queue[k].Removed?
      ensures Mild(t, t.queue[k].rel.name, k)
              || (Dead(t, t.queue[k].rel.name) && NoInstallFrom(t, t.queue[k].rel.name, k))
    {
      var name := t.queue[k].rel.name;
      if k < |s.queue| {
        assert s.queue[k] == t.queue[k] && s.queue[..k] == t.queue[..k];
        if !Mild(s, name, k) {
          assert !(step.CreateObject? && step.rel.name == name);
          UserQueuesNoInstall(s, step, name, k);
        }
      } else {
        NothingBehind(t, name, k);
      }
    }
  }

  lemma NothingBehind(s: Sys, name: string, k: nat)
    requires |s.queue| == k + 1 && s.queue[k].Removed?
    ensures NoInstallFrom(s, name, k)
  {
  }

  lemma UserKeepsPurges(s: Sys, step: Step)
    requires Calm(s) && Enabled(s, step) && DrainedFirst(s, step) && ByUser(step)
    ensures PurgesClear(Next(s, step))
  {
    var t := Next(s, step);
    UserActed(s, step);
    hide Announces, InstalledOnce, Coverage, Counted, Handle, MatchString, RollbackCovered, Eventual, RemovalsMild,
         BelowMax, NoInstall, NewestHeld, TargetHeld, Next, NoInstallFrom, Enabled, IsHistory;
    forall name | Removing(t.todo, name) ensures Clears(t, name) {
      assert Clears(s, name) && !(step.CreateObject? && step.rel.name == name);
      UserQueuesNoInstall(s, step, name, 0);
    }
  }

  lemma UserKeepsRollback(s: Sys, step: Step)
    requires Calm(s) && Enabled(s, step) && DrainedFirst(s, step) && ByUser(step)
    ensures RollbackCovered(Next(s, step))
  {
    var t := Next(s, step);
    UserActed(s, step);
    hide Announces, InstalledOnce, Coverage, Counted, Handle, MatchString, Eventual, RemovalsMild, PurgesClear,
         BelowMax, NoInstall, Next, NoInstallFrom, Enabled, Mild;
    forall name | Barren(s, name) &&
                  (step.CreateObject? && step.rel.name == name ==> !(Open(s) && Installable(step.rel)))
      ensures Barren(t, name)
    {
      UserQueuesNoInstall(s, step, name, 0);
    }
    if s.rollback.HasLast? && Barren(s, s.rollback.current.name) && Risky(s.rollback) && step.CreateObject? {
      assert NewestHeld(s, step.rel.name) || !(Open(s) && Installable(step.rel));
    }
  }

  lemma UserKeepsCount(s: Sys, step: Step)
    requires Counted(s) && Enabled(s, step) && ByUser(step)
    ensures Counted(Next(s, step))
  {
    var t := Next(s, step);
    CountSnoc(s.queue, t.queue[|s.queue|]);
    assert t.queue == s.queue + [t.queue[|s.queue|]];
  }

  lemma UserKeepsCoverage(s: Sys, step: Step)
    requires Calm(s) && Enabled(s, step) && ByUser(step)
    ensures Coverage(Next(s, step))
  {
    UserActed(s, step);
    hide Eventual;
    var t := Next(s, step);
    assert Horizon(t) == Horizon(s);
  }

  lemma UserKeepsInstalls(s: Sys, step: Step)
    requires Calm(s) && Enabled(s, step) && DrainedFirst(s, step) && ByUser(step)
    ensures InstalledOnce(Next(s, step))
  {
    var t := Next(s, step);
    UserActed(s, step);
    assert forall name :: NeverDeployed(s, name) ==> NeverDeployed(t, name);
    hide Announces, Covered, RollbackCovered, Coverage, RemovalsMild, PurgesClear, Counted, Handle, Mild, NewestHeld,
         TargetHeld, Triggers, Eventual, BelowMax, Installable, FirstStatus, Next, Enabled, NeverDeployed;
    forall k | Open(t) && 0 <= k < |t.queue| && t.queue[k].Added? && Installable(t.queue[k].rel)
      ensures NeverDeployed(t, t.queue[k].rel.name) && NoInstallFrom(t, t.queue[k].rel.name, k + 1)
    {
      var rel := t.queue[k].rel;
      if k < |s.queue| {
        assert t.queue[k] == s.queue[k];
        if step.CreateObject? && step.rel.name == rel.name {
          assert IsInstall(s.queue[k], rel.name);
        }
        UserQueuesNoInstall(s, step, rel.name, k + 1);
      }
    }
    forall k | 0 <= k < |s.todo| && FirstPublish(s.todo[k])
      ensures Installing(t, s.todo[k].call.rel)
    {
      assert Installing(s, s.todo[k].call.rel);
      UserQueuesNoInstall(s, step, s.todo[k].call.rel.name, 0);
    }
  }

  // ---------- the rollback's steps ----------

  lemma ReadLastKeepsCalm(s: Sys, step: Step, bound: int)
    requires Calm(s) && step.ReadLast? && Enabled(s, step) && WellKeyed(s.store, bound)
    ensures Calm(Next(s, step))
  {
    var name, t := RollbackName(step.req), Next(s, step);
    NewestOf(step.ns, s.store, name, step.rels, bound);
    ClaimStays(s, name, LastOf(step.rels).spec.version, bound);
    hide IsHistory, WellKeyed, Barren, MatchString;
    assert RollbackCovered(t) by { SameEventual(s, t); }
    SameOutside(s, t);
  }

  lemma SameEventual(s: Sys, t: Sys)
    requires t == s.(rollback := t.rollback)
    ensures Eventual(t) == Eventual(s)
    ensures forall name :: Barren(t, name) <==> Barren(s, name)
    ensures forall name, claimed :: ClaimKept(t, name, claimed) <==> ClaimKept(s, name, claimed)
  {
    hide PerformAll;
    assert forall name :: NoInstallFrom(t, name, 0) <==> NoInstallFrom(s, name, 0);
  }

  /** The revision a rollback picks is archived; so is every older one, and there is an object to claim for. */
  lemma ReadTargetKeepsCalm(s: Sys, step: Step, bound: int)
    requires Calm(s) && step.ReadTarget? && Enabled(s, step) && WellKeyed(s.store, bound) && Tidy(s)
    ensures Calm(Next(s, step))
  {
    var t, id := Next(s, step), TargetId(s.rollback);
    if id in s.store {
      var name, claimed := s.rollback.current.name, s.rollback.current.status.lastDeployedVersion;
      assert 1 <= id.version && id.name == name;
      TargetNamed(s.rollback.req, Stored(step.ns, s.store, id), s.rollback.current, id);
      if Removing(s.todo, name) {
        ClearsAll(s, name, bound);
      } else {
        IsSettled(s, name);
        NothingLost(s.store, s.todo, name);
        assert !NoneOf(Eventual(s), name);
        if !Risky(s.rollback) { OlderIsStored(s.store, name, id.version, claimed); }
        assert Covered(s.store, name, claimed);
        ClaimStays(s, name, claimed, bound);
      }
      assert t.rollback.target.name == name && t.rollback.target.status == s.rollback.current.status;
    }
    SameEventual(s, t);
    hide WellKeyed, Tidy, Stored;
    SameOutside(s, t);
  }

  lemma TargetNamed(req: RollbackRequest, previous: Snapshot, current: Snapshot, id: Id)
    requires id.version >= 0 && previous.name == SpelledName(id.name, id.version)
    ensures RollbackTarget(req, previous, current).name == id.name
  {
  }

  lemma OlderIsStored(store: Store, name: string, v: int32, older: int32)
    requires Settled(store, name) && Id(name, v) in store && older <= v
    ensures Covered(store, name, older)
  {
  }

  /** Only the rollback job differs. */
  lemma SameOutside(s: Sys, t: Sys)
    requires Calm(s) && t == s.(rollback := t.rollback) && RollbackCovered(t)
    ensures Calm(t)
  {
    hide RollbackCovered, PerformAll, Handle;
    assert Horizon(t) == Horizon(s);
    assert RemovalsMild(t) by { ChangesKeepMild(s, t); }
    assert forall name, k: nat :: NoInstallFrom(s, name, k) <==> NoInstallFrom(t, name, k);
    assert forall name :: Clears(s, name) ==> Clears(t, name);
    assert forall k :: 0 <= k < |s.todo| && FirstPublish(s.todo[k]) ==>
        (Installing(s, s.todo[k].call.rel) <==> Installing(t, s.todo[k].call.rel));
  }

  lemma WriteTargetKeepsCalm(s: Sys, step: Step)
    requires Calm(s) && step.WriteTarget? && Enabled(s, step)
    ensures Calm(Next(s, step))
  {
    var target := s.rollback.target;
    var t := Next(s, step);
    if step.ok && target.name in s.objects {
      var live, adopted := s.objects[target.name], t.objects[target.name];
      CountSnoc(s.queue, Changed(live, adopted));
      ReplacedKeepsRest(s, t, adopted);
      hide RemovalsMild, InstalledOnce, PurgesClear, Coverage, Eventual, Handle;
      assert Keyed(t) && Announces(t.store, t.todo) && Counted(t) && RollbackCovered(t) && CreationsBlank(t);
    } else {
      SameOutside(s, t);
    }
  }

  /** Replacing an object by one whose claim is archived, and that was never deployed first. */
  lemma ReplacedKeepsRest(s: Sys, t: Sys, adopted: Snapshot)
    requires Calm(s) && adopted.name in s.objects && adopted.status.firstDeployed == ZERO_TIME
    requires t.store == s.store && t.todo == s.todo && t.objects == s.objects[adopted.name := adopted]
    requires ClaimKept(s, adopted.name, adopted.status.lastDeployedVersion) && MoreChanges(s, t)
    ensures Coverage(t) && RemovalsMild(t) && InstalledOnce(t) && PurgesClear(t)
  {
    hide PerformAll, Handle, Announces, RollbackCovered, Counted, Covered, Installable, FirstStatus, IsHistory,
         MatchString, WillAsk, BelowMax;
    assert Horizon(t) == Horizon(s) && Eventual(t) == Eventual(s);
    ChangesKeepMild(s, t);
    forall name, k: nat | NoInstallFrom(s, name, k) ensures NoInstallFrom(t, name, k) {
      NoInstallStays(s, t, name, k);
    }
    assert forall name :: Clears(s, name) ==> Clears(t, name);
    assert forall k :: 0 <= k < |s.queue| ==> t.queue[k] == s.queue[k];
    forall k | 0 <= k < |s.todo| && FirstPublish(s.todo[k])
      ensures Installing(t, s.todo[k].call.rel)
    {
      assert Installing(s, s.todo[k].call.rel);
    }
  }

  // ---------- every run ----------

  lemma StepKeepsCalm(s: Sys, step: Step)
    requires Calm(s) && Enabled(s, step) && DrainedFirst(s, step) && Tidy(s)
    requires step.Take? ==> BelowMax(s.store)
    ensures Calm(Next(s, step))
  {
    var bound := BoundNow(s, step);
    hide Calm, Enabled, Next, WellKeyed, DrainedFirst, Tidy;
    match step
    case Take(_, _, _, _) => TakeKeepsCalm(s, step, bound);
    case Act => ActIsEnabled(s); ActKeepsCalm(s, bound);
    case ReadLast(_, _, _) => ReadLastKeepsCalm(s, step, bound);
    case ReadTarget(_) => ReadTargetKeepsCalm(s, step, bound);
    case WriteTarget(_) => WriteTargetKeepsCalm(s, step);
    case CreateObject(_) => UserKeepsCalm(s, step);
    case EditObject(_, _) => UserKeepsCalm(s, step);
    case DeleteObject(_) => UserKeepsCalm(s, step);
    case Resync(_) => UserKeepsCalm(s, step);
  }

  lemma ActIsEnabled(s: Sys)
    ensures Enabled(s, Act) <==> s.todo != []
  {
  }

  /** Objects are created only where nothing left of earlier ones could harm them. */
  ghost predicate DrainedNames(s: Sys, steps: seq<Step>)
    decreases |steps|
  {
    steps == [] ||
    (&& DrainedFirst(s, steps[0])
     && DrainedNames(After(s, steps[0]), steps[1..]))
  }

  lemma {:induction false} RunKeepsCalm(s: Sys, steps: seq<Step>)
    requires Calm(s) && DrainedNames(s, steps)
    requires Tidy(s) && BelowLimit(s, steps)
    ensures Calm(Run(s, steps))
    decreases |steps|
  {
    hide Calm, Tidy, Enabled, Next, DrainedFirst;
    if steps != [] {
      if Enabled(s, steps[0]) { StepKeepsCalm(s, steps[0]); }
      StepKeepsTidy(s, steps[0]);
      RunKeepsCalm(After(s, steps[0]), steps[1..]);
    }
  }

  lemma BoundNow(s: Sys, step: Step) returns (bound: int)
    requires Tidy(s) && (step.Take? ==> BelowMax(s.store))
    ensures WellKeyed(s.store, bound) && bound <= MAX_INT32 && (step.Take? ==> bound < MAX_INT32)
  {
    bound := if step.Take? then MAX_INT32 - 1 else MAX_INT32;
    assert SafePlan(s.store, s.todo, "", MAX_INT32);
    assert WellKeyed(s.store, MAX_INT32);
  }

  lemma StartIsCalm()
    ensures Calm(START)
  {
  }

  /**
    In every run in which names are used again only when drained, UpdateRelease is called at most once for every edit
    by a user and every write of a rollback, however many status writes happen.
  */
  lemma UpdatesAreBounded(steps: seq<Step>)
    requires DrainedNames(START, steps) && BelowLimit(START, steps)
    ensures var s := Run(START, steps); s.updates <= s.edits + s.rollbackWrites
  {
    hide Calm, Run, DrainedNames, Tidy, BelowLimit;
    StartIsCalm();
    StartIsTidy();
    RunKeepsCalm(START, steps);
    CalmMeansBounded(Run(START, steps));
  }

  lemma CalmMeansBounded(s: Sys)
    requires Calm(s)
    ensures s.updates <= s.edits + s.rollbackWrites
  {
  }

  /** Between two handlers, the last deployed version of no object exceeds its newest archived revision. */
  lemma ClaimsAreArchived(steps: seq<Step>, name: string, n: int)
    requires DrainedNames(START, steps) && BelowLimit(START, steps)
    requires var s := Run(START, steps); s.todo == [] && name in s.objects && Interval(s.store, name, 1, n)
    ensures Run(START, steps).objects[name].status.lastDeployedVersion <= n
  {
    hide Calm, Run, DrainedNames, Tidy, Interval, BelowLimit;
    StartIsCalm();
    StartIsTidy();
    RunKeepsCalm(START, steps);
    CalmMeansArchived(Run(START, steps), name, n);
  }

  lemma CalmMeansArchived(s: Sys, name: string, n: int)
    requires Calm(s) && s.todo == [] && name in s.objects && Interval(s.store, name, 1, n)
    ensures s.objects[name].status.lastDeployedVersion <= n
  {
    assert NoPublish(s.todo) && Horizon(s) == s.store;
    assert Covered(s.store, name, s.objects[name].status.lastDeployedVersion);
  }

  // ---------- coming to rest ----------

  function Weight(n: Notice): nat {
    if n.Added? || Triggers(n) then 2 else 1
  }

  function QueueWeight(queue: seq<Notice>): nat {
    if queue == [] then 0 else Weight(queue[0]) + QueueWeight(queue[1..])
  }

  function PublishCount(todo: seq<Action>): nat {
    if todo == [] then 0 else (if Publishes(todo[0]) then 1 else 0) + PublishCount(todo[1..])
  }

  /** How many notices are still to be taken, counting the echoes still to come. */
  function Unrest(s: Sys): nat {
    QueueWeight(s.queue) + PublishCount(s.todo)
  }

  lemma {:induction false} WeightSnoc(queue: seq<Notice>, n: Notice)
    ensures QueueWeight(queue + [n]) == QueueWeight(queue) + Weight(n)
    decreases |queue|
  {
    if queue == [] {
      assert queue + [n] == [n];
    } else {
      assert (queue + [n])[1..] == queue[1..] + [n];
      WeightSnoc(queue[1..], n);
    }
  }

  lemma {:induction false} SilentCount(todo: seq<Action>)
    requires NoPublish(todo)
    ensures PublishCount(todo) == 0
    decreases |todo|
  {
    if todo != [] { SilentCount(todo[1..]); }
  }

  lemma {:induction false} AtMostOnePublish(store: Store, todo: seq<Action>)
    requires Announces(store, todo)
    ensures PublishCount(todo) <= 1
    decreases |todo|
  {
    if todo != [] {
      if Publishes(todo[0]) { SilentCount(todo[1..]); }
      else { AtMostOnePublish(Perform(store, todo[0]), todo[1..]); }
    }
  }

  /** The controller's own steps never add to the unrest, and every notice taken lessens it. */
  lemma ControllerSettles(s: Sys, step: Step, bound: int)
    requires Calm(s) && Enabled(s, step) && (step.Act? || step.Take?) && WellKeyed(s.store, bound)
    requires step.Take? ==> bound < MAX_INT32
    ensures Unrest(Next(s, step)) + Next(s, step).takes <= Unrest(s) + s.takes
  {
    if step.Act? {
      var a := s.todo[0];
      if Publishes(a) && a.call.rel.name in s.objects {
        EchoIsIgnored(s);
        WeightSnoc(s.queue, Changed(s.objects[a.call.rel.name], a.call.rel));
      }
    } else {
      var n := s.queue[0];
      var todo := Handle(s, n, step.env, step.rels, step.rendering, step.listing);
      TakenPlan(s, n, step.env, step.rels, step.rendering, step.listing, bound);
      AtMostOnePublish(s.store, todo);
      if !n.Added? && !Triggers(n) { QuietHandler(s, n, step, bound); }
    }
  }

  /** Handlers of other notices publish nothing. */
  lemma QuietHandler(s: Sys, n: Notice, step: Step, bound: int)
    requires step.Take? && Enabled(s, step) && n == s.queue[0] && !n.Added? && !Triggers(n)
    requires WellKeyed(s.store, bound)
    ensures PublishCount(Handle(s, n, step.env, step.rels, step.rendering, step.listing)) == 0
  {
    hide UninstallRelease, MatchString, Triggers, Done, IsHistory, WellKeyed;
    var todo := Handle(s, n, step.env, step.rels, step.rendering, step.listing);
    UnreadIsUndone(Now(s), n, step.env, step.rels, step.rendering, step.listing);
    if todo != [] { UninstallPlan(step.env, Now(s), n.rel, step.rels, step.listing, bound); }
    SilentCount(todo);
  }

  /**
    Left alone, the controller takes a bounded number of notices and then has none: two for every
    new object and every pending request, one for any other notice.
  */
  lemma {:induction false} LeftAloneItRests(s: Sys, steps: seq<Step>)
    requires Calm(s) && Tidy(s) && BelowLimit(s, steps)
    requires forall k :: 0 <= k < |steps| ==> steps[k].Act? || steps[k].Take?
    ensures Run(s, steps).takes + Unrest(Run(s, steps)) <= s.takes + Unrest(s)
    decreases |steps|
  {
    hide Calm, Tidy, Enabled, Next, Unrest;
    if steps != [] {
      SettlingStep(s, steps[0]);
      LeftAloneItRests(After(s, steps[0]), steps[1..]);
    }
  }

  lemma SettlingStep(s: Sys, step: Step)
    requires Calm(s) && Tidy(s)
    requires step.Act? || (step.Take? && BelowMax(s.store))
    ensures var t := After(s, step);
            Calm(t) && Tidy(t) && t.takes + Unrest(t) <= s.takes + Unrest(s)
  {
    assert DrainedFirst(s, step);
    var bound := BoundNow(s, step);
    hide Calm, Tidy, Enabled, Next, DrainedFirst, Unrest, WellKeyed;
    StepKeepsTidy(s, step);
    if Enabled(s, step) {
      StepKeepsCalm(s, step);
      ControllerSettles(s, step, bound);
    }
  }

  /** Whatever happened before: once only the controller moves, the notices still to be taken are bounded. */
  lemma EveryRunComesToRest(steps: seq<Step>, alone: seq<Step>)
    requires DrainedNames(START, steps) && BelowLimit(START, steps) && BelowLimit(Run(START, steps), alone)
    requires forall k :: 0 <= k < |alone| ==> alone[k].Act? || alone[k].Take?
    ensures var s := Run(START, steps);
            Run(s, alone).takes <= s.takes + Unrest(s)
  {
    hide Calm, Tidy, Run, DrainedNames, Unrest, BelowLimit;
    StartIsCalm();
    StartIsTidy();
    RunKeepsCalm(START, steps);
    RunKeepsTidy(START, steps);
    LeftAloneItRests(Run(START, steps), alone);
  }
}
