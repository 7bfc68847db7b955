/**
  When a name may be used again. In every state the controller reaches, creating an object can lead to harm
  exactly when something is left of earlier objects of its name: `Drained` is the weakest condition.
*/
module Reuse {
  import opened Wrappers
  import opened ReleaseKey
  import opened ReleaseName
  import opened Hapi
  import opened Worlds
  import opened KindSorter
  import opened Lifecycle
  import opened HookLaws
  import opened HandlerLaws
  import opened History
  import opened Controller
  import opened Purging
  import opened Outcomes
  import opened Quiescence
  import opened Futures
  import opened Refinement

  // ---------- harm ----------

  /** Between two handlers an object claims a revision that the archive does not hold. */
  ghost predicate Overclaims(s: Sys) {
    && s.todo == []
    && exists name :: name in s.objects && !Covered(s.store, name, s.objects[name].status.lastDeployedVersion)
  }

  /** The controller is about to write a status whose echo it will take for an update. */
  predicate SelfTriggers(s: Sys) {
    && s.todo != [] && Publishes(s.todo[0])
    && var rel := s.todo[0].call.rel;
       rel.name in s.objects && Triggers(Changed(s.objects[rel.name], rel))
  }

  ghost predicate Harmed(s: Sys) {
    Overclaims(s) || SelfTriggers(s)
  }

  lemma CalmIsUnharmed(s: Sys)
    requires Calm(s)
    ensures !Harmed(s)
  {
    if s.todo != [] {
      if Publishes(s.todo[0]) { EchoIsIgnored(s); }
    } else {
      assert NoPublish(s.todo) && Horizon(s) == s.store;
    }
  }

  /** The object can be created, and from there, without creating any other, harm may follow. */
  ghost predicate Harmful(s: Sys, rel: Snapshot) {
    exists t: Sys :: Enabled(s, CreateObject(rel)) && Leads(Next(s, CreateObject(rel)), t) && Harmed(t)
  }

  // ---------- a drained name is harmless ----------

  lemma {:induction false} NothingCreated(s: Sys, steps: seq<Step>)
    requires NoCreation(steps)
    ensures DrainedNames(s, steps)
    decreases |steps|
  {
    hide Next, Enabled, Drained;
    if steps != [] { NothingCreated(After(s, steps[0]), steps[1..]); }
  }

  /** Creating an object of a drained name leads to no harm, whatever follows. */
  lemma DrainedIsHarmless(s: Sys, rel: Snapshot)
    requires Calm(s) && Tidy(s) && Drained(s, rel)
    ensures !Harmful(s, rel)
  {
    hide Calm, Drained, Run, BelowLimit, DrainedNames, Next, Enabled, Harmed, Tidy;
    if t: Sys :| Enabled(s, CreateObject(rel)) && Leads(Next(s, CreateObject(rel)), t) && Harmed(t) {
      var create, s1 := CreateObject(rel), Next(s, CreateObject(rel));
      StepKeepsCalm(s, create);
      StepKeepsTidy(s, create);
      var steps: seq<Step> :| NoCreation(steps) && BelowLimit(s1, steps) && Run(s1, steps) == t;
      NothingCreated(s1, steps);
      RunKeepsCalm(s1, steps);
      CalmIsUnharmed(t);
    }
  }

  // ---------- what makes a creation harmful ----------

  lemma IsCreated(s: Sys, rel: Snapshot) returns (t: Sys)
    requires Enabled(s, CreateObject(rel)) && Tidy(s)
    ensures t == s.(objects := s.objects[rel.name := rel], queue := s.queue + [Added(rel)])
    ensures Tidy(t) && Eventual(t) == Eventual(s)
    ensures forall u :: Leads(t, u) && Harmed(u) ==> Harmful(s, rel)
  {
    hide Harmed, Leads, Handle;
    t := Next(s, CreateObject(rel));
  }

  lemma OverclaimIsHarm(s: Sys, name: string)
    requires s.todo == [] && name in s.objects && !Covered(s.store, name, s.objects[name].status.lastDeployedVersion)
    ensures Harmed(s)
  {
  }

  /** A rollback that has its target claims, in the end, what the archive does not hold. */
  lemma UnheldTargetIsHarmful(s: Sys, rel: Snapshot)
    requires Enabled(s, CreateObject(rel)) && Tidy(s) && !TargetHeld(s, rel.name)
    ensures Harmful(s, rel)
  {
    var t := IsCreated(s, rel);
    hide Leads, Harmed, Covered, Eventual, Harmful, Handle;
    var u := ActsEnd(t);
    var v := WritesClaim(u, rel.name);
    LeadsTwice(t, u, v);
    OverclaimIsHarm(v, rel.name);
  }

  // ---------- purges ----------

  /** A purge under way removes a revision that a rollback can still claim. */
  lemma PurgeUnderWayIsHarmful(s: Sys, rel: Snapshot)
    requires Enabled(s, CreateObject(rel)) && Tidy(s) && PurgesClear(s) && Removing(s.todo, rel.name)
    ensures Harmful(s, rel)
  {
    var t := IsCreated(s, rel);
    var bound := BoundNow(s, Act);
    hide Leads, Harmed, Harmful, Tidy, IsHistory, WellKeyed, MatchString, PerformAll, Handle, NoInstallFrom, Enabled;
    assert Clears(s, rel.name);
    var ns: string, rels: seq<Snapshot> :| s.todo == Removals(rels) && IsHistory(ns, s.store, rel.name, rels);
    var u := EndsOverclaiming(t, rel.name, ns, rels, bound);
  }

  /** An object whose name is being purged can be given a claim that the purge makes void. */
  lemma EndsOverclaiming(s: Sys, name: string, ns: string, rels: seq<Snapshot>, bound: int) returns (t: Sys)
    requires s.todo == Removals(rels) && rels != [] && IsHistory(ns, s.store, name, rels)
    requires WellKeyed(s.store, bound) && MatchString(name) && name in s.objects
    ensures Leads(s, t) && Harmed(t)
  {
    NewestOf(ns, s.store, name, rels, bound);
    PurgeLeavesNone(ns, s.store, name, rels, bound);
    hide Leads, Harmed, IsHistory, WellKeyed, MatchString, PerformAll;
    RollbackGivesUp(s);
    var s1 := s.(rollback := Idle);
    var s2 := RollbackClaims(s1, name, ns, rels, bound);
    LeadsTwice(s, s1, s2);
    RemovalsAreQuiet(rels);
    ActsLead(s2);
    t := Finished(s2);
    LeadsTwice(s, s2, t);
    OverclaimIsHarm(t, name);
  }

  lemma RemovalsAreQuiet(rels: seq<Snapshot>)
    ensures NoPublish(Removals(rels))
  {
  }

  /** The newest revision of a settled name that does not spare it asks for a purge. */
  lemma NewestAsks(s: Sys, name: string, rels: seq<Snapshot>)
    requires IsHistory("ns", s.store, name, rels) && WellKeyed(s.store, MAX_INT32) && !Spared(s.store, name)
    ensures rels != [] && rels[|rels| - 1].spec.purge
  {
    var v: int32 :| Id(name, v) in s.store && (forall u: int32 :: Id(name, u) in s.store ==> u <= v)
                    && s.store[Id(name, v)].spec.purge;
    var i :| 0 <= i < |rels| && rels[i].spec.version == v;
    NewestOf("ns", s.store, name, rels, MAX_INT32);
  }

  lemma FirstRemoval(queue: seq<Notice>, name: string, k: nat) returns (first: nat)
    requires k < |queue| && IsRemoval(queue[k], name)
    ensures first < |queue| && IsRemoval(queue[first], name) && NoRemovalAhead(queue, first, name)
  {
    first := 0;
    while !IsRemoval(queue[first], name)
      invariant first <= k
      invariant NoRemovalAhead(queue, first, name)
      decreases k - first
    {
      first := first + 1;
    }
  }

  lemma PurgeIsTaken(s: Sys, name: string) returns (t: Sys, rels: seq<Snapshot>)
    requires Tidy(s) && s.todo == [] && BelowMax(s.store) && s.queue != []
    requires IsRemoval(s.queue[0], name) && MatchString(name) && !Spared(s.store, name)
    ensures Leads(s, t) && t.todo == Removals(rels) && t.objects == s.objects
    ensures rels != [] && IsHistory("ns", t.store, name, rels) && WellKeyed(t.store, MAX_INT32)
  {
    rels := HistoryExists(s, name);
    NewestAsks(s, name, rels);
    var rel := s.queue[0].rel;
    PurgeConcerns("ns", Now(s), rel, rels, MAX_INT32);
    hide Leads, Tidy, MatchString, IsHistory, WellKeyed, Purge, UninstallNewest, Done, Spared, BelowMax;
    var step := Take(DENYING, rels, NO_RENDERING, NO_LISTING);
    assert Enabled(s, step);
    LeadsBy(s, step);
    t := Next(s, step);
  }

  /** From a state with an object of the name, a queued removal that will purge leads to harm. */
  lemma PurgeFollows(s: Sys, name: string, some: nat) returns (t: Sys)
    requires Tidy(s) && s.todo == [] && BelowMax(s.store) && name in s.objects
    requires MatchString(name) && !Spared(s.store, name) && some < |s.queue| && IsRemoval(s.queue[some], name)
    ensures Leads(s, t) && Harmed(t)
  {
    hide Leads, Harmed, Tidy, MatchString, BelowMax, Spared, Untouched, NoRemovalAhead, WellKeyed, IsHistory;
    var k := FirstRemoval(s.queue, name, some);
    var u := NoticesPass(s, k);
    assert u.queue[0] == s.queue[k];
    NoneIsKept(s.store, u.store, name);
    var v, rels := PurgeIsTaken(u, name);
    LeadsTwice(s, u, v);
    t := EndsOverclaiming(v, name, "ns", rels, MAX_INT32);
    LeadsTwice(s, v, t);
  }

  /** So does one with an update in front of it that asks for the purge and can still add a revision. */
  lemma OrderedPurgeFollows(s: Sys, name: string, j: nat, k: nat) returns (t: Sys)
    requires Tidy(s) && s.todo == [] && BelowMax(s.store) && name in s.objects && MatchString(name)
    requires Spared(s.store, name) && !NoneOf(s.store, name) && Id(name, MAX_INT32 - 1) !in s.store
    requires j < k < |s.queue| && IsPurgingUpdate(s.queue[j], name) && IsRemoval(s.queue[k], name)
    ensures Leads(s, t) && Harmed(t)
  {
    var n := RevisionsUpTo(s, name);
    hide Leads, Harmed, Tidy, MatchString, BelowMax, Spared, NoneOf, Interval, Triggers, NoRemovalAhead;
    var s1 := NoticesPass(s, j);
    assert s1.queue[0] == s.queue[j] && s1.queue[k - j] == s.queue[k];
    IntervalIsKept(s.store, s1.store, name, n);
    var s2 := UpdateGoesThrough(s1, n);
    LeadsTwice(s, s1, s2);
    assert s2.queue[k - j - 1] == s1.queue[1..][k - j - 1];
    t := PurgeFollows(s2, name, k - j - 1);
    LeadsTwice(s, s2, t);
  }

  lemma RevisionsUpTo(s: Sys, name: string) returns (n: int32)
    requires Tidy(s) && s.todo == [] && BelowMax(s.store) && !NoneOf(s.store, name)
    requires Id(name, MAX_INT32 - 1) !in s.store
    ensures Interval(s.store, name, 1, n) && 1 <= n < MAX_INT32 - 1
  {
    IsSettled(s, name);
    var m :| Interval(s.store, name, 1, m);
    n := m;
    var v: int32 :| Id(name, v) in s.store;
    var last := Id(name, MAX_INT32);
    assert n == MAX_INT32 ==> last in s.store;
  }

  /** And so does an install where there is no revision yet, if it or a later update asks for the purge. */
  lemma InstalledPurgeFollows(s: Sys, name: string, i: nat, k: nat) returns (t: Sys)
    requires Tidy(s) && s.todo == [] && BelowMax(s.store) && name in s.objects && MatchString(name)
    requires NoneOf(s.store, name) && i < k < |s.queue| && IsRemoval(s.queue[k], name)
    requires IsInstall(s.queue[i], name) && s.queue[i].rel.status == EMPTY_STATUS
    requires s.queue[i].rel.spec.purge || exists j :: i < j < k && IsPurgingUpdate(s.queue[j], name)
    ensures Leads(s, t) && Harmed(t)
  {
    NoneIsSpared(s.store, name);
    hide Leads, Harmed, Tidy, MatchString, BelowMax, Spared, NoneOf, IsPurgingUpdate, Installable, NoRemovalAhead,
         Given;
    var rel := s.queue[i].rel;
    var s1 := NoticesPass(s, i);
    assert s1.queue[0] == s.queue[i];
    NoneIsKept(s.store, s1.store, name);
    var s2 := InstallGoesThrough(s1, rel, PLAIN, "");
    LeadsTwice(s, s1, s2);
    FirstRevision(s1.store, rel, PLAIN, "");
    assert forall j :: i < j <= k ==> s2.queue[j - i - 1] == s1.queue[1..][j - i - 1] == s.queue[j];
    if rel.spec.purge {
      t := PurgeFollows(s2, name, k - i - 1);
    } else {
      var j :| i < j < k && IsPurgingUpdate(s.queue[j], name);
      t := OrderedPurgeFollows(s2, name, j - i - 1, k - i - 1);
    }
    LeadsTwice(s, s2, t);
  }

  const PLAIN := ReleaseStatus(DEPLOYED, "", "", 1, 1, 1)

  lemma FirstRevision(store: Store, rel: Snapshot, status: ReleaseStatus, manifest: string)
    requires NoneOf(store, rel.name)
    ensures var after := Perform(store, Create(Given(rel, status, manifest)));
            && Interval(after, rel.name, 1, 1) && !NoneOf(after, rel.name)
            && (Spared(after, rel.name) <==> !rel.spec.purge)
  {
    var after := Perform(store, Create(Given(rel, status, manifest)));
    assert Id(rel.name, 1) in after && after[Id(rel.name, 1)].spec.purge == rel.spec.purge;
    assert forall v: int32 :: Id(rel.name, v) in after ==> v == 1;
  }

  /** A queued removal that will purge makes its name harmful, wherever it stands in the queue. */
  lemma PurgeToComeIsHarmful(s: Sys, rel: Snapshot, k: nat)
    requires Enabled(s, CreateObject(rel)) && Tidy(s) && CreationsBlank(s)
    requires k < |s.queue| && IsRemoval(s.queue[k], rel.name) && !Mild(s, rel.name, k)
    ensures Harmful(s, rel)
  {
    var t := IsCreated(s, rel);
    var name := rel.name;
    hide Leads, Harmed, Harmful, Tidy, MatchString, BelowMax, Spared, NoneOf, Eventual, Handle, Installable,
         IsPurgingUpdate, Enabled;
    var u := ActsEnd(t);
    LeadsTidy(t, u);
    assert forall j :: 0 <= j < |s.queue| ==> u.queue[j] == t.queue[j] == s.queue[j];
    var v: Sys;
    if NoneOf(u.store, name) {
      var i :| 0 <= i < k && IsInstall(s.queue[i], name) &&
        (s.queue[i].rel.spec.purge || exists j :: i < j < k && IsPurgingUpdate(s.queue[j], name));
      v := InstalledPurgeFollows(u, name, i, k);
    } else if !Spared(u.store, name) {
      v := PurgeFollows(u, name, k);
    } else {
      var j :| 0 <= j < k && IsPurgingUpdate(s.queue[j], name);
      v := OrderedPurgeFollows(u, name, j, k);
    }
    LeadsTwice(t, u, v);
  }

  // ---------- installs ----------

  /** An object with the status of a first deployment, and another one waiting to be installed over it. */
  lemma TwinTriggers(s: Sys, rel: Snapshot, k: nat) returns (t: Sys)
    requires Tidy(s) && s.todo == [] && BelowMax(s.store) && k < |s.queue| && s.queue[k] == Added(rel)
    requires Installable(rel) && rel.status == EMPTY_STATUS
    requires rel.name in s.objects && Possible(s.objects[rel.name].status)
    ensures Leads(s, t) && Harmed(t)
  {
    hide Leads, Harmed, Tidy, BelowMax, Installable, Given, FirstStatus;
    var live := s.objects[rel.name];
    var manifest := live.spec.manifest + "x";
    var s1 := NoticesPass(s, k);
    assert s1.queue[0] == Added(rel);
    t := InstallStarts(s1, rel, live.status, manifest);
    LeadsTwice(s, s1, t);
    TwinDiffers(live, rel, manifest);
    TriggersItself(t, Given(rel, live.status, manifest));
  }

  lemma TwinDiffers(live: Snapshot, rel: Snapshot, manifest: string)
    requires |manifest| != |live.spec.manifest|
    ensures var out := Given(rel, live.status, manifest);
            out != live && out.status == live.status && out.name == rel.name
  {
    assert Given(rel, live.status, manifest).spec.manifest == manifest;
  }

  lemma TriggersItself(s: Sys, rel: Snapshot)
    requires s.todo != [] && s.todo[0] == Asked(Publish(rel), true)
    requires rel.name in s.objects && s.objects[rel.name].status == rel.status && s.objects[rel.name] != rel
    ensures Harmed(s)
  {
  }

  /**
    While the install of an earlier object is under way, the new object can be given its status: its own
    install may then write the same status again, and take its echo for an update.
  */
  lemma InstallUnderWayIsHarmful(s: Sys, rel: Snapshot, k: nat)
    requires Enabled(s, CreateObject(rel)) && Calm(s) && Tidy(s) && Open(s) && Installable(rel)
    requires k < |s.todo| && FirstPublish(s.todo[k]) && s.todo[k].call.rel.name == rel.name
    ensures Harmful(s, rel)
  {
    assert Installing(s, s.todo[k].call.rel);
    var t := IsCreated(s, rel);
    PublishesLast(s.store, s.todo, k);
    hide Leads, Harmed, Harmful, Tidy, Calm, Eventual, Handle, Installable, FirstStatus, BelowMax, Installing, Enabled;
    var u := ActsPublish(t, k);
    LeadsTidy(t, u);
    assert u.queue[|s.queue|] == t.queue[|s.queue|] == Added(rel);
    var v := TwinTriggers(u, rel, |s.queue|);
    LeadsTwice(t, u, v);
  }

  lemma {:induction false} PublishesLast(store: Store, todo: seq<Action>, k: nat)
    requires Announces(store, todo) && k < |todo| && Publishes(todo[k])
    ensures NoPublish(todo[k + 1..])
    decreases k
  {
    if k > 0 {
      if Publishes(todo[0]) { assert todo[1..][k - 1] == todo[k]; }
      PublishesLast(Perform(store, todo[0]), todo[1..], k - 1);
      assert todo[1..][k..] == todo[k + 1..];
    }
  }

  /** So it is while the creation of an earlier object that can be installed is still queued. */
  lemma QueuedInstallIsHarmful(s: Sys, rel: Snapshot, k: nat)
    requires Enabled(s, CreateObject(rel)) && CreationsBlank(s) && Tidy(s) && Open(s) && Installable(rel)
    requires k < |s.queue| && IsInstall(s.queue[k], rel.name)
    ensures Harmful(s, rel)
  {
    var t := IsCreated(s, rel);
    hide Leads, Harmed, Harmful, Tidy, Eventual, Handle, Installable, BelowMax, Enabled, Given;
    var u := ActsEnd(t);
    LeadsTidy(t, u);
    assert forall j :: 0 <= j < |t.queue| ==> u.queue[j] == t.queue[j];
    var u1 := NoticesPass(u, k);
    var u2 := InstallGoesThrough(u1, s.queue[k].rel, PLAIN, "");
    LeadsTwice(t, u, u1);
    LeadsTwice(t, u1, u2);
    var rest := |s.queue| - k - 1;
    assert u2.queue[rest] == u1.queue[1..][rest] == u.queue[|s.queue|] == Added(rel);
    GivenStatus(s.queue[k].rel);
    var v := TwinTriggers(u2, rel, rest);
    LeadsTwice(t, u2, v);
  }

  lemma GivenStatus(rel: Snapshot)
    ensures Given(rel, PLAIN, "").status == PLAIN
  {
  }

  // ---------- a rollback that waits for its target ----------

  /**
    A rollback to an older revision than the one it has read, of a name whose revisions are gone: the new
    object can add revisions up to the one the rollback waits for, and the claim is then too high.
  */
  lemma UnheldNewestIsHarmful(s: Sys, rel: Snapshot)
    requires Enabled(s, CreateObject(rel)) && Calm(s) && Tidy(s) && Open(s) && Installable(rel)
    requires !NewestHeld(s, rel.name)
    ensures Harmful(s, rel)
  {
    var t := IsCreated(s, rel);
    var name, claimed := rel.name, s.rollback.current.status.lastDeployedVersion;
    assert Barren(s, name) && MatchString(name) && TargetId(s.rollback).name == name;
    assert Keyed(t);
    hide Leads, Harmed, Harmful, Tidy, Eventual, Handle, BelowMax, Calm, MatchString, Installable, Enabled, TargetId,
         CheckRollback, Keyed;
    var u := ActsEnd(t);
    LeadsTidy(t, u);
    assert u.queue[|s.queue|] == t.queue[|s.queue|] == Added(rel);
    var v := InstalledAndGrown(u, rel, |s.queue|, TargetId(s.rollback).version);
    LeadsTwice(t, u, v);
    var w := ClaimsMore(v, name);
    LeadsTwice(t, v, w);
  }

  /** The object is installed, and revisions are added up to the one asked for. */
  lemma InstalledAndGrown(s: Sys, rel: Snapshot, k: nat, m: int32) returns (t: Sys)
    requires Tidy(s) && Keyed(s) && s.todo == [] && BelowMax(s.store) && NoneOf(s.store, rel.name)
    requires k < |s.queue| && s.queue[k] == Added(rel) && forall j :: k < j < |s.queue| ==> s.queue[j].Changed?
    requires Installable(rel) && rel.status == EMPTY_STATUS && MatchString(rel.name) && rel.name in s.objects
    requires 1 <= m < MAX_INT32
    ensures Leads(s, t) && t.todo == [] && rel.name in t.objects && Interval(t.store, rel.name, 1, m)
    ensures t.rollback == s.rollback
  {
    NoneIsSpared(s.store, rel.name);
    hide Leads, Tidy, BelowMax, MatchString, Installable, Spared, Interval;
    var s1 := NoticesPass(s, k);
    NoneIsKept(s.store, s1.store, rel.name);
    assert s1.queue[0] == Added(rel) && forall j :: 0 <= j < |s1.queue| ==> s1.queue[j] == s.queue[k + j];
    var s2 := InstallGoesThrough(s1, rel, PLAIN, "");
    LeadsTwice(s, s1, s2);
    FirstRevision(s1.store, rel, PLAIN, "");
    OnlyChanges(s1, s2, rel.name);
    hide Given, Keyed;
    t := GrowsTo(s2, rel.name, 1, m);
    LeadsTwice(s, s2, t);
  }

  lemma OnlyChanges(s: Sys, t: Sys, name: string)
    requires s.queue != [] && forall j :: 0 < j < |s.queue| ==> s.queue[j].Changed?
    requires MoreChanges(s.(queue := s.queue[1..]), t)
    ensures NoRemovalAhead(t.queue, |t.queue|, name)
  {
    assert forall j :: 0 <= j < |s.queue| - 1 ==> t.queue[j] == s.queue[1..][j] == s.queue[j + 1];
  }

  /** The archive reaches up to the revision a rollback waits for, and no further. */
  lemma ClaimsMore(s: Sys, name: string) returns (t: Sys)
    requires Risky(s.rollback) && s.rollback.current.name == name == TargetId(s.rollback).name && s.todo == []
    requires Interval(s.store, name, 1, TargetId(s.rollback).version) && name in s.objects
    ensures Leads(s, t) && Harmed(t)
  {
    hide Leads, Harmed;
    var u := ReadsPicked(s, name, TargetId(s.rollback).version);
    t := WritesClaim(u, name);
    LeadsTwice(s, u, t);
    OverclaimIsHarm(t, name);
  }

  // ---------- the exact condition ----------

  lemma DrainedOrHarmful(s: Sys, rel: Snapshot)
    requires Calm(s) && Tidy(s) && Enabled(s, CreateObject(rel))
    ensures Harmful(s, rel) <==> !Drained(s, rel)
  {
    hide Harmful, Tidy, Enabled, Mild, TargetHeld, NewestHeld, Open, Installable, Coverage, Announces, InstalledOnce,
         RollbackCovered, Counted, PurgesClear;
    var name := rel.name;
    if Drained(s, rel) {
      DrainedIsHarmless(s, rel);
    } else if Removing(s.todo, name) {
      PurgeUnderWayIsHarmful(s, rel);
    } else if k :| 0 <= k < |s.queue| && IsRemoval(s.queue[k], name) && !Mild(s, name, k) {
      PurgeToComeIsHarmful(s, rel, k);
    } else if !TargetHeld(s, name) {
      UnheldTargetIsHarmful(s, rel);
    } else if !NoInstallFrom(s, name, 0) {
      var k :| 0 <= k < |s.queue| && IsInstall(s.queue[k], name);
      QueuedInstallIsHarmful(s, rel, k);
    } else if k :| 0 <= k < |s.todo| && FirstPublish(s.todo[k]) && s.todo[k].call.rel.name == name {
      InstallUnderWayIsHarmful(s, rel, k);
    } else {
      UnheldNewestIsHarmful(s, rel);
    }
  }

  /** Every state that the controller reaches is calm and tidy. */
  lemma ReachedStates(steps: seq<Step>)
    requires DrainedNames(START, steps) && BelowLimit(START, steps)
    ensures Calm(Run(START, steps)) && Tidy(Run(START, steps))
  {
    hide Calm, Tidy, Run, DrainedNames, BelowLimit;
    StartIsCalm();
    StartIsTidy();
    RunKeepsCalm(START, steps);
    RunKeepsTidy(START, steps);
  }

  /**
    After any run in which objects were created only under drained names, also in the middle of a handler and
    of a rollback: creating an object can lead to harm if and only if it is not drained.
  */
  lemma WhatMakesReuseHarmful(steps: seq<Step>, rel: Snapshot)
    requires DrainedNames(START, steps) && BelowLimit(START, steps)
    requires Enabled(Run(START, steps), CreateObject(rel))
    ensures Harmful(Run(START, steps), rel) <==> !Drained(Run(START, steps), rel)
  {
    hide Calm, Tidy, Run, DrainedNames, BelowLimit, Harmful, Drained, Enabled;
    ReachedStates(steps);
    DrainedOrHarmful(Run(START, steps), rel);
  }

  /** No creation of the run can lead to harm. */
  ghost predicate HarmlessCreations(s: Sys, steps: seq<Step>)
    decreases |steps|
  {
    steps == [] ||
    (&& (steps[0].CreateObject? ==> !Harmful(s, steps[0].rel))
     && HarmlessCreations(After(s, steps[0]), steps[1..]))
  }

  /** The runs of the theorems on quiescence are exactly those in which no creation can lead to harm. */
  lemma {:induction false} DrainedRunsAreTheHarmless(s: Sys, steps: seq<Step>)
    requires Calm(s) && Tidy(s) && BelowLimit(s, steps)
    ensures DrainedNames(s, steps) <==> HarmlessCreations(s, steps)
    decreases |steps|
  {
    hide Calm, Tidy, Next, Drained, Harmful, Enabled, BelowMax;
    if steps != [] {
      var step := steps[0];
      if step.CreateObject? {
        if Enabled(s, step) {
          DrainedOrHarmful(s, step.rel);
        } else {
          NotCreated(s, step.rel);
        }
      }
      if DrainedFirst(s, step) {
        if Enabled(s, step) { StepKeepsCalm(s, step); }
        StepKeepsTidy(s, step);
        DrainedRunsAreTheHarmless(After(s, step), steps[1..]);
      }
    }
  }

  lemma NotCreated(s: Sys, rel: Snapshot)
    requires !Enabled(s, CreateObject(rel))
    ensures !Harmful(s, rel)
  {
  }
}
