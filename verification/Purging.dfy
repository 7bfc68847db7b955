/**
  What the plan of a notice makes of the revisions of a name, and whether the notices still queued may
  make the newest of them ask for a purge.
*/
module Purging {
  import opened Wrappers
  import opened ReleaseKey
  import opened ReleaseName
  import opened Hapi
  import opened Worlds
  import opened KindSorter
  import opened Lifecycle
  import opened HookLaws
  import opened HandlerLaws
  import opened History
  import opened Controller
  import opened Outcomes
  import opened Refinement

  // ---------- actions and the revisions of a name ----------

  predicate NoRemovals(todo: seq<Action>) {
    forall k :: 0 <= k < |todo| ==> !todo[k].Remove?
  }

  /** The plan writes the archive under one name only. */
  predicate Concerns(todo: seq<Action>, name: string) {
    forall k :: 0 <= k < |todo| ==>
      && (todo[k].Put? || todo[k].Create? ==> todo[k].rel.name == name)
      && (todo[k].Remove? ==> todo[k].name == name)
  }

  /** The action removes nothing of the name, and records nothing that asks for its purge. */
  predicate Spares(a: Action, name: string) {
    && ((a.Put? || a.Create?) && a.rel.name == name ==> !a.rel.spec.purge)
    && (a.Remove? ==> a.name != name)
  }

  predicate SparesAll(todo: seq<Action>, name: string) {
    forall k :: 0 <= k < |todo| ==> Spares(todo[k], name)
  }

  /** The newest revision of the name does not ask for its purge. */
  ghost predicate Spared(store: Store, name: string) {
    forall v: int32 :: Id(name, v) in store && (forall u: int32 :: Id(name, u) in store ==> u <= v) ==>
      !store[Id(name, v)].spec.purge
  }

  ghost predicate NoneOf(store: Store, name: string) {
    forall v: int32 :: Id(name, v) !in store
  }

  lemma PerformSpares(store: Store, a: Action, name: string)
    requires Spared(store, name) && Spares(a, name)
    ensures Spared(Perform(store, a), name)
  {
    var store' := Perform(store, a);
    forall v: int32 | Id(name, v) in store' && forall u: int32 :: Id(name, u) in store' ==> u <= v
      ensures !store'[Id(name, v)].spec.purge
    {
      if (a.Put? || a.Create?) && IdOf(a.rel) == Id(name, v) && Succeeds(store, a) {
        assert !a.rel.spec.purge;
      } else {
        assert Id(name, v) in store;
        assert forall u: int32 :: Id(name, u) in store ==> Id(name, u) in store';
      }
    }
  }

  lemma {:induction false} PerformAllSpares(store: Store, todo: seq<Action>, name: string)
    requires Spared(store, name) && SparesAll(todo, name)
    ensures Spared(PerformAll(store, todo), name)
    decreases |todo|
  {
    if todo != [] {
      hide Spared, Perform, Spares;
      PerformSpares(store, todo[0], name);
      PerformAllSpares(Perform(store, todo[0]), todo[1..], name);
    }
  }

  lemma {:induction false} OthersUntouched(store: Store, todo: seq<Action>, own: string, name: string)
    requires Concerns(todo, own) && own != name
    ensures Untouched(store, PerformAll(store, todo), name)
    decreases |todo|
  {
    if todo != [] { OthersUntouched(Perform(store, todo[0]), todo[1..], own, name); }
  }

  /** Without removals of a name, nothing of it is lost. */
  lemma {:induction false} NothingLost(store: Store, todo: seq<Action>, name: string)
    requires !Removing(todo, name)
    ensures forall v: int32 :: Id(name, v) in store ==> Id(name, v) in PerformAll(store, todo)
    decreases |todo|
  {
    if todo != [] {
      assert !(todo[0].Remove? && todo[0].name == name);
      forall k | 0 <= k < |todo[1..]| && todo[1..][k].Remove? ensures todo[1..][k].name != name {
        assert todo[1..][k] == todo[k + 1];
      }
      NothingLost(Perform(store, todo[0]), todo[1..], name);
    }
  }

  lemma NoneIsKept(before: Store, after: Store, name: string)
    requires Untouched(before, after, name)
    ensures NoneOf(before, name) <==> NoneOf(after, name)
    ensures Spared(before, name) <==> Spared(after, name)
  {
    assert forall v: int32 :: Id(name, v) in before <==> Id(name, v) in after;
  }

  // ---------- notices ----------

  /** An update to the release may get as far as writing. */
  predicate Updatable(rel: Snapshot) {
    rel.spec.chart.Some? && !rel.spec.dryRun
  }

  /** The notice may lead to an update of the name that asks for a purge. */
  predicate IsPurgingUpdate(n: Notice, name: string) {
    n.Changed? && n.after.name == name && Triggers(n) && Updatable(n.after) && n.after.spec.purge
  }

  predicate IsRemoval(n: Notice, name: string) {
    n.Removed? && n.rel.name == name
  }

  /** An install of the release may get as far as Kubernetes. */
  predicate Installable(rel: Snapshot) {
    rel.spec.chart.Some? && rel.spec.chart.value.templates != [] && !rel.spec.dryRun
  }

  predicate IsInstall(n: Notice, name: string) {
    n.Added? && n.rel.name == name && Installable(n.rel)
  }

  /**
    Once some notices are taken, the newest revision may ask for the purge of its name. Where there are
    revisions, the newest asks already, or an update may still add one that does, unless it would be the
    last possible one. Where there is none, an install has to come first.
  */
  ghost predicate WillAsk(store: Store, ahead: seq<Notice>, name: string) {
    if NoneOf(store, name) then
      exists i :: 0 <= i < |ahead| && IsInstall(ahead[i], name) &&
        (ahead[i].rel.spec.purge || exists j :: i < j < |ahead| && IsPurgingUpdate(ahead[j], name))
    else
      || !Spared(store, name)
      || (Id(name, MAX_INT32 - 1) !in store && exists j :: 0 <= j < |ahead| && IsPurgingUpdate(ahead[j], name))
  }

  // ---------- what plans do ----------

  lemma HandlerLeadsThere(s: Sys, n: Notice, env: Env, rels: seq<Snapshot>, rendering: Rendering,
                          listing: Result<seq<Manifest>, Error>)
    requires Reads(s.store, n, env, rels, rendering)
    ensures PerformAll(s.store, Handle(s, n, env, rels, rendering, listing))
            == HandlerOf(Now(s), n, env, rels, rendering, listing).world.store
  {
    hide HandlerOf, PerformAll, Reads;
    HandlerFollows(Now(s), n, env, rels, rendering, listing);
    DoneLeadsThere(Now(s), HandlerOf(Now(s), n, env, rels, rendering, listing));
  }

  /** An update: it removes nothing, and the revision it may add is the only one that can ask for a purge. */
  lemma UpdateSpares(env: Env, w: World, rel: Snapshot, rels: seq<Snapshot>, rendering: Rendering, bound: int)
    requires Plausible(rendering) && IsHistory(env.namespace, w.store, rel.name, rels)
    requires WellKeyed(w.store, bound) && bound < MAX_INT32
    ensures var o := UpdateRelease(env, w, rel, rels, rendering);
            var plan := Done(w, o);
            && Concerns(plan, rel.name) && NoRemovals(plan)
            && (Spared(w.store, rel.name) && !(Updatable(rel) && rel.spec.purge) ==> SparesAll(plan, rel.name))
            && (Spared(w.store, rel.name) && Id(rel.name, MAX_INT32 - 1) in w.store && BelowMax(o.world.store) ==>
                  Spared(o.world.store, rel.name))
  {
    hide UpdateRelease, MatchString, IsHistory, WellKeyed, PerformAll, UpdateCalls, Done, UpdateRefused, Restamped,
         UpdateFailedIn, BelowMax, Spared;
    var o := UpdateRelease(env, w, rel, rels, rendering);
    var calls, end := UpdateOutcome(env, w, rel, rels, rendering, bound);
    if !end.Refused? {
      NewestOf(env.namespace, w.store, rel.name, rels, bound);
      UpdateAtLimit(w.store, LastOf(rels), o.rel, bound);
      UpdateWritesSpare(calls, LastOf(rels), o.rel, end, rel.name);
      if Spared(w.store, rel.name) { NewestSpared(w.store, LastOf(rels)); }
    }
  }

  lemma UpdateWritesSpare(calls: seq<Action>, current: Snapshot, rel: Snapshot, end: UpdateEnd, name: string)
    requires Neutral(calls) && rel.name == current.name == name
    ensures var plan := calls + UpdateWrites(current, rel, end);
            && Concerns(plan, name) && NoRemovals(plan)
            && (!current.spec.purge && !rel.spec.purge ==> SparesAll(plan, name))
  {
  }

  lemma NewestSpared(store: Store, newest: Snapshot)
    requires IdOf(newest) in store && store[IdOf(newest)] == RecordOf(newest) && Spared(store, newest.name)
    requires forall v: int32 :: Id(newest.name, v) in store ==> v <= newest.spec.version
    ensures !newest.spec.purge
  {
  }

  /** At the last revision but one, an update that adds a revision reaches the limit. */
  lemma UpdateAtLimit(store: Store, current: Snapshot, rel: Snapshot, bound: int)
    requires IdOf(current) in store && store[IdOf(current)] == RecordOf(current)
    requires forall v: int32 :: Id(current.name, v) in store ==> v <= current.spec.version
    requires current.spec.version <= bound < MAX_INT32 && IdOf(rel) == Id(current.name, current.spec.version + 1)
    ensures Id(current.name, MAX_INT32 - 1) in store ==>
              !BelowMax(Superseded(store, current)[IdOf(rel) := RecordOf(rel)])
    ensures Spared(store, current.name) ==> Spared(Superseded(store, current), current.name)
  {
    var after := Superseded(store, current);
    if Id(current.name, MAX_INT32 - 1) in store {
      assert rel.spec.version == MAX_INT32;
      assert IdOf(rel) in after[IdOf(rel) := RecordOf(rel)];
    }
    if Spared(store, current.name) {
      NewestSpared(store, current);
      assert after[IdOf(current)] == RecordOf(current.WithCode(SUPERSEDED));
      assert after.Keys == store.Keys;
    }
  }

  /** An install: it can only add the first revision. */
  lemma InstallSpares(env: Env, w: World, rel: Snapshot, rendering: Rendering)
    requires Plausible(rendering)
    ensures var o := InstallRelease(env, w, rel, rendering);
            var plan := Done(w, o);
            && Concerns(plan, rel.name) && NoRemovals(plan)
            && (!Installable(rel) || Id(rel.name, 1) in w.store ==> o.world.store == w.store)
            && (!rel.spec.purge ==> SparesAll(plan, rel.name))
  {
    hide InstallRelease, InstallCalls, Done, Restamped, OnlyHookCalls, EndsInFailure, InstallRefused;
    var o := InstallRelease(env, w, rel, rendering);
    var calls, end := InstallShape(env, w, rel, rendering);
    var writes := InstallWrites(o.rel, end);
    DoneIs(w, o, calls, writes);
    PerformThree(w.store, writes);
    if !Installable(rel) && !end.NotInstalled? { UninstallableIsRefused(env, w, rel, rendering); }
  }

  lemma UninstallableIsRefused(env: Env, w: World, rel: Snapshot, rendering: Rendering)
    requires rel.spec.chart.None? || rel.spec.chart.value.templates == []
    ensures InstallRelease(env, w, rel, rendering) == Outcome(w, rel, Some(MissingChart))
  {
    hide PerformRelease;
  }

  /** An uninstall of a name whose newest revision asks for no purge only rewrites that revision. */
  lemma UninstallSpares(env: Env, w: World, rel: Snapshot, rels: seq<Snapshot>, listing: Result<seq<Manifest>, Error>,
                        bound: int)
    requires IsHistory(env.namespace, w.store, rel.name, rels) && WellKeyed(w.store, bound)
    ensures var plan := Done(w, UninstallRelease(env, w, rel, rels, listing));
            && Concerns(plan, rel.name)
            && (Spared(w.store, rel.name) ==> SparesAll(plan, rel.name))
            && (Removing(plan, rel.name) ==> plan == Removals(rels) && MatchString(rel.name))
  {
    hide MatchString, UninstallNewest, Purge, IsHistory, WellKeyed;
    assert w.log[|w.log|..] == [];
    if MatchString(rel.name) && rels != [] {
      var newest := rels[|rels| - 1];
      NewestOf(env.namespace, w.store, rel.name, rels, bound);
      if newest.spec.purge {
        PurgeConcerns(env.namespace, w, rel, rels, bound);
      } else {
        var o := UninstallNewest(env, w, newest, listing);
        UninstallOnlyRewrites(env, w, newest, listing);
        var actions :| o.world.log == w.log + actions && OnlyRewrites(actions, newest);
        assert (w.log + actions)[|w.log|..] == actions;
      }
    }
  }

  lemma PurgeConcerns(ns: string, w: World, rel: Snapshot, rels: seq<Snapshot>, bound: int)
    requires IsHistory(ns, w.store, rel.name, rels) && WellKeyed(w.store, bound)
    ensures var (after, err) := Purge(w, rels);
            && Concerns(Removals(rels), rel.name)
            && forall o: Outcome :: o.world == after ==> Done(w, o) == Removals(rels)
  {
    hide Purge;
    forall i | 0 <= i < |rels| ensures rels[i].spec.version >= 0 && rels[i].name == rel.name {
      assert Id(rel.name, rels[i].spec.version) in w.store;
    }
    PurgeRemovesAll(ns, w, rel.name, rels);
    assert (w.log + Removals(rels))[|w.log|..] == Removals(rels);
  }

  lemma PurgeLeavesNone(ns: string, store: Store, name: string, rels: seq<Snapshot>, bound: int)
    requires IsHistory(ns, store, name, rels) && WellKeyed(store, bound)
    ensures NoneOf(PerformAll(store, Removals(rels)), name)
  {
    forall i | 0 <= i < |rels| ensures rels[i].spec.version >= 0 {
      assert Id(name, rels[i].spec.version) in store;
    }
    PurgeRemovesAll(ns, World(store, []), name, rels);
  }

  lemma NoHistory(ns: string, store: Store, name: string, rels: seq<Snapshot>)
    ensures IsHistory(ns, store, name, rels) && NoneOf(store, name) ==> rels == []
  {
    if IsHistory(ns, store, name, rels) && rels != [] {
      assert Id(name, rels[0].spec.version) in store;
    }
  }

  /**
    What the plan of a notice does to the archive. It touches no other name. It removes something only when
    the notice reports a removal and the newest revision asks for a purge, and then everything, oldest first.
    It makes the newest revision ask for a purge only by an update or a first install that asks for it.
  */
  lemma PlanSpares(s: Sys, n: Notice, env: Env, rels: seq<Snapshot>, rendering: Rendering,
                   listing: Result<seq<Manifest>, Error>, bound: int)
    requires Reads(s.store, n, env, rels, rendering) && WellKeyed(s.store, bound) && bound < MAX_INT32
    ensures var todo, name := Handle(s, n, env, rels, rendering, listing), NoticeName(n);
            var after := PerformAll(s.store, todo);
            && Concerns(todo, name)
            && (Removing(todo, name) ==>
                  && n.Removed? && MatchString(name) && !Spared(s.store, name)
                  && IsHistory(env.namespace, s.store, name, rels) && todo == Removals(rels))
            && (!Removing(todo, name) ==> forall v: int32 :: Id(name, v) in s.store ==> Id(name, v) in after)
            && (NoneOf(s.store, name) && !IsInstall(n, name) ==> after == s.store)
            && (n.Added? && Id(name, 1) in s.store ==> after == s.store)
            && (Spared(s.store, name) && !(n.Added? && n.rel.spec.purge) && !IsPurgingUpdate(n, name) ==>
                  Spared(after, name))
            && (Spared(s.store, name) && n.Changed? && Id(name, MAX_INT32 - 1) in s.store && BelowMax(after) ==>
                  Spared(after, name))
  {
    hide InstallRelease, UninstallRelease, UpdateRelease, MatchString, TriggersUpdate, Done, IsHistory, WellKeyed,
         Spared, PerformAll, SparesAll, BelowMax;
    var w, todo, name := Now(s), Handle(s, n, env, rels, rendering, listing), NoticeName(n);
    UnreadIsUndone(w, n, env, rels, rendering, listing);
    NoHistory(env.namespace, s.store, name, rels);
    HandlerLeadsThere(s, n, env, rels, rendering, listing);
    NothingDone(s.store);
    if !Removing(todo, name) { NothingLost(s.store, todo, name); }
    if Spared(s.store, name) && SparesAll(todo, name) { PerformAllSpares(s.store, todo, name); }
    if todo != [] {
      match n
      case Added(rel) => InstallSpares(env, w, rel, rendering);
      case Removed(rel) =>
        UninstallSpares(env, w, rel, rels, listing, bound);
        if Spared(s.store, name) { SparingRemovesNothing(todo, name); }
      case Changed(_, after) => UpdateSpares(env, w, after, rels, rendering, bound);
    }
  }

  lemma NothingDone(store: Store)
    ensures PerformAll(store, []) == store
  {
  }

  lemma SparingRemovesNothing(todo: seq<Action>, name: string)
    requires SparesAll(todo, name)
    ensures !Removing(todo, name)
  {
    forall k | 0 <= k < |todo| && todo[k].Remove? ensures todo[k].name != name {
      assert Spares(todo[k], name);
    }
  }

  // ---------- taking a notice ----------

  lemma SettledHasFirst(store: Store, name: string)
    requires Settled(store, name) && !NoneOf(store, name)
    ensures Id(name, 1) in store
  {
    var v: int32 :| Id(name, v) in store;
  }

  /**
    Where neither the archive nor the notices ahead can ask for the purge of a name, taking the first of
    them removes nothing of the name, and afterwards the rest cannot either, the limit apart.
  */
  lemma TakingKeepsMild(s: Sys, n: Notice, env: Env, rels: seq<Snapshot>, rendering: Rendering,
                        listing: Result<seq<Manifest>, Error>, bound: int, rest: seq<Notice>, name: string)
    requires Reads(s.store, n, env, rels, rendering) && WellKeyed(s.store, bound) && bound < MAX_INT32
    requires Settled(s.store, name) && MatchString(name) && !WillAsk(s.store, [n] + rest, name)
    ensures var todo := Handle(s, n, env, rels, rendering, listing);
            var after := PerformAll(s.store, todo);
            BelowMax(after) ==> !WillAsk(after, rest, name)
  {
    hide Handle, Reads, WellKeyed, PerformAll, MatchString, Spared, Settled, IsHistory, BelowMax, Installable,
         Updatable, Triggers;
    var todo := Handle(s, n, env, rels, rendering, listing);
    var after := PerformAll(s.store, todo);
    PlanSpares(s, n, env, rels, rendering, listing, bound);
    var ahead := [n] + rest;
    assert ahead[0] == n && forall j :: 0 <= j < |rest| ==> ahead[j + 1] == rest[j];
    if NoticeName(n) != name {
      OthersUntouched(s.store, todo, NoticeName(n), name);
      NoneIsKept(s.store, after, name);
    } else if NoneOf(s.store, name) {
      NoneIsSpared(s.store, name);
    } else {
      SettledHasFirst(s.store, name);
    }
  }

  lemma NoneIsSpared(store: Store, name: string)
    requires NoneOf(store, name)
    ensures Spared(store, name)
  {
  }
}
