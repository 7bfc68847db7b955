/**
  The shape of the archive: the revisions of a name are consecutive, all but the newest are
  superseded, and no write of any handler ever breaks this, not even between two writes.
*/
module History {
  import opened Wrappers
  import opened ReleaseKey
  import opened ReleaseName
  import opened Hapi
  import opened Worlds
  import opened KindSorter
  import opened Lifecycle
  import opened HookLaws
  import opened HandlerLaws

  /** Every record carries its own version, in its spec and as its last deployed version. */
  ghost predicate WellKeyed(store: Store, bound: int) {
    forall id :: id in store ==>
      && 1 <= id.version <= bound
      && store[id].spec.version == id.version
      && store[id].status.version == id.version
  }

  /** The revisions of a name are lo..n, and all below n are superseded. */
  ghost predicate Interval(store: Store, name: string, lo: int, n: int) {
    && 1 <= lo <= n + 1 && n <= MAX_INT32
    && (forall v: int32 :: Id(name, v) in store <==> lo <= v <= n)
    && (forall v: int32 :: lo <= v < n ==> store[Id(name, v)].status.code == SUPERSEDED)
  }

  /** True of the archive at every moment, even in the middle of a purge. */
  ghost predicate Sound(store: Store, name: string, bound: int) {
    WellKeyed(store, bound) && exists lo, n :: Interval(store, name, lo, n)
  }

  /** True of the archive between two handler runs: the revisions of a name are exactly 1..n. */
  ghost predicate Settled(store: Store, name: string) {
    exists n :: Interval(store, name, 1, n)
  }

  /** Some revision of the name is still to be removed: only then may its oldest ones be missing. */
  predicate Removing(todo: seq<Action>, name: string) {
    exists k :: 0 <= k < |todo| && todo[k].Remove? && todo[k].name == name
  }

  /** Performing the actions one by one keeps the archive sound, and settled but for a purge under way. */
  ghost predicate SafePlan(store: Store, todo: seq<Action>, name: string, bound: int)
    decreases |todo|
  {
    && Sound(store, name, bound)
    && (!Removing(todo, name) ==> Settled(store, name))
    && (todo == [] || SafePlan(Perform(store, todo[0]), todo[1..], name, bound))
  }

  /** In a sound archive at most one revision of a name is deployed, and only the newest can be. */
  lemma AtMostOneDeployed(store: Store, name: string, bound: int, v: int32, v': int32)
    requires Sound(store, name, bound)
    requires Id(name, v) in store && store[Id(name, v)].status.code == DEPLOYED
    requires Id(name, v') in store
    ensures v' <= v
    ensures store[Id(name, v')].status.code == DEPLOYED ==> v == v'
  {
  }

  // ---------- building safe plans ----------

  lemma MoreBound(store: Store, name: string, bound: int, bound': int)
    requires Sound(store, name, bound) && bound <= bound'
    ensures Sound(store, name, bound')
  {
  }

  lemma {:induction false} NeutralIsSafe(store: Store, calls: seq<Action>, rest: seq<Action>, name: string, bound: int)
    requires Neutral(calls) && SafePlan(store, rest, name, bound)
    ensures SafePlan(store, calls + rest, name, bound)
    decreases |calls|
  {
    if calls == [] {
      assert calls + rest == rest;
    } else {
      NeutralIsSafe(store, calls[1..], rest, name, bound);
      assert (calls + rest)[1..] == calls[1..] + rest;
    }
  }

  lemma PrependSafe(store: Store, a: Action, rest: seq<Action>, name: string, bound: int)
    requires Sound(store, name, bound) && SafePlan(Perform(store, a), rest, name, bound)
    requires Settled(store, name) || (a.Remove? && a.name == name)
    ensures SafePlan(store, [a] + rest, name, bound)
  {
    assert ([a] + rest)[0] == a && ([a] + rest)[1..] == rest;
  }

  /** Rewriting the newest revision keeps everything in shape. */
  lemma RewriteIsSound(store: Store, rel: Snapshot, name: string, bound: int, n: int)
    requires WellKeyed(store, bound) && IdOf(rel) in store
    requires rel.status.lastDeployedVersion == rel.spec.version
    requires Interval(store, name, 1, n)
    requires rel.name == name ==> rel.spec.version == n
    ensures WellKeyed(Perform(store, Put(rel)), bound)
    ensures Interval(Perform(store, Put(rel)), name, 1, n)
  {
  }

  lemma {:induction false} RewritesAreSafe(store: Store, actions: seq<Action>, newest: Snapshot, name: string,
                                           bound: int, n: int)
    requires OnlyRewrites(actions, newest)
    requires WellKeyed(store, bound) && IdOf(newest) in store
    requires newest.status.lastDeployedVersion == newest.spec.version
    requires Interval(store, name, 1, n)
    requires newest.name == name ==> newest.spec.version == n
    ensures SafePlan(store, actions, name, bound)
    decreases |actions|
  {
    if actions != [] {
      var a := actions[0];
      if a.Put? { RewriteIsSound(store, a.rel, name, bound, n); }
      RewritesAreSafe(Perform(store, a), actions[1..], newest, name, bound, n);
    }
  }

  // ---------- reading the archive ----------

  /** A history spells out its interval: it starts at lo, ends at n, and carries the name it was asked for. */
  lemma HistoryEnds(ns: string, store: Store, name: string, rels: seq<Snapshot>, bound: int, lo: int, n: int)
    requires WellKeyed(store, bound) && IsHistory(ns, store, name, rels) && Interval(store, name, lo, n)
    ensures rels == [] <==> n < lo
    ensures rels != [] ==> rels[0].spec.version == lo && LastOf(rels).spec.version == n
  {
    if rels != [] {
      assert Id(name, rels[0].spec.version) in store;
    }
    if lo <= n {
      assert Id(name, lo) in store && Id(name, n) in store;
      var i :| 0 <= i < |rels| && rels[i].spec.version == lo;
      var j :| 0 <= j < |rels| && rels[j].spec.version == n;
    }
  }

  /** What the newest revision of a history carries. */
  lemma NewestOf(ns: string, store: Store, name: string, rels: seq<Snapshot>, bound: int)
    requires WellKeyed(store, bound) && IsHistory(ns, store, name, rels) && rels != []
    ensures var newest := rels[|rels| - 1];
            && newest.name == name && newest.namespace == ns
            && IdOf(newest) in store && 1 <= newest.spec.version <= bound
            && newest.status.lastDeployedVersion == newest.spec.version
            && newest.status.firstDeployed == ZERO_TIME
            && store[IdOf(newest)] == RecordOf(newest)
            && (forall v: int32 :: Id(name, v) in store ==> v <= newest.spec.version)
  {
    var newest := rels[|rels| - 1];
    assert Id(name, newest.spec.version) in store;
    forall v: int32 | Id(name, v) in store
      ensures v <= newest.spec.version
    {
      var i :| 0 <= i < |rels| && rels[i].spec.version == v;
    }
  }

  lemma NewestIsEnd(store: Store, name: string, n: int, v: int32)
    requires Interval(store, name, 1, n) && Id(name, v) in store
    requires forall u: int32 :: Id(name, u) in store ==> u <= v
    ensures v == n
  {
    assert Id(name, n) in store;
  }

  // ---------- the handlers' plans are safe ----------

  /** The state of the archive between and after the writes of an update. */
  lemma StatesOfUpdate(store: Store, current: Snapshot, rel: Snapshot, name: string, bound: int, n: int)
    requires WellKeyed(store, bound) && Interval(store, name, 1, n) && bound < MAX_INT32
    requires IdOf(current) in store && current.status.lastDeployedVersion == current.spec.version
    requires forall v: int32 :: Id(current.name, v) in store ==> v <= current.spec.version
    requires rel.name == current.name
    requires rel.spec.version == NextVersion(current) == rel.status.lastDeployedVersion
    ensures var s1 := Perform(store, Put(current.WithCode(SUPERSEDED)));
            var s2 := Perform(s1, Create(rel));
            && Sound(store, name, bound + 1)
            && Sound(s1, name, bound + 1) && Settled(s1, name)
            && Sound(s2, name, bound + 1) && Settled(s2, name)
            && Perform(s2, Create(rel)) == s2
  {
    if current.name == name { NewestIsEnd(store, name, n, current.spec.version); }
    assert 1 <= current.spec.version <= bound;
    var superseded := current.WithCode(SUPERSEDED);
    var s1 := Perform(store, Put(superseded));
    RewriteIsSound(store, superseded, name, bound, n);
    assert rel.spec.version == current.spec.version + 1;
    assert rel.name == name ==> s1[Id(name, n)].status.code == SUPERSEDED;
    MoreBound(store, name, bound, bound + 1);
    MoreBound(s1, name, bound, bound + 1);
    CreateNextIsSound(s1, rel, name, bound, n);
  }

  /** Adding the revision after a superseded newest one. */
  lemma CreateNextIsSound(store: Store, rel: Snapshot, name: string, bound: int, n: int)
    requires WellKeyed(store, bound) && Interval(store, name, 1, n) && bound < MAX_INT32
    requires 1 <= rel.spec.version == rel.status.lastDeployedVersion <= bound + 1
    requires rel.name == name ==> rel.spec.version == n + 1 && (n >= 1 ==> store[Id(name, n)].status.code == SUPERSEDED)
    ensures var s2 := Perform(store, Create(rel));
            WellKeyed(s2, bound + 1) && Interval(s2, name, 1, if rel.name == name then n + 1 else n)
  {
  }

  /** An update's end in terms of the archive: the newest superseded, at most one revision more. */
  lemma UpdateWritesAreSafe(store: Store, current: Snapshot, rel: Snapshot, end: UpdateEnd, name: string, bound: int)
    requires var s1 := Perform(store, Put(current.WithCode(SUPERSEDED)));
             var s2 := Perform(s1, Create(rel));
             && Sound(store, name, bound) && Settled(store, name)
             && Sound(s1, name, bound) && Settled(s1, name)
             && Sound(s2, name, bound) && Settled(s2, name)
             && Perform(s2, Create(rel)) == s2
    ensures SafePlan(store, UpdateWrites(current, rel, end), name, bound)
  {
    hide Sound, Settled;
    var supersede, create := Put(current.WithCode(SUPERSEDED)), Create(rel);
    var s1 := Perform(store, supersede);
    var s2 := Perform(s1, create);
    PrependSafe(s2, create, [], name, bound);
    PrependSafe(s1, create, [], name, bound);
    PrependSafe(s1, create, [create], name, bound);
    match end
    case Refused =>
    case Failed(published) =>
      var tail := if published then [create] + [create] else [create] + [];
      PrependSafe(store, supersede, tail, name, bound);
      PrependSafe(store, Asked(Publish(rel), published), [supersede] + tail, name, bound);
      assert UpdateWrites(current, rel, end) == [Asked(Publish(rel), published)] + ([supersede] + tail);
    case Unpublished =>
      var asked := Asked(Publish(rel), false);
      PrependSafe(s1, asked, [], name, bound);
      PrependSafe(store, supersede, [asked] + [], name, bound);
      assert UpdateWrites(current, rel, end) == [supersede] + ([asked] + []);
    case Deployed =>
      var asked := Asked(Publish(rel), true);
      PrependSafe(s1, asked, [create] + [], name, bound);
      PrependSafe(store, supersede, [asked] + ([create] + []), name, bound);
      assert UpdateWrites(current, rel, end) == [supersede] + ([asked] + ([create] + []));
  }

  lemma UpdateIsSafe(env: Env, w: World, rel: Snapshot, rels: seq<Snapshot>, rendering: Rendering, name: string,
                     bound: int)
    requires Plausible(rendering) && IsHistory(env.namespace, w.store, rel.name, rels)
    requires WellKeyed(w.store, bound) && Settled(w.store, name) && bound < MAX_INT32
    ensures SafePlan(w.store, Done(w, UpdateRelease(env, w, rel, rels, rendering)), name, bound + 1)
  {
    hide UpdateRelease, MatchString, SafePlan, IsHistory, WellKeyed, Interval, PerformAll, UpdateWrites, UpdateCalls,
         Done;
    var o := UpdateRelease(env, w, rel, rels, rendering);
    var calls, end := UpdateShape(env, w, rel, rels, rendering);
    var n :| Interval(w.store, name, 1, n);
    SettledIsSound(w.store, name, bound, bound + 1);
    if end.Refused? {
      EmptyPlan(w.store, name, bound + 1);
      NeutralIsSafe(w.store, calls, [], name, bound + 1);
      DoneIs(w, o, calls, []);
    } else {
      var current := LastOf(rels);
      NewestOf(env.namespace, w.store, rel.name, rels, bound);
      var writes := UpdateWrites(current, o.rel, end);
      StatesOfUpdate(w.store, current, o.rel, name, bound, n);
      UpdateWritesAreSafe(w.store, current, o.rel, end, name, bound + 1);
      NeutralIsSafe(w.store, calls, writes, name, bound + 1);
      DoneIs(w, o, calls, writes);
    }
  }

  lemma SettledIsSound(store: Store, name: string, bound: int, bound': int)
    requires WellKeyed(store, bound) && Settled(store, name) && bound <= bound'
    ensures Sound(store, name, bound')
  {
  }

  lemma EmptyPlan(store: Store, name: string, bound: int)
    requires Sound(store, name, bound) && Settled(store, name)
    ensures SafePlan(store, [], name, bound)
  {
  }

  lemma InstallWritesAreSafe(store: Store, rel: Snapshot, end: InstallEnd, name: string, bound: int, n: int)
    requires WellKeyed(store, bound) && Interval(store, name, 1, n) && bound >= 1
    requires rel.spec.version == 1 == rel.status.lastDeployedVersion
    ensures SafePlan(store, InstallWrites(rel, end), name, bound)
  {
    assert Sound(store, name, bound);
    if end.NotInstalled? { return; }
    var asked, create := Asked(Publish(rel), end.published), Create(rel);
    var s1 := Perform(store, create);
    assert WellKeyed(s1, bound);
    assert Interval(s1, name, 1, if rel.name == name && n == 0 then 1 else n);
    assert SafePlan(s1, [], name, bound);
    PrependSafe(store, create, [], name, bound);
    PrependSafe(store, asked, [create] + [], name, bound);
    assert InstallWrites(rel, end) == [asked] + ([create] + []);
  }

  lemma InstallIsSafe(env: Env, w: World, rel: Snapshot, rendering: Rendering, name: string, bound: int)
    requires Plausible(rendering)
    requires WellKeyed(w.store, bound) && Settled(w.store, name) && bound >= 1
    ensures SafePlan(w.store, Done(w, InstallRelease(env, w, rel, rendering)), name, bound)
  {
    hide InstallRelease, SafePlan, Done, InstallCalls;
    var o := InstallRelease(env, w, rel, rendering);
    var calls, end := InstallShape(env, w, rel, rendering);
    var n :| Interval(w.store, name, 1, n);
    if end.NotInstalled? {
      EmptyPlan(w.store, name, bound);
    } else {
      InstallWritesAreSafe(w.store, o.rel, end, name, bound, n);
    }
    var writes := InstallWrites(o.rel, end);
    NeutralIsSafe(w.store, calls, writes, name, bound);
    DoneIs(w, o, calls, writes);
  }

  // ---------- purging ----------

  function Removals(rels: seq<Snapshot>): (rs: seq<Action>)
    ensures |rs| == |rels|
    ensures forall k :: 0 <= k < |rels| ==> rs[k] == Remove(rels[k].name, rels[k].spec.version)
  {
    if rels == [] then [] else [Remove(rels[0].name, rels[0].spec.version)] + Removals(rels[1..])
  }

  /** Without its oldest revision, the rest of a history is the history of what is left. */
  lemma DropOldest(ns: string, store: Store, name: string, rels: seq<Snapshot>)
    requires IsHistory(ns, store, name, rels) && rels != [] && rels[0].spec.version >= 0
    ensures Succeeds(store, Remove(rels[0].name, rels[0].spec.version))
    ensures IsHistory(ns, Perform(store, Remove(rels[0].name, rels[0].spec.version)), name, rels[1..])
  {
    hide Decode;
    DecodesItsName(ns, Id(name, rels[0].spec.version), store[Id(name, rels[0].spec.version)]);
    var store' := store - {Id(name, rels[0].spec.version)};
    forall v | Id(name, v) in store'
      ensures exists i :: 0 <= i < |rels[1..]| && rels[1..][i].spec.version == v
    {
      var i :| 0 <= i < |rels| && rels[i].spec.version == v;
      assert rels[1..][i - 1].spec.version == v;
    }
  }

  lemma DecodesItsName(ns: string, id: Id, rec: Record)
    requires id.version >= 0
    ensures Decode(ns, id, rec).name == id.name
  {
  }

  lemma NoneLeft(ns: string, store: Store, name: string)
    ensures IsHistory(ns, store, name, []) ==> forall v :: Id(name, v) !in store
  {
  }

  /** A purge removes every revision, oldest first, and leaves none. */
  lemma {:induction false} PurgeRemovesAll(ns: string, w: World, name: string, rels: seq<Snapshot>)
    requires IsHistory(ns, w.store, name, rels)
    requires forall i :: 0 <= i < |rels| ==> rels[i].spec.version >= 0
    ensures Purge(w, rels) == (World(PerformAll(w.store, Removals(rels)), w.log + Removals(rels)), None)
    ensures forall v :: Id(name, v) !in PerformAll(w.store, Removals(rels))
    decreases |rels|
  {
    hide IsHistory;
    if rels == [] {
      NoneLeft(ns, w.store, name);
      assert w.log + [] == w.log;
    } else {
      DropOldest(ns, w.store, name, rels);
      PurgeStep(w, rels);
      hide Perform, Purge, PerformAll;
      PurgeRemovesAll(ns, w.Do(Remove(rels[0].name, rels[0].spec.version)), name, rels[1..]);
    }
  }

  lemma {:induction false} PurgeStep(w: World, rels: seq<Snapshot>)
    requires rels != [] && Succeeds(w.store, Remove(rels[0].name, rels[0].spec.version))
    ensures var remove := Remove(rels[0].name, rels[0].spec.version);
            && Purge(w, rels) == Purge(w.Do(remove), rels[1..])
            && PerformAll(w.store, Removals(rels)) == PerformAll(Perform(w.store, remove), Removals(rels[1..]))
            && w.log + [remove] + Removals(rels[1..]) == w.log + Removals(rels)
  {
    var remove, rest := Remove(rels[0].name, rels[0].spec.version), Removals(rels[1..]);
    assert Removals(rels) == [remove] + rest;
    hide Perform, Succeeds, PerformAll;
    PerformAllCons(w.store, remove, rest);
    assert w.log + [remove] + rest == w.log + ([remove] + rest);
  }

  lemma {:induction false} PurgeIsSafe(ns: string, store: Store, other: string, rels: seq<Snapshot>, name: string,
                                       bound: int, lo: int, n: int)
    requires WellKeyed(store, bound) && IsHistory(ns, store, other, rels)
    requires Interval(store, name, lo, n)
    requires other != name ==> lo == 1
    ensures SafePlan(store, Removals(rels), name, bound)
    decreases |rels|
  {
    HistoryEndsIfNamed(ns, store, other, rels, name, bound, lo, n);
    if rels != [] {
      assert Id(other, rels[0].spec.version) in store;
      var oldest := rels[0];
      var store' := Perform(store, Remove(oldest.name, oldest.spec.version));
      DropOldest(ns, store, other, rels);
      var lo' := if other == name then lo + 1 else lo;
      RemoveOldest(store, oldest, name, bound, lo, n);
      hide IsHistory, WellKeyed, Interval;
      PurgeIsSafe(ns, store', other, rels[1..], name, bound, lo', n);
    } else {
      assert other == name ==> Interval(store, name, 1, 0);
    }
  }

  lemma RemoveOldest(store: Store, oldest: Snapshot, name: string, bound: int, lo: int, n: int)
    requires WellKeyed(store, bound) && Interval(store, name, lo, n)
    requires oldest.name == name ==> oldest.spec.version == lo && lo <= n
    ensures var store' := Perform(store, Remove(oldest.name, oldest.spec.version));
            WellKeyed(store', bound) && Interval(store', name, if oldest.name == name then lo + 1 else lo, n)
  {
  }

  lemma HistoryEndsIfNamed(ns: string, store: Store, other: string, rels: seq<Snapshot>, name: string, bound: int,
                           lo: int, n: int)
    requires WellKeyed(store, bound) && IsHistory(ns, store, other, rels) && Interval(store, name, lo, n)
    ensures other == name && rels != [] ==> rels[0].spec.version == lo && rels[0].name == name
    ensures other == name ==> (rels == [] <==> n < lo)
  {
    if other == name { HistoryEnds(ns, store, name, rels, bound, lo, n); }
  }

  lemma PurgingIsSafe(ns: string, w: World, rel: Snapshot, rels: seq<Snapshot>, name: string, bound: int)
    requires IsHistory(ns, w.store, rel.name, rels) && WellKeyed(w.store, bound) && Settled(w.store, name)
    ensures var (after, err) := Purge(w, rels);
            forall o: Outcome :: o.world == after ==> SafePlan(w.store, Done(w, o), name, bound)
  {
    hide Purge, SafePlan, Interval;
    var n :| Interval(w.store, name, 1, n);
    forall i | 0 <= i < |rels| ensures rels[i].spec.version >= 0 {
      assert Id(rel.name, rels[i].spec.version) in w.store;
    }
    PurgeRemovesAll(ns, w, rel.name, rels);
    PurgeIsSafe(ns, w.store, rel.name, rels, name, bound, 1, n);
    assert (w.log + Removals(rels))[|w.log|..] == Removals(rels);
  }

  lemma RewritingIsSafe(env: Env, w: World, rels: seq<Snapshot>, listing: Result<seq<Manifest>, Error>, other: string,
                        name: string, bound: int)
    requires IsHistory(env.namespace, w.store, other, rels) && WellKeyed(w.store, bound) && Settled(w.store, name)
    requires rels != []
    ensures SafePlan(w.store, Done(w, UninstallNewest(env, w, rels[|rels| - 1], listing)), name, bound)
  {
    hide UninstallNewest, SafePlan, Interval, OnlyRewrites;
    var newest := rels[|rels| - 1];
    var n :| Interval(w.store, name, 1, n);
    NewestOf(env.namespace, w.store, other, rels, bound);
    hide IsHistory, WellKeyed;
    UninstallOnlyRewrites(env, w, newest, listing);
    var actions :| UninstallNewest(env, w, newest, listing).world.log == w.log + actions
        && OnlyRewrites(actions, newest);
    assert (w.log + actions)[|w.log|..] == actions;
    if other == name { NewestIsEnd(w.store, name, n, newest.spec.version); }
    RewritesAreSafe(w.store, actions, newest, name, bound, n);
  }

  lemma UninstallIsSafe(env: Env, w: World, rel: Snapshot, rels: seq<Snapshot>, listing: Result<seq<Manifest>, Error>,
                        name: string, bound: int)
    requires IsHistory(env.namespace, w.store, rel.name, rels)
    requires WellKeyed(w.store, bound) && Settled(w.store, name)
    ensures SafePlan(w.store, Done(w, UninstallRelease(env, w, rel, rels, listing)), name, bound)
  {
    hide MatchString, UninstallNewest, Purge, SafePlan, WellKeyed, Settled, IsHistory;
    SettledIsSound(w.store, name, bound, bound);
    EmptyPlan(w.store, name, bound);
    assert w.log[|w.log|..] == [];
    PurgingIsSafe(env.namespace, w, rel, rels, name, bound);
    if rels != [] { RewritingIsSafe(env, w, rels, listing, rel.name, name, bound); }
  }
}
