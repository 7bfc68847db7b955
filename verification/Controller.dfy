/**
  The controller as a machine of small steps. One goroutine takes notices about Release objects from
  a queue and performs a handler's actions one at a time; the rollback goroutine reads the archive and
  rewrites Release objects in between; users create, edit and delete objects at any moment.

  A handler's plan is fixed when its notice is taken. Nothing is lost by that: only the handler itself
  writes the archive until the plan is done, and what the oracles answer is arbitrary anyway.
*/
module Controller {
  import opened Wrappers
  import opened ReleaseKey
  import opened ReleaseName
  import opened Hapi
  import opened Worlds
  import opened KindSorter
  import opened Lifecycle
  import opened HookLaws
  import opened HandlerLaws
  import opened History

  /** An informer event; the snapshots are values, as they were when the event arose. */
  datatype Notice =
    | Added(rel: Snapshot)
    | Changed(before: Snapshot, after: Snapshot)
    | Removed(rel: Snapshot)

  /** How far the rollback goroutine has come with a request. */
  datatype RollbackJob =
    | Idle
    | HasLast(req: RollbackRequest, current: Snapshot)
    | HasTarget(target: Snapshot)

  datatype Sys = Sys(
    store: Store,
    log: seq<Action>,
    objects: map<string, Snapshot>,
    queue: seq<Notice>,
    todo: seq<Action>,
    rollback: RollbackJob,
    edits: nat,
    rollbackWrites: nat,
    updates: nat,
    takes: nat)

  datatype Step =
    | CreateObject(rel: Snapshot)
    | EditObject(name: string, spec: ReleaseSpec)
    | DeleteObject(name: string)
    | Resync(name: string)
    | Take(env: Env, rels: seq<Snapshot>, rendering: Rendering, listing: Result<seq<Manifest>, Error>)
    | Act
    | ReadLast(ns: string, req: RollbackRequest, rels: seq<Snapshot>)
    | ReadTarget(ns: string)
    | WriteTarget(ok: bool)

  function NoticeName(n: Notice): string {
    match n
    case Added(rel) => rel.name
    case Changed(_, after) => after.name
    case Removed(rel) => rel.name
  }

  predicate Triggers(n: Notice) {
    n.Changed? && TriggersUpdate(n.before, n.after)
  }

  /** Clocks do not show the zero time. */
  ghost predicate Ticks(env: Env) {
    forall log, k :: env.clock(log, k) != ZERO_TIME
  }

  /** What the handler of a notice reads: the history of its release, and a rendering, if it gets that far. */
  ghost predicate Reads(store: Store, n: Notice, env: Env, rels: seq<Snapshot>, rendering: Rendering) {
    match n
    case Added(rel) => rel.spec.chart.Some? && rel.spec.chart.value.templates != [] ==> Plausible(rendering)
    case Removed(rel) => MatchString(rel.name) ==> IsHistory(env.namespace, store, rel.name, rels)
    case Changed(_, after) =>
      Triggers(n) && MatchString(after.name) && after.spec.chart.Some? ==>
        IsHistory(env.namespace, store, after.name, rels) && (rels != [] ==> Plausible(rendering))
  }

  /** Users set no status; handlers read the archive as it is; nothing else is assumed of the oracles. */
  ghost predicate Enabled(s: Sys, step: Step) {
    match step
    case CreateObject(rel) => rel.name !in s.objects && rel.status == EMPTY_STATUS
    case EditObject(name, _) => name in s.objects
    case DeleteObject(name) => name in s.objects
    case Resync(name) => name in s.objects
    case Take(env, rels, rendering, _) =>
      && s.todo == [] && s.queue != []
      && Ticks(env) && Reads(s.store, s.queue[0], env, rels, rendering)
    case Act => s.todo != []
    case ReadLast(ns, req, rels) =>
      && s.rollback.Idle? && CheckRollback(req).None?
      && rels != [] && IsHistory(ns, s.store, RollbackName(req), rels)
    case ReadTarget(_) => s.rollback.HasLast?
    case WriteTarget(_) => s.rollback.HasTarget?
  }

  /** The world as a handler finds it. */
  function Now(s: Sys): World {
    World(s.store, s.log)
  }

  /** What the handler a notice is dispatched to does, undisturbed. */
  function HandlerOf(w: World, n: Notice, env: Env, rels: seq<Snapshot>, rendering: Rendering,
                     listing: Result<seq<Manifest>, Error>): Outcome {
    match n
    case Added(rel) => InstallRelease(env, w, rel, rendering)
    case Removed(rel) => UninstallRelease(env, w, rel, rels, listing)
    case Changed(_, after) =>
      if Triggers(n) then UpdateRelease(env, w, after, rels, rendering) else Outcome(w, after, None)
  }

  /** The actions of that handler. */
  function Handle(s: Sys, n: Notice, env: Env, rels: seq<Snapshot>, rendering: Rendering,
                  listing: Result<seq<Manifest>, Error>): seq<Action> {
    Done(Now(s), HandlerOf(Now(s), n, env, rels, rendering, listing))
  }

  predicate Publishes(a: Action) {
    a.Asked? && a.call.Publish? && a.ok
  }

  /** Replacing an object notifies the controller of its old and its new value. */
  function Write(s: Sys, rel: Snapshot): Sys
    requires rel.name in s.objects
  {
    s.(objects := s.objects[rel.name := rel], queue := s.queue + [Changed(s.objects[rel.name], rel)])
  }

  function TargetId(job: RollbackJob): Id
    requires job.HasLast?
  {
    Id(RollbackName(job.req), TargetVersion(RequestedVersion(job.req.key), job.current.spec.version))
  }

  function Next(s: Sys, step: Step): Sys
    requires Enabled(s, step)
  {
    match step
    case CreateObject(rel) =>
      s.(objects := s.objects[rel.name := rel], queue := s.queue + [Added(rel)])
    case EditObject(name, spec) =>
      var before := s.objects[name];
      var after := before.(spec := spec);
      s.(objects := s.objects[name := after], queue := s.queue + [Changed(before, after)], edits := s.edits + 1)
    case DeleteObject(name) =>
      s.(objects := s.objects - {name}, queue := s.queue + [Removed(s.objects[name])])
    case Resync(name) =>
      s.(queue := s.queue + [Changed(s.objects[name], s.objects[name])])
    case Take(env, rels, rendering, listing) =>
      s.(queue := s.queue[1..], todo := Handle(s, s.queue[0], env, rels, rendering, listing),
         updates := s.updates + if Triggers(s.queue[0]) then 1 else 0, takes := s.takes + 1)
    case Act =>
      var a := s.todo[0];
      var s1 := s.(store := Perform(s.store, a), log := s.log + [a], todo := s.todo[1..]);
      if Publishes(a) && a.call.rel.name in s.objects then Write(s1, a.call.rel) else s1
    case ReadLast(_, req, rels) =>
      s.(rollback := HasLast(req, LastOf(rels)))
    case ReadTarget(ns) =>
      var id := TargetId(s.rollback);
      if id !in s.store then s.(rollback := Idle)
      else s.(rollback := HasTarget(RollbackTarget(s.rollback.req, Stored(ns, s.store, id), s.rollback.current)))
    case WriteTarget(ok) =>
      var target := s.rollback.target;
      var s1 := s.(rollback := Idle);
      if ok && target.name in s.objects then
        Write(s1.(rollbackWrites := s.rollbackWrites + 1), Adopt(target, s.objects[target.name]).(name := target.name))
      else s1
  }

  /** A step that is not enabled is skipped. */
  ghost function After(s: Sys, step: Step): Sys {
    if Enabled(s, step) then Next(s, step) else s
  }

  ghost function Run(s: Sys, steps: seq<Step>): Sys
    decreases |steps|
  {
    if steps == [] then s else Run(After(s, steps[0]), steps[1..])
  }

  const START := Sys(map[], [], map[], [], [], Idle, 0, 0, 0, 0)

  // ---------- the archive keeps its shape in every run ----------

  predicate BelowMax(store: Store) {
    forall id :: id in store ==> id.version < MAX_INT32
  }

  /** No handler of the run starts while a revision number is at the int32 maximum. */
  ghost predicate BelowLimit(s: Sys, steps: seq<Step>)
    decreases |steps|
  {
    steps == [] ||
    ((steps[0].Take? ==> BelowMax(s.store)) && BelowLimit(After(s, steps[0]), steps[1..]))
  }

  lemma {:induction false} MorePlanBound(store: Store, todo: seq<Action>, name: string, bound: int, bound': int)
    requires SafePlan(store, todo, name, bound) && bound <= bound'
    ensures SafePlan(store, todo, name, bound')
    decreases |todo|
  {
    MoreBound(store, name, bound, bound');
    if todo != [] { MorePlanBound(Perform(store, todo[0]), todo[1..], name, bound, bound'); }
  }

  /** A handler that does not get as far as reading does nothing. */
  lemma UnreadIsUndone(w: World, n: Notice, env: Env, rels: seq<Snapshot>, rendering: Rendering,
                       listing: Result<seq<Manifest>, Error>)
    ensures var done := Done(w, HandlerOf(w, n, env, rels, rendering, listing));
            match n
            case Added(rel) => rel.spec.chart.None? || rel.spec.chart.value.templates == [] ==> done == []
            case Removed(rel) => !MatchString(rel.name) || rels == [] ==> done == []
            case Changed(_, after) =>
              !Triggers(n) || !MatchString(after.name) || after.spec.chart.None? || rels == [] ==> done == []
  {
    hide MatchString, TriggersUpdate, PerformRelease, PerformUpdate, UninstallNewest, Purge;
    assert w.log[|w.log|..] == [];
  }

  lemma HandlersAreSafe(s: Sys, n: Notice, env: Env, rels: seq<Snapshot>, rendering: Rendering,
                        listing: Result<seq<Manifest>, Error>, name: string, bound: int)
    requires SafePlan(s.store, [], name, bound) && 0 <= bound < MAX_INT32
    requires Reads(s.store, n, env, rels, rendering)
    ensures SafePlan(s.store, Handle(s, n, env, rels, rendering, listing), name, bound + 1)
  {
    MorePlanBound(s.store, [], name, bound, bound + 1);
    assert WellKeyed(s.store, bound) && Settled(s.store, name);
    hide SafePlan, InstallRelease, UninstallRelease, UpdateRelease, IsHistory, WellKeyed, Settled, MatchString,
         Triggers, Done;
    var w := Now(s);
    UnreadIsUndone(w, n, env, rels, rendering, listing);
    if Handle(s, n, env, rels, rendering, listing) != [] {
      match n {
        case Added(rel) => InstallIsSafe(env, w, rel, rendering, name, bound + 1);
        case Removed(rel) => UninstallIsSafe(env, w, rel, rels, listing, name, bound + 1);
        case Changed(_, after) => UpdateIsSafe(env, w, after, rels, rendering, name, bound);
      }
    }
  }

  /** One step of any goroutine or user, at any moment, keeps the plan of the controller safe. */
  lemma StepKeepsHistory(s: Sys, step: Step, name: string, bound: int)
    requires Enabled(s, step) && SafePlan(s.store, s.todo, name, bound) && 0 <= bound <= MAX_INT32
    requires step.Take? ==> bound < MAX_INT32
    ensures SafePlan(Next(s, step).store, Next(s, step).todo, name, if step.Take? then bound + 1 else bound)
  {
    if step.Take? {
      HandlersAreSafe(s, s.queue[0], step.env, step.rels, step.rendering, step.listing, name, bound);
    }
  }

  /** Where all versions are below the maximum, the maximum less one bounds them. */
  lemma TightenBound(store: Store, name: string)
    requires SafePlan(store, [], name, MAX_INT32) && BelowMax(store)
    ensures SafePlan(store, [], name, MAX_INT32 - 1)
  {
    assert Sound(store, name, MAX_INT32);
    assert WellKeyed(store, MAX_INT32 - 1);
  }

  lemma StepKeepsPlan(s: Sys, step: Step, name: string)
    requires SafePlan(s.store, s.todo, name, MAX_INT32) && (step.Take? ==> BelowMax(s.store))
    ensures SafePlan(After(s, step).store, After(s, step).todo, name, MAX_INT32)
  {
    hide SafePlan, Next;
    if Enabled(s, step) {
      if step.Take? {
        TightenBound(s.store, name);
        StepKeepsHistory(s, step, name, MAX_INT32 - 1);
      } else {
        StepKeepsHistory(s, step, name, MAX_INT32);
      }
    }
  }

  /** In every run, however its steps interleave, every plan stays safe. */
  lemma {:induction false} RunKeepsHistory(s: Sys, steps: seq<Step>, name: string)
    requires SafePlan(s.store, s.todo, name, MAX_INT32) && BelowLimit(s, steps)
    ensures SafePlan(Run(s, steps).store, Run(s, steps).todo, name, MAX_INT32)
    decreases |steps|
  {
    hide SafePlan, Next, Enabled;
    if steps != [] {
      StepKeepsPlan(s, steps[0], name);
      RunKeepsHistory(After(s, steps[0]), steps[1..], name);
    }
  }

  /** The archive of every name is in shape, now and after each action still to come. */
  ghost predicate Tidy(s: Sys) {
    forall name :: SafePlan(s.store, s.todo, name, MAX_INT32)
  }

  lemma StepKeepsTidy(s: Sys, step: Step)
    requires Tidy(s) && (step.Take? ==> BelowMax(s.store))
    ensures Tidy(After(s, step))
  {
    hide SafePlan, Next, Enabled;
    forall name ensures SafePlan(After(s, step).store, After(s, step).todo, name, MAX_INT32) {
      StepKeepsPlan(s, step, name);
    }
  }

  lemma RunKeepsTidy(s: Sys, steps: seq<Step>)
    requires Tidy(s) && BelowLimit(s, steps)
    ensures Tidy(Run(s, steps))
  {
    hide SafePlan, Run, BelowLimit;
    forall name ensures SafePlan(Run(s, steps).store, Run(s, steps).todo, name, MAX_INT32) {
      RunKeepsHistory(s, steps, name);
    }
  }

  lemma StartIsTidy()
    ensures Tidy(START)
  {
    hide SafePlan;
    forall name ensures SafePlan(START.store, START.todo, name, MAX_INT32) {
      StartIsSafe(name, MAX_INT32);
    }
  }

  lemma StartIsSafe(name: string, bound: int)
    ensures SafePlan(START.store, START.todo, name, bound)
  {
    assert Interval(START.store, name, 1, 0);
  }

  /**
    In every reachable state, between any two writes of any handler, the revisions of every name are
    exactly 1..n and all but the newest are superseded. Only while a purge of the name is under way may
    they begin later.
  */
  lemma EveryReachableArchive(steps: seq<Step>, name: string)
    requires BelowLimit(START, steps)
    ensures var s := Run(START, steps);
            && Sound(s.store, name, MAX_INT32)
            && (!Removing(s.todo, name) ==> Settled(s.store, name))
  {
    StartIsSafe(name, MAX_INT32);
    hide Run;
    RunKeepsHistory(START, steps, name);
  }

  /** It takes as many handlers as there are positive revision numbers to leave the limit. */
  lemma ShortRunsStayBelow(steps: seq<Step>)
    requires |steps| <= MAX_INT32
    ensures BelowLimit(START, steps)
  {
    StartIsSafe("", 0);
    ShortRestsStayBelow(START, steps, 0);
  }

  lemma BoundIsBelow(s: Sys, bound: int)
    requires SafePlan(s.store, s.todo, "", bound) && bound < MAX_INT32
    ensures BelowMax(s.store)
  {
    assert WellKeyed(s.store, bound);
  }

  lemma {:induction false} ShortRestsStayBelow(s: Sys, steps: seq<Step>, bound: int)
    requires SafePlan(s.store, s.todo, "", bound) && 0 <= bound && bound + |steps| <= MAX_INT32
    ensures BelowLimit(s, steps)
    decreases |steps|
  {
    if steps != [] {
      BoundIsBelow(s, bound);
      hide SafePlan, Next, Enabled, BelowMax;
      if Enabled(s, steps[0]) { StepKeepsHistory(s, steps[0], "", bound); }
      MorePlanBound(After(s, steps[0]).store, After(s, steps[0]).todo, "",
                    if Enabled(s, steps[0]) && steps[0].Take? then bound + 1 else bound, bound + 1);
      ShortRestsStayBelow(After(s, steps[0]), steps[1..], bound + 1);
    }
  }

  /** A rollback never writes the archive, whatever it read and whenever. */
  lemma RollbackWritesNoRevision(s: Sys, step: Step)
    requires Enabled(s, step) && (step.ReadLast? || step.ReadTarget? || step.WriteTarget?)
    ensures Next(s, step).store == s.store && Next(s, step).todo == s.todo
  {
  }
}
