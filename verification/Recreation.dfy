/**
  Two runs from the very start in which a name is used again too early: after each of them the new
  object claims a revision that the archive does not hold.
*/
module Recreation {
  import opened Wrappers
  import opened GoStrings
  import opened ReleaseKey
  import opened ReleaseName
  import opened Hapi
  import opened Worlds
  import KindSorter
  import opened Lifecycle
  import opened HookLaws
  import opened HandlerLaws
  import opened History
  import opened Controller
  import opened Quiescence

  const NAME := "a"
  const CHART := Chart("c", [Template("t", "")])
  const OBJECT := Snapshot(RELEASE_TYPE, NAME, "ns",
                           ReleaseSpec(Some(CHART), None, true, "", [], 0, false, 0, true, false, false), EMPTY_STATUS)
  const RENDERING := Rendering([Asked(Discover, true)], Ok(Rendered([], "", "")))
  const NO_LISTING: Result<seq<KindSorter.Manifest>, Error> := Err(CorruptedRecord)

  /** Everything asked for is granted; all clocks show 1. */
  const ENV := Env("ns", (_, _) => true, _ => NoGroups, (_, _, _) => None, _ => None, (_, _) => 1, _ => None)

  const INSTALLED := OBJECT.(
    spec := OBJECT.spec.(config := Some(""), version := 1),
    status := ReleaseStatus(DEPLOYED, "", "", 1, 1, 1))

  const FIRST := Id(NAME, 1)
  const ARCHIVE: Store := map[FIRST := RecordOf(INSTALLED)]
  const HISTORY := [Decode("ns", FIRST, RecordOf(INSTALLED))]

  const INSTALL_PLAN := [
    Asked(Discover, true),
    Asked(BuildResources("ns", ""), true),
    Asked(CreateResources("ns", "", 0, false), true),
    Asked(Publish(INSTALLED), true),
    Create(INSTALLED)]

  lemma NameIsValid()
    ensures MatchString(NAME)
  {
    ValidNameIsFlat(NAME);
  }

  lemma InstallsObject(w: World)
    ensures Done(w, InstallRelease(ENV, w, OBJECT, RENDERING)) == INSTALL_PLAN
  {
    var o := InstallRelease(ENV, w, OBJECT, RENDERING);
    var p := PrepareRelease(ENV, w, OBJECT, RENDERING);
    assert p.err.None? && p.world.log == w.log + INSTALL_PLAN[..2];
    var q := PerformRelease(ENV, p.world, p.rel);
    assert q.rel == INSTALLED;
    assert q.world.log == w.log + INSTALL_PLAN;
  }

  lemma HistoryOfArchive()
    ensures IsHistory("ns", ARCHIVE, NAME, HISTORY)
  {
    forall v | Id(NAME, v) in ARCHIVE
      ensures exists i :: 0 <= i < |HISTORY| && HISTORY[i].spec.version == v
    {
      assert HISTORY[0].spec.version == v;
    }
  }

  lemma PurgesArchive(w: World, rel: Snapshot)
    requires w.store == ARCHIVE && rel.name == NAME
    ensures Done(w, UninstallRelease(ENV, w, rel, HISTORY, NO_LISTING)) == [Remove(NAME, 1)]
  {
    NameIsValid();
    hide MatchString;
    assert HISTORY[1..] == [];
    assert HISTORY[0].name == NAME;
    assert Purge(w, HISTORY) == (w.Do(Remove(NAME, 1)), None);
  }

  // ---------- the run ----------

  const REQUEST := RollbackRequest(MakeKey(NAME, 1), false, false, 0)
  const TARGET := RollbackTarget(REQUEST, Stored("ns", ARCHIVE, FIRST), LastOf(HISTORY))

  const TAKE_INSTALL := Take(ENV, [], RENDERING, NO_LISTING)
  const TAKE_REMOVAL := Take(ENV, HISTORY, RENDERING, NO_LISTING)

  const INSTALLING := [TAKE_INSTALL, Act, Act, Act, Act, Act]
  const ROLLING_BACK := [ReadLast("ns", REQUEST, HISTORY), ReadTarget("ns")]
  const DELETING := [DeleteObject(NAME), TAKE_REMOVAL]
  const PURGING := [TAKE_REMOVAL, Act]
  const RECREATING := [CreateObject(OBJECT), WriteTarget(true)]

  lemma RunOne(s: Sys, step: Step, rest: seq<Step>)
    requires Enabled(s, step)
    ensures Run(s, [step] + rest) == Run(Next(s, step), rest)
  {
    assert ([step] + rest)[1..] == rest;
  }

  lemma RunAct(s: Sys, rest: seq<Step>)
    requires s.todo != []
    ensures Enabled(s, Act) && Run(s, [Act] + rest) == Run(Next(s, Act), rest)
    ensures var a := s.todo[0];
            Next(s, Act).(objects := s.objects, queue := s.queue)
            == s.(store := Perform(s.store, a), log := s.log + [a], todo := s.todo[1..])
    ensures !Controller.Publishes(s.todo[0]) ==> Next(s, Act).objects == s.objects && Next(s, Act).queue == s.queue
  {
    RunOne(s, Act, rest);
  }

  // ---------- installing ----------

  /** An object, and the notice of a creation in front of others. */
  function Announced(later: seq<Notice>): Sys {
    START.(objects := map[NAME := OBJECT], queue := [Added(OBJECT)] + later)
  }

  /** The install after its first k actions, none of which touches an object. */
  function Midway(later: seq<Notice>, k: nat): Sys
    requires k <= 3
  {
    START.(objects := map[NAME := OBJECT], queue := later, takes := 1, log := INSTALL_PLAN[..k],
           todo := INSTALL_PLAN[k..])
  }

  function Published(later: seq<Notice>): Sys {
    START.(objects := map[NAME := INSTALLED], queue := later + [Changed(OBJECT, INSTALLED)], takes := 1,
           log := INSTALL_PLAN[..4], todo := [Create(INSTALLED)])
  }

  function AfterInstall(later: seq<Notice>): Sys {
    START.(store := ARCHIVE, log := INSTALL_PLAN, objects := map[NAME := INSTALLED],
           queue := later + [Changed(OBJECT, INSTALLED)], takes := 1)
  }

  lemma InstallIsTaken(later: seq<Notice>, rest: seq<Step>)
    ensures Run(Announced(later), [TAKE_INSTALL] + rest) == Run(Midway(later, 0), rest)
  {
    var s := Announced(later);
    InstallsObject(Now(s));
    hide Run, InstallRelease;
    assert s.queue[1..] == later;
    assert Enabled(s, TAKE_INSTALL) && Next(s, TAKE_INSTALL) == Midway(later, 0);
    RunOne(s, TAKE_INSTALL, rest);
  }

  lemma Asks(later: seq<Notice>, k: nat, rest: seq<Step>)
    requires k < 3
    ensures Run(Midway(later, k), [Act] + rest) == Run(Midway(later, k + 1), rest)
  {
    hide Run, Enabled, Handle;
    RunAct(Midway(later, k), rest);
    assert INSTALL_PLAN[..k] + [INSTALL_PLAN[k]] == INSTALL_PLAN[..k + 1];
    assert INSTALL_PLAN[k..][1..] == INSTALL_PLAN[k + 1..];
    assert Next(Midway(later, k), Act) == Midway(later, k + 1);
  }

  lemma Publishes(later: seq<Notice>, rest: seq<Step>)
    ensures Run(Midway(later, 3), [Act] + rest) == Run(Published(later), rest)
  {
    hide Run, Enabled, Handle;
    var s := Midway(later, 3);
    assert s.todo == [Asked(Publish(INSTALLED), true), Create(INSTALLED)] && Controller.Publishes(s.todo[0]);
    RunAct(s, rest);
    assert Next(s, Act) == Published(later);
  }

  lemma Records(later: seq<Notice>, rest: seq<Step>)
    ensures Run(Published(later), [Act] + rest) == Run(AfterInstall(later), rest)
  {
    hide Run, Enabled, Handle;
    RunAct(Published(later), rest);
    assert INSTALL_PLAN[..4] + [Create(INSTALLED)] == INSTALL_PLAN;
    assert Next(Published(later), Act) == AfterInstall(later);
  }

  lemma Installs(later: seq<Notice>, rest: seq<Step>)
    ensures Run(Announced(later), INSTALLING + rest) == Run(AfterInstall(later), rest)
  {
    hide Run;
    var two := [Act] + ([Act] + rest);
    var three := [Act] + two;
    var four := [Act] + three;
    assert INSTALLING + rest == [TAKE_INSTALL] + ([Act] + four);
    InstallIsTaken(later, [Act] + four);
    Asks(later, 0, four);
    Asks(later, 1, three);
    Asks(later, 2, two);
    Publishes(later, [Act] + rest);
    Records(later, rest);
  }

  lemma PurgeIsTaken(s: Sys, rel: Snapshot, rest: seq<Step>)
    requires s.store == ARCHIVE && s.todo == [] && s.queue != [] && s.queue[0] == Removed(rel) && rel.name == NAME
    ensures Run(s, [TAKE_REMOVAL] + ([Act] + rest))
            == Run(s.(store := map[], log := s.log + [Remove(NAME, 1)], queue := s.queue[1..], takes := s.takes + 1),
                   rest)
  {
    HistoryOfArchive();
    PurgesArchive(Now(s), rel);
    hide Run, MatchString, IsHistory, UninstallRelease;
    var t := s.(queue := s.queue[1..], todo := [Remove(NAME, 1)], takes := s.takes + 1);
    assert Enabled(s, TAKE_REMOVAL) && Next(s, TAKE_REMOVAL) == t;
    RunOne(s, TAKE_REMOVAL, [Act] + rest);
    PurgeIsDone(t, rest);
  }

  lemma PurgeIsDone(s: Sys, rest: seq<Step>)
    requires s.store == ARCHIVE && s.todo == [Remove(NAME, 1)]
    ensures Run(s, [Act] + rest) == Run(s.(store := map[], log := s.log + [Remove(NAME, 1)], todo := []), rest)
  {
    hide Run, Enabled, Handle;
    RunAct(s, rest);
    assert ARCHIVE - {FIRST} == map[] && s.todo[1..] == [];
    assert !Controller.Publishes(s.todo[0]) && Perform(s.store, s.todo[0]) == map[];
    assert Next(s, Act) == s.(store := map[], log := s.log + [Remove(NAME, 1)], todo := []);
  }

  // ---------- the rollback reads ----------

  const AFTER_LAST := AfterInstall([]).(rollback := HasLast(REQUEST, LastOf(HISTORY)))

  const AFTER_READS := AfterInstall([]).(rollback := HasTarget(TARGET))

  lemma ReadsNewest(rest: seq<Step>)
    ensures Run(AfterInstall([]), [ROLLING_BACK[0]] + rest) == Run(AFTER_LAST, rest)
  {
    NameIsValid();
    NameRoundTrip(NAME, 1);
    VersionRoundTrip(NAME, 1);
    HistoryOfArchive();
    hide MatchString, IsHistory, MakeKey, GetReleaseNameFromReleaseVersion, RequestedVersion, Run;
    RunOne(AfterInstall([]), ROLLING_BACK[0], rest);
  }

  lemma ReadsRevision(rest: seq<Step>)
    ensures Run(AFTER_LAST, [ROLLING_BACK[1]] + rest) == Run(AFTER_READS, rest)
  {
    NameRoundTrip(NAME, 1);
    VersionRoundTrip(NAME, 1);
    hide MatchString, IsHistory, MakeKey, GetReleaseNameFromReleaseVersion, RequestedVersion, Run, Stored;
    assert TargetId(AFTER_LAST.rollback) == FIRST;
    RunOne(AFTER_LAST, ROLLING_BACK[1], rest);
  }

  lemma ReadsTarget(rest: seq<Step>)
    ensures Run(AfterInstall([]), ROLLING_BACK + rest) == Run(AFTER_READS, rest)
  {
    hide Run;
    assert ROLLING_BACK + rest == [ROLLING_BACK[0]] + ([ROLLING_BACK[1]] + rest);
    ReadsNewest([ROLLING_BACK[1]] + rest);
    ReadsRevision(rest);
  }

  // ---------- the object and its archive go ----------

  const GONE := AFTER_READS.(objects := map[], queue := [Removed(INSTALLED)], takes := 2)

  const AFTER_PURGE := GONE.(store := map[], log := INSTALL_PLAN + [Remove(NAME, 1)], queue := [], takes := 3)

  lemma ObjectGoes(rest: seq<Step>)
    ensures Run(AFTER_READS, DELETING + rest) == Run(GONE, rest)
  {
    hide Run, MatchString, IsHistory;
    assert DELETING + rest == [DeleteObject(NAME)] + ([TAKE_REMOVAL] + rest);
    assert AFTER_READS.queue == [Changed(OBJECT, INSTALLED)];
    var s := AFTER_READS.(objects := map[], queue := [Changed(OBJECT, INSTALLED), Removed(INSTALLED)]);
    assert Next(AFTER_READS, DeleteObject(NAME)) == s;
    RunOne(AFTER_READS, DeleteObject(NAME), [TAKE_REMOVAL] + rest);
    assert !Triggers(s.queue[0]) && s.queue[1..] == [Removed(INSTALLED)];
    assert s.log[|s.log|..] == [];
    assert Next(s, TAKE_REMOVAL) == GONE;
    RunOne(s, TAKE_REMOVAL, rest);
  }

  lemma ArchiveGoes(rest: seq<Step>)
    ensures Run(GONE, PURGING + rest) == Run(AFTER_PURGE, rest)
  {
    hide Run;
    assert PURGING + rest == [TAKE_REMOVAL] + ([Act] + rest);
    PurgeIsTaken(GONE, INSTALLED, rest);
    assert GONE.(store := map[], log := GONE.log + [Remove(NAME, 1)], queue := GONE.queue[1..], takes := 3)
        == AFTER_PURGE;
  }

  // ---------- a new object of the same name ----------

  const LATE_ROLLBACK := [CreateObject(OBJECT)] + (INSTALLING + (ROLLING_BACK + (DELETING + (PURGING + RECREATING))))

  lemma Recreates()
    ensures var s := Run(AFTER_PURGE, RECREATING);
            && s.todo == [] && s.store == map[] && NAME in s.objects
            && s.objects[NAME].status.lastDeployedVersion == 1
  {
    assert RECREATING == [RECREATING[0]] + ([RECREATING[1]] + []);
    RunOne(AFTER_PURGE, RECREATING[0], [RECREATING[1]] + []);
    RunOne(Next(AFTER_PURGE, RECREATING[0]), RECREATING[1], []);
  }

  /**
    A rollback that read before a purge writes after it: the new object claims revision 1, and the archive
    holds none.
  */
  lemma LateRollbackClaimsTooMuch()
    ensures var s := Run(START, LATE_ROLLBACK);
            && s.todo == [] && NAME in s.objects && Interval(s.store, NAME, 1, 0)
            && s.objects[NAME].status.lastDeployedVersion > 0
  {
    hide Run;
    ObjectArrives(INSTALLING + (ROLLING_BACK + (DELETING + (PURGING + RECREATING))));
    Installs([], ROLLING_BACK + (DELETING + (PURGING + RECREATING)));
    ReadsTarget(DELETING + (PURGING + RECREATING));
    ObjectGoes(PURGING + RECREATING);
    ArchiveGoes(RECREATING);
    Recreates();
  }

  lemma ObjectArrives(rest: seq<Step>)
    ensures Run(START, [CreateObject(OBJECT)] + rest) == Run(Announced([]), rest)
  {
    hide Run, Handle, Reads;
    assert Enabled(START, CreateObject(OBJECT)) && Next(START, CreateObject(OBJECT)) == Announced([]);
    RunOne(START, CreateObject(OBJECT), rest);
  }

  // ---------- an object of the same name created at once ----------

  const AT_ONCE := [CreateObject(OBJECT)]
      + ([DeleteObject(NAME)] + ([CreateObject(OBJECT)] + (INSTALLING + [TAKE_REMOVAL, Act])))

  lemma ObjectReturns(rest: seq<Step>)
    ensures Run(START, [CreateObject(OBJECT)] + ([DeleteObject(NAME)] + ([CreateObject(OBJECT)] + rest)))
            == Run(Announced([Removed(OBJECT), Added(OBJECT)]), rest)
  {
    hide Run, Handle, Reads;
    ObjectArrives([DeleteObject(NAME)] + ([CreateObject(OBJECT)] + rest));
    var s := Announced([]);
    var t := START.(queue := [Added(OBJECT), Removed(OBJECT)]);
    assert Enabled(s, DeleteObject(NAME)) && Next(s, DeleteObject(NAME)) == t;
    RunOne(s, DeleteObject(NAME), [CreateObject(OBJECT)] + rest);
    assert Enabled(t, CreateObject(OBJECT));
    assert Next(t, CreateObject(OBJECT)) == Announced([Removed(OBJECT), Added(OBJECT)]);
    RunOne(t, CreateObject(OBJECT), rest);
  }

  /**
    Created, deleted and created again before the controller took notice, with no rollback at all: the
    first install gives its status to the second object, and the purge that follows empties the archive.
  */
  lemma ReturnAtOnceClaimsTooMuch()
    ensures var s := Run(START, AT_ONCE);
            && s.todo == [] && NAME in s.objects && Interval(s.store, NAME, 1, 0)
            && s.objects[NAME].status.lastDeployedVersion > 0 && s.rollback == Idle
  {
    var later := [Removed(OBJECT), Added(OBJECT)];
    ObjectReturns(INSTALLING + [TAKE_REMOVAL, Act]);
    hide Run;
    Installs(later, [TAKE_REMOVAL, Act]);
    assert [TAKE_REMOVAL, Act] == [TAKE_REMOVAL] + ([Act] + []);
    PurgeIsTaken(AfterInstall(later), OBJECT, []);
    EndOfRun(AfterInstall(later).(store := map[], log := INSTALL_PLAN + [Remove(NAME, 1)],
                                  queue := AfterInstall(later).queue[1..], takes := 2));
  }

  lemma EndOfRun(s: Sys)
    ensures Run(s, []) == s
  {
  }
}
