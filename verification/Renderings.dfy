/**
  What a rendering holds, file by file: the notes, the hooks and the documents of the manifest, in the words of
  the rendered files; and which values and options a chart is rendered with.
*/
module Renderings {
  import opened Wrappers
  import opened GoStrings
  import opened ReleaseKey
  import opened ReleaseName
  import opened Hapi
  import opened Worlds
  import opened KindSorter
  import opened Manifests
  import opened ManifestBlob
  import opened Annotations
  import opened Lifecycle
  import opened HookLaws
  import opened HandlerLaws
  import opened History
  import opened Outcomes
  import opened Conservation
  import Server = ReleaseServer

  // ---------- the files of a rendering ----------

  predicate IsNotes(name: string) {
    |name| >= 9 && name[|name| - 9..] == "NOTES.txt"
  }

  /** An API version a manifest may name: any that discovery lists, or v1 where it knows no groups. */
  predicate Serving(groups: Groups, version: string) {
    match groups
    case Unreachable => false
    case NoGroups => version == "v1"
    case Listed(versions) => version in versions
  }

  ghost predicate ServedBy(groups: Groups, apis: set<string>) {
    groups != Unreachable && forall v :: v in apis <==> Serving(groups, v)
  }

  /** The manifest shows the file, under its name and behind a separator. */
  ghost predicate Shows(manifest: string, name: string, content: string) {
    Contains(manifest, "\n---\n# Source: " + name + "\n" + content)
  }

  /** Every file that is no notes went where it belongs. */
  ghost predicate FilesWent(parse: Parser, apis: set<string>, files: map<string, string>, r: Rendered) {
    && (forall n :: n in files && !IsNotes(n) ==>
          match Place(parse, apis, n, files[n])
          case Skipped => true
          case Rejected(_) => false
          case Generic(_) => Shows(r.manifest, n, files[n])
          case Hooked(h) => h in r.hooks
          case DroppedHook => true)
    && (forall h :: h in r.hooks ==>
          h.path in files && !IsNotes(h.path) && Place(parse, apis, h.path, files[h.path]) == Hooked(h))
  }

  /** The notes are those of the chart itself; the other files are hooks or shown, where they belong. */
  ghost predicate RendersFiles(env: Env, groups: Groups, chart: Chart, files: map<string, string>, r: Rendered) {
    var own := chart.name + "/templates/NOTES.txt";
    && r.notes == (if own in files then files[own] else "")
    && exists apis: set<string> :: ServedBy(groups, apis) && FilesWent(env.head, apis, files, r)
  }

  lemma {:induction false} BlobShows(ms: seq<Manifest>, k: nat)
    requires k < |ms|
    ensures Shows(Blob(ms), ms[k].name, ms[k].content)
    decreases |ms|
  {
    var init, last := ms[..|ms| - 1], ms[|ms| - 1];
    if k < |ms| - 1 {
      BlobShows(init, k);
      ContainsMore(Blob(init), SEP + Document(last), "\n---\n# Source: " + ms[k].name + "\n" + ms[k].content);
      assert Blob(ms) == Blob(init) + (SEP + Document(last));
    } else {
      Written(Blob(init), last);
      var shown := "\n---\n# Source: " + last.name + "\n" + last.content;
      assert Blob(init) + ("\n---\n# Source: " + last.name + "\n") + last.content == Blob(init) + shown;
      EndContains(Blob(init), shown);
    }
  }

  lemma ContainsMore(s: string, more: string, part: string)
    requires Contains(s, part)
    ensures Contains(s + more, part)
  {
    var i :| OccursAt(s, part, i);
    assert (s + more)[i..i + |part|] == s[i..i + |part|];
    assert OccursAt(s + more, part, i);
  }

  lemma EndContains(s: string, part: string)
    ensures Contains(s + part, part)
  {
    assert (s + part)[|s|..|s| + |part|] == part;
    assert OccursAt(s + part, part, |s|);
  }

  lemma NotesMean(name: string)
    ensures HasSuffix(name, Server.NOTES_FILE_SUFFIX) <==> IsNotes(name)
  {
  }

  lemma OwnNotes(chart: string)
    ensures chart + "/templates/" + Server.NOTES_FILE_SUFFIX == chart + "/templates/NOTES.txt"
  {
    assert "/templates/" + "NOTES.txt" == "/templates/NOTES.txt";
  }

  /** What the server renders is what the rendered files call for. */
  lemma RenderingMeans(env: Env, w: World, chart: Chart, config: string, options: Options, rendering: Rendering)
    requires Server.RenderingOf(env, w, chart, config, options, rendering) && rendering.result.Ok?
    ensures env.render(chart, config, options).Some?
    ensures RendersFiles(env, env.groups(w.log), chart, env.render(chart, config, options).value,
                         rendering.result.value)
  {
    var r, groups := rendering.result.value, env.groups(w.log);
    var files := env.render(chart, config, options).value;
    var rest, apis, ms := RecordedManifests(env, w, chart, config, options, rendering);
    OwnNotes(chart.name);
    assert r.notes == Server.NotesOf(chart, files);
    assert ServedBy(groups, apis);
    forall n ensures n in rest <==> n in files && !IsNotes(n) { NotesMean(n); }
    FilesWentThere(env.head, apis, files, rest, r, ms);
  }

  lemma FilesWentThere(parse: Parser, apis: set<string>, files: map<string, string>, rest: map<string, string>,
                       r: Rendered, ms: seq<Manifest>)
    requires Classified(parse, apis, rest, r.hooks, ms) && r.manifest == Blob(ms)
    requires forall n :: n in rest <==> n in files && !IsNotes(n)
    requires forall n :: n in rest ==> rest[n] == files[n]
    ensures FilesWent(parse, apis, files, r)
  {
    hide Place, Shows, Blob, IsNotes;
    forall n | n in files && !IsNotes(n)
      ensures match Place(parse, apis, n, files[n])
              case Skipped => true
              case Rejected(_) => false
              case Generic(_) => Shows(r.manifest, n, files[n])
              case Hooked(h) => h in r.hooks
              case DroppedHook => true
    {
      PlacedUnderItsName(parse, apis, n, files[n]);
      match Place(parse, apis, n, files[n])
      case Generic(m) =>
        assert m in ms;
        var k :| 0 <= k < |ms| && ms[k] == m;
        BlobShows(ms, k);
      case _ =>
    }
    forall h | h in r.hooks
      ensures h.path in files && !IsNotes(h.path) && Place(parse, apis, h.path, files[h.path]) == Hooked(h)
    {
      assert h.path in rest;
    }
  }

  // ---------- values ----------

  /** The text of a config that stands for no values: none, an empty one, or an empty mapping. */
  predicate HasNoValues(config: Config) {
    config == None || config == Some("") || config == Some("{}\n")
  }

  /** Own values are kept; a release without any takes over those of the newest revision. */
  function Inherited(own: Config, newest: Config): Config {
    if !HasNoValues(own) then own
    else if !HasNoValues(newest) then newest
    else if own == None then Some("")
    else own
  }

  lemma InheritedIs(rel: Snapshot, current: Snapshot)
    ensures DefaultConfig(ReuseValues(rel, current)).spec.config == Inherited(rel.spec.config, current.spec.config)
    ensures Inherited(rel.spec.config, current.spec.config).Some?
  {
  }

  /**
    The values of an update: the release it leaves, writes and records has its own values, or those of the newest
    revision where it has none.
  */
  lemma UpdateValues(env: Env, w: World, rel: Snapshot, rels: seq<Snapshot>, rendering: Rendering, bound: int, n: int32)
    requires Plausible(rendering) && IsHistory(env.namespace, w.store, rel.name, rels)
    requires WellKeyed(w.store, bound) && bound < MAX_INT32 && MatchString(rel.name) && rel.spec.chart.Some?
    requires Id(rel.name, n) in w.store && forall v: int32 :: Id(rel.name, v) in w.store ==> v <= n
    ensures var o := UpdateRelease(env, w, rel, rels, rendering);
            var newest := w.store[Id(rel.name, n)].spec.config;
            var empty := [None, Some(""), Some("{}\n")];
            && (rel.spec.config !in empty ==> o.rel.spec.config == rel.spec.config)
            && (rel.spec.config in empty && newest !in empty ==> o.rel.spec.config == newest)
            && (rel.spec.config in empty && newest in empty ==>
                  o.rel.spec.config == if rel.spec.config == None then Some("") else rel.spec.config)
            && (Id(rel.name, n + 1) in o.world.store ==>
                  o.world.store[Id(rel.name, n + 1)].spec.config == o.rel.spec.config)
  {
    var o := UpdateRelease(env, w, rel, rels, rendering);
    HistoryHolds(env.namespace, w.store, rel.name, rels, n);
    NewestOf(env.namespace, w.store, rel.name, rels, bound);
    hide UpdateRelease, IsHistory, WellKeyed, UpdateCalls, UpdateWrites, MatchString, Done, Plausible, PerformRefused,
         ReuseValues, DefaultConfig, Revises, UpdateRefused, Neutral, UpdateFailedIn, AllOk, UpdateError, Inherited;
    var current := LastOf(rels);
    InheritedIs(rel, current);
    var calls, end := UpdateOutcome(env, w, rel, rels, rendering, bound);
    if end.Refused? {
      RefusedConfig(env, w, rel, rels, rendering, o, calls);
    } else {
      RevisedConfig(rel, current, rendering.result.value, env.clock(w.log + rendering.calls, 0), o.rel);
    }
    InheritedMeans(rel.spec.config, current.spec.config);
  }

  lemma InheritedMeans(own: Config, newest: Config)
    ensures var empty := [None, Some(""), Some("{}\n")];
            Inherited(own, newest) == if own !in empty then own else if newest !in empty then newest
                                      else if own == None then Some("") else own
  {
  }

  lemma RevisedConfig(rel: Snapshot, current: Snapshot, r: Rendered, now: Time, out: Snapshot)
    requires Revises(rel, current, r, now, out)
    ensures out.spec.config == DefaultConfig(ReuseValues(rel, current)).spec.config
  {
    hide ReuseValues, DefaultConfig;
  }

  lemma RefusedConfig(env: Env, w: World, rel: Snapshot, rels: seq<Snapshot>, rendering: Rendering, o: Outcome,
                      calls: seq<Action>)
    requires UpdateRefused(env, w, rel, rels, rendering, o, calls)
    requires MatchString(rel.name) && rel.spec.chart.Some? && rels != []
    ensures o.rel.spec.config == DefaultConfig(ReuseValues(rel, LastOf(rels))).spec.config
  {
    hide ReuseValues, DefaultConfig, MatchString, PerformRefused;
  }

  lemma HistoryHolds(ns: string, store: Store, name: string, rels: seq<Snapshot>, n: int32)
    requires IsHistory(ns, store, name, rels) && Id(name, n) in store
    ensures rels != [] && exists i :: 0 <= i < |rels| && rels[i].spec.version == n
    ensures (forall v: int32 :: Id(name, v) in store ==> v <= n) ==> rels[|rels| - 1].spec.version == n
  {
    var i :| 0 <= i < |rels| && rels[i].spec.version == n;
    assert Id(name, rels[|rels| - 1].spec.version) in store;
  }

  /** What an update renders: its chart, with those values, for the next revision, as an upgrade. */
  lemma UpdateRenders(env: Env, w: World, rel: Snapshot, rels: seq<Snapshot>, rendering: Rendering, bound: int,
                      n: int32)
    requires Server.ReadForUpdate(env, w, rel, rels, rendering) && WellKeyed(w.store, bound) && bound < MAX_INT32
    requires MatchString(rel.name) && rel.spec.chart.Some? && rendering.result.Ok?
    requires Id(rel.name, n) in w.store && forall v: int32 :: Id(rel.name, v) in w.store ==> v <= n
    ensures var chart := rel.spec.chart.value;
            var config := Inherited(rel.spec.config, w.store[Id(rel.name, n)].spec.config);
            var options := Options(rel.name, env.namespace, n + 1, true);
            && config.Some? && env.render(chart, config.value, options).Some?
            && RendersFiles(env, env.groups(w.log), chart, env.render(chart, config.value, options).value,
                            rendering.result.value)
  {
    hide Server.RenderingOf, RendersFiles, MatchString, ReuseValues, DefaultConfig, WellKeyed, Inherited;
    HistoryHolds(env.namespace, w.store, rel.name, rels, n);
    NewestOf(env.namespace, w.store, rel.name, rels, bound);
    hide IsHistory;
    var current := LastOf(rels);
    InheritedIs(rel, current);
    NextIsNext(current, n);
    RenderingMeans(env, w, rel.spec.chart.value, UpdateConfig(rel, current), UpdateOptions(rel, current), rendering);
  }

  lemma NextIsNext(current: Snapshot, n: int32)
    requires current.spec.version == n < MAX_INT32
    ensures NextVersion(current) == n + 1
  {
  }

  /** What an install renders: its chart, with its values, for revision 1, as an install. */
  lemma InstallRenders(env: Env, w: World, rel: Snapshot, rendering: Rendering)
    requires Server.ReadForInstall(env, w, rel, rendering) && rendering.result.Ok?
    requires rel.spec.chart.Some? && rel.spec.chart.value.templates != []
    ensures var chart, config := rel.spec.chart.value, if rel.spec.config == None then "" else rel.spec.config.value;
            var options := Options(rel.name, rel.namespace, 1, false);
            && env.render(chart, config, options).Some?
            && RendersFiles(env, env.groups(w.log), chart, env.render(chart, config, options).value,
                            rendering.result.value)
  {
    hide RendersFiles;
    var config := if rel.spec.config == None then "" else rel.spec.config.value;
    RenderingMeans(env, w, rel.spec.chart.value, config, Options(rel.name, rel.namespace, 1, false), rendering);
  }
}
