/**
  From one end of a release's life to the other: what an install or an update recorded is what
  uninstalling deletes.
*/
module Conservation {
  import opened Wrappers
  import opened GoStrings
  import opened ReleaseKey
  import opened Hapi
  import opened Worlds
  import opened KindSorter
  import opened Manifests
  import opened ManifestBlob
  import opened Lifecycle
  import opened HookLaws
  import opened HandlerLaws
  import opened History
  import opened Outcomes
  import opened ReleaseName
  import Server = ReleaseServer

  // ---------- renderings ----------

  /** What the server renders is what the handler laws take for granted. */
  lemma RenderingIsPlausible(env: Env, w: World, chart: Chart, config: string, options: Options, rendering: Rendering)
    requires Server.RenderingOf(env, w, chart, config, options, rendering)
    ensures Plausible(rendering)
  {
    hide Classified, Ordered, Server.Rejects;
  }

  /** The generic manifests a successful rendering recorded, in their order. */
  ghost predicate Recordable(env: Env, w: World, files: map<string, string>, r: Rendered, apis: set<string>,
                             ms: seq<Manifest>) {
    && Server.Serves(env.groups(w.log), apis)
    && Classified(env.head, apis, files, r.hooks, ms)
    && Ordered(INSTALL_ORDER, ms)
    && r.manifest == Blob(ms)
  }

  lemma RecordedManifests(env: Env, w: World, chart: Chart, config: string, options: Options, rendering: Rendering)
      returns (files: map<string, string>, apis: set<string>, ms: seq<Manifest>)
    requires Server.RenderingOf(env, w, chart, config, options, rendering) && rendering.result.Ok?
    ensures env.render(chart, config, options).Some?
    ensures files == Server.WithoutNotes(env.render(chart, config, options).value)
    ensures Recordable(env, w, files, rendering.result.value, apis, ms)
  {
    hide Classified, Ordered, Server.Rejects, Server.WithoutNotes, Server.Serves;
    var r := rendering.result.value;
    files := Server.WithoutNotes(env.render(chart, config, options).value);
    apis, ms :| Server.Serves(env.groups(w.log), apis) && Classified(env.head, apis, files, r.hooks, ms)
      && Ordered(INSTALL_ORDER, ms) && r.manifest == Blob(ms);
  }

  // ---------- side conditions, in terms of the rendered files ----------

  /** Reading a head skips the line that names the source. */
  ghost predicate SkipsSource(head: string -> Option<Head>) {
    forall m: Manifest :: '\n' !in m.name ==> head(Document(m)) == head(m.content)
  }

  /** Among the files that are generic, no name spans lines, and no separator occurs across a document's boundary. */
  ghost predicate CleanFiles(env: Env, groups: Groups, files: map<string, string>) {
    forall vs, n :: Server.Serves(groups, vs) && n in files && Place(env.head, vs, n, files[n]).Generic? ==>
      '\n' !in n && !Contains("\n" + files[n] + "\n---", SEP)
  }

  /** Every API version that was served is served still. */
  ghost predicate StillServed(before: Groups, after: Groups) {
    forall vs, vs' :: Server.Serves(before, vs) && Server.Serves(after, vs') ==> vs <= vs'
  }

  lemma RecordableIsRecorded(env: Env, w: World, files: map<string, string>, r: Rendered, apis: set<string>,
                             ms: seq<Manifest>, apis': set<string>)
    requires Recordable(env, w, files, r, apis, ms)
    requires SkipsSource(env.head) && CleanFiles(env, env.groups(w.log), files) && apis <= apis'
    ensures Recorded(env.head, apis', ms) && Separate(ms)
  {
    hide Document, Separate, Contains, Ordered, Blob;
    forall m | m in ms
      ensures '\n' !in m.name && !Contains("\n" + m.content + "\n---", SEP)
      ensures HOOK_ANNO !in m.head.Annotations() && (m.head.version == "" || m.head.version in apis')
      ensures env.head(Document(m)) == Some(m.head)
    {
      assert Place(env.head, apis, m.name, files[m.name]) == Generic(m);
    }
    CleanContentsAreSeparate(ms);
  }

  // ---------- uninstalling ----------

  lemma ServesOne(groups: Groups, vs: set<string>, vs': set<string>)
    requires Server.Serves(groups, vs) && Server.Serves(groups, vs')
    ensures vs == vs'
  {
  }

  /** A recorded blob is taken apart without error, into what may be deleted. */
  lemma ListingOfRecorded(env: Env, groups: Groups, apis: set<string>, ms: seq<Manifest>,
                          listing: Result<seq<Manifest>, Error>)
    requires Server.Serves(groups, apis) && Recorded(env.head, apis, ms) && Separate(ms)
    requires Server.ListingOf(env, groups, Blob(ms), listing)
    ensures listing.Ok?
    ensures var files := Select(listing.value, Unannotated);
            && multiset(Contents(files)) == multiset(Documents(Select(ms, Unannotated)))
            && Ordered(UNINSTALL_ORDER, files) && HeadsAreRead(env.head, files)
  {
    hide Classified, Ordered, NamesPieces, Recorded, Separate, Server.Serves, Split, Blob, Place;
    var vs, pieces :| Server.Serves(groups, vs) && NamesPieces(pieces, Split(Blob(ms), SEP))
      && (if listing.Err? then Server.Rejects(env, pieces, vs, listing.error)
          else
            && Ordered(UNINSTALL_ORDER, listing.value)
            && exists hooks :: Classified(env.head, vs, pieces, hooks, listing.value));
    ServesOne(groups, vs, apis);
    if listing.Err? {
      var n :| n in pieces && Place(env.head, vs, n, pieces[n]) == Rejected(listing.error);
      UninstallAccepts(env.head, apis, ms, pieces, n);
    } else {
      var hooks :| Classified(env.head, vs, pieces, hooks, listing.value);
      DeletesWhatWasRecorded(env.head, apis, ms, pieces, hooks, listing.value);
      ClassifiedHeads(env.head, vs, pieces, hooks, listing.value, Unannotated);
    }
  }

  /** Every manifest's head is what its content parses to. */
  ghost predicate HeadsAreRead(parse: Parser, files: seq<Manifest>) {
    forall f :: f in files ==> parse(f.content) == Some(f.head)
  }

  lemma ClassifiedHeads(parse: Parser, apis: set<string>, files: map<string, string>, hooks: seq<Hook>,
                        generic: seq<Manifest>, policy: Policy)
    requires Classified(parse, apis, files, hooks, generic)
    ensures HeadsAreRead(parse, Select(generic, policy))
  {
    SelectedHavePolicy(generic, policy);
    hide Place, PolicyOf, Select;
    forall f | f in Select(generic, policy)
      ensures parse(f.content) == Some(f.head)
    {
      PlacedUnderItsName(parse, apis, f.name, files[f.name]);
    }
  }

  predicate IsDelete(a: Action) {
    a.Asked? && a.call.DeleteResources?
  }

  function Deleted(deletes: seq<Action>): (contents: seq<string>)
    ensures |contents| == |deletes|
    ensures forall k :: 0 <= k < |deletes| && IsDelete(deletes[k]) ==> contents[k] == deletes[k].call.content
  {
    if deletes == [] then []
    else
      var last := deletes[|deletes| - 1];
      Deleted(deletes[..|deletes| - 1]) + [if IsDelete(last) then last.call.content else ""]
  }

  /** Where the kind that a document declares stands in the order of uninstalling. */
  function DeclaredRank(parse: Parser, doc: string): nat {
    match parse(doc)
    case None => |UNINSTALL_ORDER|
    case Some(head) => Rank(UNINSTALL_ORDER, head.kind)
  }

  /** The deletions of one uninstall: one call per document, by the rank of the kind the document itself declares. */
  ghost predicate DeletesDocuments(parse: Parser, deletes: seq<Action>, ns: string, docs: seq<string>) {
    && (forall k :: 0 <= k < |deletes| ==> IsDelete(deletes[k]) && deletes[k].call.ns == ns)
    && multiset(Deleted(deletes)) == multiset(docs)
    && (forall i, j :: 0 <= i < j < |deletes| ==>
          DeclaredRank(parse, Deleted(deletes)[i]) <= DeclaredRank(parse, Deleted(deletes)[j]))
  }

  lemma DeletedInOrder(parse: Parser, deletes: seq<Action>, ns: string, files: seq<Manifest>, docs: seq<string>)
    requires Deletes(deletes, ns, files) && HeadsAreRead(parse, files) && Ordered(UNINSTALL_ORDER, files)
    requires multiset(Contents(files)) == multiset(docs)
    ensures DeletesDocuments(parse, deletes, ns, docs)
  {
    hide Rank, Deleted, Contents, HeadsAreRead, DeclaredRank;
    assert Deleted(deletes) == Contents(files);
    forall i, j | 0 <= i < j < |deletes|
      ensures DeclaredRank(parse, Deleted(deletes)[i]) <= DeclaredRank(parse, Deleted(deletes)[j])
    {
      RankOfContent(parse, files, i);
      RankOfContent(parse, files, j);
    }
  }

  lemma RankOfContent(parse: Parser, files: seq<Manifest>, k: nat)
    requires HeadsAreRead(parse, files) && k < |files|
    ensures DeclaredRank(parse, files[k].content) == KindRank(UNINSTALL_ORDER, files[k])
  {
    hide Rank;
    assert files[k] in files;
  }

  /**
    Uninstalling a revision that recorded the manifests ms reaches its deletions unless a pre-delete
    hook fails or discovery does; then it deletes the documents of exactly those manifests that carry
    no resource policy, each once, whatever the single deletions answer.
  */
  lemma UninstallDeletes(env: Env, w: World, newest: Snapshot, listing: Result<seq<Manifest>, Error>, apis: set<string>,
                         ms: seq<Manifest>)
      returns (before: seq<Action>, deletes: seq<Action>, after: seq<Action>)
    requires Server.ReadForUninstall(env, w, newest, listing)
    requires newest.spec.manifest == Blob(ms)
    requires !StopsEarly(env, w, newest) ==>
               var groups := env.groups(BeforeDeleting(env, w, newest).world.log);
               Server.Serves(groups, apis) && Recorded(env.head, apis, ms) && Separate(ms)
    ensures var o := UninstallNewest(env, w, newest, listing);
            && NoDeletes(before) && NoDeletes(after)
            && (StopsEarly(env, w, newest) ==> o.world.log == w.log + before && o.err.Some?)
            && (!StopsEarly(env, w, newest) ==>
                  && DeletesDocuments(env.head, deletes, newest.namespace, Documents(Select(ms, Unannotated)))
                  && o.err == DeletionError(deletes, after)
                  && exists deleting: Snapshot ::
                       && Rewrites(newest, deleting) && deleting.status.code == DELETING
                       && Rewrites(newest, o.rel) && o.rel.status.code == DELETED
                       && o.world.log == w.log + before + [Put(deleting)] + deletes + after + [Put(o.rel)])
  {
    hide UninstallNewest, Recorded, Separate, Server.Serves, Blob, Rewrites, Neutral, NoDeletes, Deletes, Select,
         Documents, Contents, Ordered, DeletionError, Server.ListingOf, RunHooks, HeadsAreRead, DeletesDocuments;
    var end;
    before, deletes, after, end := UninstallShape(env, w, newest, listing);
    if !StopsEarly(env, w, newest) {
      var groups := env.groups(BeforeDeleting(env, w, newest).world.log);
      ListingOfRecorded(env, groups, apis, ms, listing);
      assert end.Deleted?;
      DeletedInOrder(env.head, deletes, newest.namespace, Select(listing.value, Unannotated),
                     Documents(Select(ms, Unannotated)));
    }
  }

  // ---------- from a rendering to the deletions ----------

  /** The files a rendering works on. */
  function RenderedFiles(env: Env, chart: Chart, config: string, options: Options): map<string, string> {
    var rendered := env.render(chart, config, options);
    if rendered.None? then map[] else Server.WithoutNotes(rendered.value)
  }

  lemma DiscoveryAnswered(env: Env, w: World, newest: Snapshot)
    requires !StopsEarly(env, w, newest)
    ensures env.groups(BeforeDeleting(env, w, newest).world.log) != Unreachable
  {
  }

  lemma StillRecorded(env: Env, w: World, files: map<string, string>, r: Rendered, apis: set<string>, ms: seq<Manifest>,
                      groups: Groups)
      returns (apis': set<string>)
    requires Recordable(env, w, files, r, apis, ms) && SkipsSource(env.head)
    requires CleanFiles(env, env.groups(w.log), files)
    requires groups != Unreachable && StillServed(env.groups(w.log), groups)
    ensures Server.Serves(groups, apis') && Recorded(env.head, apis', ms) && Separate(ms) && r.manifest == Blob(ms)
  {
    hide Recorded, Separate, SkipsSource, CleanFiles, Classified, Ordered;
    apis' := if groups.Listed? then set v | v in groups.versions else {"v1"};
    assert apis <= apis';
    RecordableIsRecorded(env, w, files, r, apis, ms, apis');
  }

  /** What uninstalling did: it deleted these documents and nothing else, between storing DELETING and DELETED. */
  ghost predicate DeletedExactly(parse: Parser, later: World, newest: Snapshot, u: Outcome, docs: seq<string>) {
    exists before: seq<Action>, deletes: seq<Action>, after: seq<Action>, deleting: Snapshot ::
      && u.world.log == later.log + before + [Put(deleting)] + deletes + after + [Put(u.rel)]
      && Rewrites(newest, deleting) && deleting.status.code == DELETING && u.rel.status.code == DELETED
      && NoDeletes(before) && NoDeletes(after)
      && DeletesDocuments(parse, deletes, newest.namespace, docs)
  }

  /** When uninstalling a revision gets as far as deleting, with every API version of the rendering still served. */
  ghost predicate GetsToDelete(env: Env, before: Groups, later: World, newest: Snapshot,
                               listing: Result<seq<Manifest>, Error>) {
    && Server.ReadForUninstall(env, later, newest, listing)
    && !StopsEarly(env, later, newest)
    && StillServed(before, env.groups(BeforeDeleting(env, later, newest).world.log))
  }

  /**
    Conservation: uninstalling a revision that carries a rendered manifest, whose generic files are clean,
    deletes the documents of exactly the generic manifests that were rendered and carry no resource
    policy: each once, no others, in uninstall order.
  */
  lemma RenderedIsDeleted(env: Env, w: World, chart: Chart, config: string, options: Options, rendering: Rendering,
                          later: World, newest: Snapshot, listing: Result<seq<Manifest>, Error>)
      returns (apis: set<string>, ms: seq<Manifest>)
    requires Server.RenderingOf(env, w, chart, config, options, rendering) && rendering.result.Ok?
    requires newest.spec.manifest == rendering.result.value.manifest
    requires SkipsSource(env.head) && CleanFiles(env, env.groups(w.log), RenderedFiles(env, chart, config, options))
    requires GetsToDelete(env, env.groups(w.log), later, newest, listing)
    ensures Recordable(env, w, RenderedFiles(env, chart, config, options), rendering.result.value, apis, ms)
    ensures DeletedExactly(env.head, later, newest, UninstallNewest(env, later, newest, listing),
                           Documents(Select(ms, Unannotated)))
  {
    hide UninstallNewest, SkipsSource, CleanFiles, StillServed, StopsEarly, NoDeletes, DeletesDocuments,
         Server.RenderingOf, Server.ReadForUninstall, Recordable, Rewrites, Server.WithoutNotes, Server.Serves,
         Recorded, Separate, BeforeDeleting, Blob;
    var files;
    files, apis, ms := RecordedManifests(env, w, chart, config, options, rendering);
    DiscoveryAnswered(env, later, newest);
    var groups := env.groups(BeforeDeleting(env, later, newest).world.log);
    var apis' := StillRecorded(env, w, files, rendering.result.value, apis, ms, groups);
    var before, deletes, after := UninstallDeletes(env, later, newest, listing, apis', ms);
  }

  // ---------- a release's whole life ----------

  /** What reading an archived release back yields. */
  function Archived(ns: string, rel: Snapshot): Snapshot {
    Decode(ns, IdOf(rel), RecordOf(rel))
  }

  /** The last of a history is the archived release of maximal version. */
  lemma NewestIs(ns: string, store: Store, rels: seq<Snapshot>, rel: Snapshot)
    requires IsHistory(ns, store, rel.name, rels)
    requires IdOf(rel) in store && store[IdOf(rel)] == RecordOf(rel)
    requires forall v: int32 :: Id(rel.name, v) in store ==> v <= rel.spec.version
    ensures rels != [] && rels[|rels| - 1] == Archived(ns, rel)
  {
    hide Decode;
    var i :| 0 <= i < |rels| && rels[i].spec.version == rel.spec.version;
    var newest := rels[|rels| - 1];
    assert Id(rel.name, newest.spec.version) in store;
  }

  lemma UninstallsNewest(env: Env, later: World, gone: Snapshot, rels: seq<Snapshot>,
                         listing: Result<seq<Manifest>, Error>)
    requires MatchString(gone.name) && rels != [] && !rels[|rels| - 1].spec.purge
    ensures UninstallRelease(env, later, gone, rels, listing) == UninstallNewest(env, later, rels[|rels| - 1], listing)
  {
    hide MatchString, UninstallNewest;
  }

  /** The first install of a name that records anything archives what it rendered as revision 1. */
  lemma RecordedByInstall(env: Env, w: World, rel: Snapshot, rendering: Rendering)
    requires Server.ReadForInstall(env, w, rel, rendering)
    requires var o := InstallRelease(env, w, rel, rendering); Create(o.rel) in Done(w, o)
    requires forall v: int32 :: Id(rel.name, v) !in w.store
    ensures rel.spec.chart.Some? && rendering.result.Ok?
    ensures Server.RenderingOf(env, w, rel.spec.chart.value, DefaultConfig(rel).spec.config.value,
                               Options(rel.name, rel.namespace, 1, false), rendering)
    ensures var o := InstallRelease(env, w, rel, rendering);
            && o.rel.name == rel.name && o.rel.spec.version == 1 && o.rel.spec.purge == rel.spec.purge
            && o.rel.spec.manifest == rendering.result.value.manifest
            && o.world.store == w.store[IdOf(o.rel) := RecordOf(o.rel)]
  {
    hide PerformRelease, Server.RenderingOf, Plausible, InstallCalls;
    var o := InstallRelease(env, w, rel, rendering);
    assert Done(w, Outcome(w, o.rel, o.err)) == [];
    if rel.spec.chart.Some? && rel.spec.chart.value.templates != [] {
      RenderingIsPlausible(env, w, rel.spec.chart.value, DefaultConfig(rel).spec.config.value,
                           Options(rel.name, rel.namespace, 1, false), rendering);
      hide InstallRelease;
      var calls, end := InstallShape(env, w, rel, rendering);
      DoneIs(w, o, calls, InstallWrites(o.rel, end));
      assert end.NotInstalled? ==> calls + [] == calls;
      if !end.NotInstalled? { PerformThree(w.store, InstallWrites(o.rel, end)); }
    }
  }

  /**
    From an install to the uninstall: as long as nothing else happens to the name's revisions, what the
    install recorded is what uninstalling the object deletes.
  */
  lemma InstallThenUninstall(env: Env, w: World, rel: Snapshot, rendering: Rendering, later: World, gone: Snapshot,
                             rels: seq<Snapshot>, listing: Result<seq<Manifest>, Error>)
      returns (apis: set<string>, ms: seq<Manifest>)
    requires Server.ReadForInstall(env, w, rel, rendering)
    requires var o := InstallRelease(env, w, rel, rendering);
             && Create(o.rel) in Done(w, o)
             && Untouched(o.world.store, later.store, rel.name)
             && GetsToDelete(env, env.groups(w.log), later, Archived(env.namespace, o.rel), listing)
    requires forall v: int32 :: Id(rel.name, v) !in w.store
    requires rel.spec.chart.Some? && SkipsSource(env.head)
    requires CleanFiles(env, env.groups(w.log),
                        RenderedFiles(env, rel.spec.chart.value, DefaultConfig(rel).spec.config.value,
                                      Options(rel.name, rel.namespace, 1, false)))
    requires gone.name == rel.name && MatchString(rel.name) && !rel.spec.purge
    requires IsHistory(env.namespace, later.store, rel.name, rels)
    ensures rendering.result.Ok?
    ensures Recordable(env, w,
                       RenderedFiles(env, rel.spec.chart.value, DefaultConfig(rel).spec.config.value,
                                     Options(rel.name, rel.namespace, 1, false)),
                       rendering.result.value, apis, ms)
    ensures DeletedExactly(env.head, later, Archived(env.namespace, InstallRelease(env, w, rel, rendering).rel),
                           UninstallRelease(env, later, gone, rels, listing), Documents(Select(ms, Unannotated)))
  {
    hide InstallRelease, UninstallNewest, UninstallRelease, MatchString, SkipsSource, CleanFiles, GetsToDelete,
         DeletedExactly, Server.RenderingOf, Server.ReadForInstall, Recordable, RenderedFiles, IsHistory;
    var o := InstallRelease(env, w, rel, rendering);
    RecordedByInstall(env, w, rel, rendering);
    NewestIs(env.namespace, later.store, rels, o.rel);
    UninstallsNewest(env, later, gone, rels, listing);
    apis, ms := RenderedIsDeleted(env, w, rel.spec.chart.value, DefaultConfig(rel).spec.config.value,
                                  Options(rel.name, rel.namespace, 1, false), rendering,
                                  later, Archived(env.namespace, o.rel), listing);
  }

  /** The values an update renders. */
  function UpdateConfig(rel: Snapshot, current: Snapshot): string {
    DefaultConfig(ReuseValues(rel, current)).spec.config.value
  }

  function UpdateOptions(rel: Snapshot, current: Snapshot): Options {
    Options(rel.name, current.namespace, NextVersion(current), true)
  }

  /** An update that records anything archives what it rendered as the revision after the newest. */
  lemma RecordedByUpdate(env: Env, w: World, rel: Snapshot, history: seq<Snapshot>, rendering: Rendering, bound: int)
    requires Server.ReadForUpdate(env, w, rel, history, rendering) && WellKeyed(w.store, bound) && bound < MAX_INT32
    requires var o := UpdateRelease(env, w, rel, history, rendering); Create(o.rel) in Done(w, o)
    ensures rel.spec.chart.Some? && history != [] && rendering.result.Ok?
    ensures Server.RenderingOf(env, w, rel.spec.chart.value, UpdateConfig(rel, LastOf(history)),
                               UpdateOptions(rel, LastOf(history)), rendering)
    ensures var o := UpdateRelease(env, w, rel, history, rendering);
            && o.rel.name == rel.name && o.rel.spec.purge == rel.spec.purge
            && o.rel.spec.manifest == rendering.result.value.manifest
            && IdOf(o.rel) in o.world.store && o.world.store[IdOf(o.rel)] == RecordOf(o.rel)
            && (forall v: int32 :: Id(rel.name, v) in o.world.store ==> v <= o.rel.spec.version)
  {
    hide PerformUpdate, MatchString, Server.RenderingOf, Plausible, UpdateCalls, IsHistory, WellKeyed;
    var o := UpdateRelease(env, w, rel, history, rendering);
    assert Done(w, Outcome(w, o.rel, o.err)) == [];
    if MatchString(rel.name) && rel.spec.chart.Some? && history != [] {
      var current := LastOf(history);
      RenderingIsPlausible(env, w, rel.spec.chart.value, UpdateConfig(rel, current), UpdateOptions(rel, current),
                           rendering);
      RecordedAfterNewest(env, w, rel, history, rendering, bound);
    }
  }

  lemma RecordedAfterNewest(env: Env, w: World, rel: Snapshot, history: seq<Snapshot>, rendering: Rendering, bound: int)
    requires Plausible(rendering) && IsHistory(env.namespace, w.store, rel.name, history) && history != []
    requires WellKeyed(w.store, bound) && bound < MAX_INT32
    requires var o := UpdateRelease(env, w, rel, history, rendering); Create(o.rel) in Done(w, o)
    ensures rendering.result.Ok?
    ensures var o := UpdateRelease(env, w, rel, history, rendering);
            && o.rel.name == rel.name && o.rel.spec.purge == rel.spec.purge
            && o.rel.spec.manifest == rendering.result.value.manifest
            && IdOf(o.rel) in o.world.store && o.world.store[IdOf(o.rel)] == RecordOf(o.rel)
            && (forall v: int32 :: Id(rel.name, v) in o.world.store ==> v <= o.rel.spec.version)
  {
    hide UpdateRelease, UpdateCalls, IsHistory, WellKeyed, AllOk, UpdateFailedIn, Restamped, Done;
    var o := UpdateRelease(env, w, rel, history, rendering);
    NewestOf(env.namespace, w.store, rel.name, history, bound);
    var calls, end := UpdateOutcome(env, w, rel, history, rendering, bound);
    UnpublishedCreatesNothing(calls, LastOf(history), o.rel);
  }

  lemma UnpublishedCreatesNothing(calls: seq<Action>, current: Snapshot, rel: Snapshot)
    requires Neutral(calls)
    ensures Create(rel) !in calls && Create(rel) !in calls + UpdateWrites(current, rel, Unpublished)
  {
  }

  /** The same from an update to the uninstall. */
  lemma UpdateThenUninstall(env: Env, w: World, rel: Snapshot, history: seq<Snapshot>, rendering: Rendering, bound: int,
                            later: World, gone: Snapshot, rels: seq<Snapshot>, listing: Result<seq<Manifest>, Error>)
      returns (apis: set<string>, ms: seq<Manifest>)
    requires Server.ReadForUpdate(env, w, rel, history, rendering) && WellKeyed(w.store, bound) && bound < MAX_INT32
    requires var o := UpdateRelease(env, w, rel, history, rendering);
             && Create(o.rel) in Done(w, o)
             && Untouched(o.world.store, later.store, rel.name)
             && GetsToDelete(env, env.groups(w.log), later, Archived(env.namespace, o.rel), listing)
    requires rel.spec.chart.Some? && history != [] && SkipsSource(env.head)
    requires CleanFiles(env, env.groups(w.log),
                        RenderedFiles(env, rel.spec.chart.value, UpdateConfig(rel, LastOf(history)),
                                      UpdateOptions(rel, LastOf(history))))
    requires gone.name == rel.name && MatchString(rel.name) && !rel.spec.purge
    requires IsHistory(env.namespace, later.store, rel.name, rels)
    ensures rendering.result.Ok?
    ensures Recordable(env, w,
                       RenderedFiles(env, rel.spec.chart.value, UpdateConfig(rel, LastOf(history)),
                                     UpdateOptions(rel, LastOf(history))),
                       rendering.result.value, apis, ms)
    ensures DeletedExactly(env.head, later, Archived(env.namespace, UpdateRelease(env, w, rel, history, rendering).rel),
                           UninstallRelease(env, later, gone, rels, listing), Documents(Select(ms, Unannotated)))
  {
    hide UpdateRelease, UninstallNewest, UninstallRelease, MatchString, SkipsSource, CleanFiles, GetsToDelete,
         DeletedExactly, Server.RenderingOf, Server.ReadForUpdate, Recordable, RenderedFiles, IsHistory, WellKeyed,
         UpdateConfig, UpdateOptions;
    var o := UpdateRelease(env, w, rel, history, rendering);
    RecordedByUpdate(env, w, rel, history, rendering, bound);
    NewestIs(env.namespace, later.store, rels, o.rel);
    UninstallsNewest(env, later, gone, rels, listing);
    var current := LastOf(history);
    apis, ms := RenderedIsDeleted(env, w, rel.spec.chart.value, UpdateConfig(rel, current), UpdateOptions(rel, current),
                                  rendering, later, Archived(env.namespace, o.rel), listing);
  }
}
