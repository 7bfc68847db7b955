/**
  What an uninstall refuses, what it asks for, and which resources it leaves alone: whatever carries a resource
  policy, of whatever value, is never deleted, and the rest of what was recorded is.
*/
module Uninstalls {
  import opened Wrappers
  import opened GoStrings
  import opened ReleaseKey
  import opened ReleaseName
  import opened Hapi
  import opened Worlds
  import opened KindSorter
  import opened Manifests
  import opened ManifestBlob
  import opened Annotations
  import opened Lifecycle
  import opened HookLaws
  import opened HandlerLaws
  import opened History
  import opened Outcomes
  import opened Conservation
  import opened Renderings
  import opened Requests
  import Server = ReleaseServer

  // ---------- refusals and purges ----------

  /** No action reaches Kubernetes. */
  predicate AsksNothing(actions: seq<Action>) {
    forall k :: 0 <= k < |actions| ==> !actions[k].Asked?
  }

  /**
    An uninstall of an invalid name, or of one without revisions, does nothing and says why. Where the newest
    revision asks for a purge, all revisions go, oldest first, without an error and without a word to Kubernetes.
  */
  lemma UninstallShort(env: Env, w: World, rel: Snapshot, rels: seq<Snapshot>, listing: Result<seq<Manifest>, Error>,
                       bound: int, n: int32)
    requires MatchString(rel.name) ==> IsHistory(env.namespace, w.store, rel.name, rels)
    requires WellKeyed(w.store, bound) && Interval(w.store, rel.name, 1, n)
    ensures var o := UninstallRelease(env, w, rel, rels, listing);
            && (!MatchString(rel.name) ==> o == Outcome(w, rel, Some(MissingRelease)))
            && (MatchString(rel.name) && n == 0 ==> o == Outcome(w, rel, Some(ReleaseNotFound)))
            && (MatchString(rel.name) && n >= 1 && w.store[Id(rel.name, n)].spec.purge ==>
                  && o.err == None && AsksNothing(Done(w, o)) && |Done(w, o)| == n
                  && (forall k :: 0 <= k < n ==> Done(w, o)[k] == Remove(rel.name, k + 1))
                  && (forall id :: id in o.world.store <==> id in w.store && id.name != rel.name)
                  && (forall id :: id in o.world.store ==> o.world.store[id] == w.store[id]))
  {
    hide MatchString, UninstallNewest, Purge;
    if MatchString(rel.name) {
      HistoryEnds(env.namespace, w.store, rel.name, rels, bound, 1, n);
      if n >= 1 {
        NewestOf(env.namespace, w.store, rel.name, rels, bound);
        if w.store[Id(rel.name, n)].spec.purge { PurgesAll(env.namespace, w, rel.name, rels, bound, n); }
      }
    }
  }

  lemma PurgesAll(ns: string, w: World, name: string, rels: seq<Snapshot>, bound: int, n: int32)
    requires IsHistory(ns, w.store, name, rels) && WellKeyed(w.store, bound) && Interval(w.store, name, 1, n)
    ensures var (after, err) := Purge(w, rels);
            && err == None && |w.log| <= |after.log|
            && var done := after.log[|w.log|..];
            && AsksNothing(done) && |done| == n && (forall k :: 0 <= k < n ==> done[k] == Remove(name, k + 1))
            && (forall id :: id in after.store <==> id in w.store && id.name != name)
            && (forall id :: id in after.store ==> after.store[id] == w.store[id])
  {
    hide Purge;
    AllVersions(ns, w.store, name, rels, bound, n);
    PurgeRemovesAll(ns, w, name, rels);
    assert (w.log + Removals(rels))[|w.log|..] == Removals(rels);
    RemovalsRemove(w.store, name, Removals(rels));
    forall id | id in PerformAll(w.store, Removals(rels)) ensures id.name != name {
      assert Id(id.name, id.version) == id;
    }
  }

  lemma {:induction false} RemovalsRemove(store: Store, name: string, todo: seq<Action>)
    requires forall k :: 0 <= k < |todo| ==> todo[k].Remove? && todo[k].name == name
    ensures var after := PerformAll(store, todo);
            && (forall id :: id in after ==> id in store && after[id] == store[id])
            && (forall id :: id in store && id.name != name ==> id in after)
    decreases |todo|
  {
    if todo != [] { RemovalsRemove(Perform(store, todo[0]), name, todo[1..]); }
  }

  /** A history of revisions 1..n lists them in this order. */
  lemma AllVersions(ns: string, store: Store, name: string, rels: seq<Snapshot>, bound: int, n: int32)
    requires IsHistory(ns, store, name, rels) && WellKeyed(store, bound) && Interval(store, name, 1, n)
    ensures |rels| == n && forall k :: 0 <= k < n ==> rels[k].name == name && rels[k].spec.version == k + 1
  {
    hide Decode;
    forall i | 0 <= i < |rels| ensures 1 <= rels[i].spec.version <= n && rels[i].name == name {
      assert Id(name, rels[i].spec.version) in store;
      DecodesItsName(ns, Id(name, rels[i].spec.version), store[Id(name, rels[i].spec.version)]);
    }
    VersionsCount(rels, n, name, store, ns);
  }

  lemma {:induction false} VersionsCount(rels: seq<Snapshot>, n: int32, name: string, store: Store, ns: string)
    requires IsHistory(ns, store, name, rels) && Interval(store, name, 1, n)
    requires forall i :: 0 <= i < |rels| ==> 1 <= rels[i].spec.version <= n
    ensures |rels| == n && forall k :: 0 <= k < n ==> rels[k].spec.version == k + 1
  {
    hide Decode;
    forall k | 0 <= k < |rels| ensures rels[k].spec.version == k + 1 { AtItsPlace(rels, n, name, store, ns, k); }
    assert rels != [] ==> 1 <= rels[|rels| - 1].spec.version == |rels| <= n;
    if n > 0 {
      assert Id(name, n) in store;
      var i :| 0 <= i < |rels| && rels[i].spec.version == n;
    }
  }

  lemma {:induction false} AtItsPlace(rels: seq<Snapshot>, n: int32, name: string, store: Store, ns: string, k: nat)
    requires IsHistory(ns, store, name, rels) && Interval(store, name, 1, n) && k < |rels|
    requires forall i :: 0 <= i < |rels| ==> 1 <= rels[i].spec.version <= n
    ensures rels[k].spec.version == k + 1
    decreases k
  {
    hide Decode;
    if k > 0 {
      AtItsPlace(rels, n, name, store, ns, k - 1);
      assert rels[k - 1].spec.version < rels[k].spec.version;
    }
    assert rels[k].spec.version >= k + 1;
    var v: int32 := k + 1;
    assert Id(name, v) in store;
    var i :| 0 <= i < |rels| && rels[i].spec.version == v;
    assert i <= k && (k > 0 ==> k - 1 < i);
  }

  // ---------- what is asked for ----------

  /** What an uninstall without purge may do, one action at a time. */
  ghost predicate MayUninstall(env: Env, newest: Snapshot, a: Action) {
    a.Asked? ==>
      match a.call
      case Discover => true
      case CreateResources(_, _, _, _) => IsDeleteHook(newest, a.call)
      case WatchUntilReady(_, _, _) => IsDeleteHook(newest, a.call)
      case DeleteResources(ns, content) => ns == newest.namespace && MayDelete(env, content)
      case UpdateResources(_, _, _, _, _, _) => false
      case BuildResources(_, _) => false
      case FetchRelease(_) => false
      case Publish(_) => false
  }

  ghost predicate IsDeleteHook(newest: Snapshot, call: Call) {
    && !newest.spec.disableHooks
    && (|| ForHook(call, newest.spec.hooks, newest.namespace, PRE_DELETE, newest.spec.timeout)
        || ForHook(call, newest.spec.hooks, newest.namespace, POST_DELETE, newest.spec.timeout))
  }

  /** The text parses, and what it declares carries no resource policy of whatever value. */
  predicate MayDelete(env: Env, content: string) {
    && env.head(content).Some?
    && var metadata := env.head(content).value.metadata;
       metadata == None || "helm.sh/resource-policy" !in metadata.value.annotations
  }

  ghost predicate AllMayUninstall(env: Env, newest: Snapshot, actions: seq<Action>) {
    forall k :: 0 <= k < |actions| ==> MayUninstall(env, newest, actions[k])
  }

  lemma BothMayUninstall(env: Env, newest: Snapshot, a: seq<Action>, b: seq<Action>)
    requires AllMayUninstall(env, newest, a) && AllMayUninstall(env, newest, b)
    ensures AllMayUninstall(env, newest, a + b)
  {
    hide MayUninstall;
  }

  lemma HooksMayUninstall(env: Env, newest: Snapshot, event: HookEvent, calls: seq<Action>)
    requires calls == HookCalls(newest, newest.namespace, event) || Loses(newest, newest.namespace, event, calls)
    requires event.PRE_DELETE? || event.POST_DELETE?
    ensures AllMayUninstall(env, newest, calls)
  {
    GuardedCalls(newest, newest.namespace, event, calls);
    hide HookCalls, Loses;
    forall k | 0 <= k < |calls| ensures MayUninstall(env, newest, calls[k]) {
      assert ForHook(calls[k].call, newest.spec.hooks, newest.namespace, event, newest.spec.timeout);
    }
  }

  lemma PartsMayUninstall(env: Env, newest: Snapshot, rel: Snapshot, ok: bool)
    ensures AllMayUninstall(env, newest, []) && AllMayUninstall(env, newest, [Put(rel)])
    ensures AllMayUninstall(env, newest, [Asked(Discover, ok)])
  {
  }

  lemma DeletionsMayUninstall(env: Env, newest: Snapshot, deletes: seq<Action>, listing: seq<Manifest>, vs: set<string>,
                              files: map<string, string>, hooks: seq<Hook>)
    requires Classified(env.head, vs, files, hooks, listing)
    requires Deletes(deletes, newest.namespace, Select(listing, Unannotated))
    ensures AllMayUninstall(env, newest, deletes)
  {
    ClassifiedHeads(env.head, vs, files, hooks, listing, Unannotated);
    SelectedMean(listing);
    hide Classified, Select;
    var chosen := Select(listing, Unannotated);
    forall k | 0 <= k < |deletes| ensures MayUninstall(env, newest, deletes[k]) {
      assert chosen[k] in chosen;
    }
  }

  /**
    Whatever fails, an uninstall without purge runs hooks of the newest revision's two delete events unless they are
    disabled, discovers, deletes texts that carry no resource policy in the revision's namespace, and asks for
    nothing else.
  */
  lemma UninstallAsks(env: Env, w: World, newest: Snapshot, listing: Result<seq<Manifest>, Error>)
    requires Server.ReadForUninstall(env, w, newest, listing)
    ensures AllMayUninstall(env, newest, Done(w, UninstallNewest(env, w, newest, listing)))
  {
    hide UninstallNewest, AllMayUninstall, HookCalls, Loses, EndsInFailure, Rewrites, Neutral, NoDeletes, OnlyHookCalls,
         DeletionError, Deletes, Select, Server.ListingOf;
    var o := UninstallNewest(env, w, newest, listing);
    var before, deletes, after, end := UninstallShape(env, w, newest, listing);
    var pre := HookCalls(newest, newest.namespace, PRE_DELETE);
    PartsMayUninstall(env, newest, o.rel, true);
    PartsMayUninstall(env, newest, o.rel, false);
    HooksMayUninstall(env, newest, PRE_DELETE, pre);
    BothMayUninstall(env, newest, pre, [Asked(Discover, true)]);
    BothMayUninstall(env, newest, pre, [Asked(Discover, false)]);
    if Loses(newest, newest.namespace, PRE_DELETE, before) { HooksMayUninstall(env, newest, PRE_DELETE, before); }
    match end
    case Stopped =>
      DoneIs(w, o, before, []);
      assert before + [] == before;
    case Corrupt =>
      DoneIs(w, o, before, [Put(o.rel)]);
      BothMayUninstall(env, newest, before, [Put(o.rel)]);
    case Deleted =>
      DeletesListed(env, w, newest, listing, deletes);
      HooksMayUninstall(env, newest, POST_DELETE, after);
      var deleting: Snapshot :| Rewrites(newest, deleting) && deleting.status.code == DELETING
        && o.world.log == w.log + before + [Put(deleting)] + deletes + after + [Put(o.rel)];
      PartsMayUninstall(env, newest, deleting, true);
      BothMayUninstall(env, newest, before, [Put(deleting)]);
      BothMayUninstall(env, newest, before + [Put(deleting)], deletes);
      BothMayUninstall(env, newest, before + [Put(deleting)] + deletes, after);
      BothMayUninstall(env, newest, before + [Put(deleting)] + deletes + after, [Put(o.rel)]);
      var done := before + [Put(deleting)] + deletes + after + [Put(o.rel)];
      assert o.world.log == w.log + done + [];
      DoneIs(w, o, done, []);
      assert done + [] == done;
  }

  lemma DeletesListed(env: Env, w: World, newest: Snapshot, listing: Result<seq<Manifest>, Error>, deletes: seq<Action>)
    requires Server.ReadForUninstall(env, w, newest, listing) && !StopsEarly(env, w, newest) && listing.Ok?
    requires Deletes(deletes, newest.namespace, Select(listing.value, Unannotated))
    ensures AllMayUninstall(env, newest, deletes)
  {
    hide Deletes, Select, Classified, AllMayUninstall, RunHooks, Server.Serves, NamesPieces, Ordered;
    DiscoveryAnswered(env, w, newest);
    var groups := env.groups(BeforeDeleting(env, w, newest).world.log);
    assert Server.ListingOf(env, groups, newest.spec.manifest, listing);
    var vs, files :|
      && Server.Serves(groups, vs) && NamesPieces(files, Split(newest.spec.manifest, SEP))
      && Ordered(UNINSTALL_ORDER, listing.value)
      && exists hooks :: Classified(env.head, vs, files, hooks, listing.value);
    var hooks :| Classified(env.head, vs, files, hooks, listing.value);
    DeletionsMayUninstall(env, newest, deletes, listing.value, vs, files, hooks);
  }

  // ---------- from a rendered file to its deletion ----------

  /** The file is an ordinary one: neither passed over nor rejected, and no hook. */
  ghost predicate IsOrdinary(env: Env, groups: Groups, name: string, content: string) {
    && !Underscored(name) && !AllBlank(content) && !IsNotes(name) && env.head(content).Some?
    && var head := env.head(content).value;
    && (head.version == "" || Serving(groups, head.version))
    && (head.metadata == None || "helm.sh/hook" !in head.metadata.value.annotations)
  }

  /** The deletion of the file's document. */
  ghost predicate IsDeletionOf(a: Action, name: string, content: string) {
    a.Asked? && a.call.DeleteResources? && a.call.content == "# Source: " + name + "\n" + content
  }

  /** The object was installed with something recorded, and is uninstalled while its only revision is still there. */
  ghost predicate LivedOnce(env: Env, w: World, rel: Snapshot, rendering: Rendering, later: World, gone: Snapshot,
                            rels: seq<Snapshot>, listing: Result<seq<Manifest>, Error>) {
    var o := InstallRelease(env, w, rel, rendering);
    && Server.ReadForInstall(env, w, rel, rendering) && Create(o.rel) in Done(w, o)
    && (forall v: int32 :: Id(rel.name, v) !in w.store)
    && Untouched(o.world.store, later.store, rel.name)
    && gone.name == rel.name && MatchString(rel.name) && !rel.spec.purge
    && IsHistory(env.namespace, later.store, rel.name, rels)
    && GetsToDelete(env, env.groups(w.log), later, Archived(env.namespace, o.rel), listing)
  }

  /**
    The life of one file: once an install that recorded it is uninstalled, the document of an ordinary file of the
    chart is deleted if it carries no resource policy, and is not if it carries one.
  */
  lemma PolicyDecides(env: Env, w: World, rel: Snapshot, rendering: Rendering, later: World, gone: Snapshot,
                      rels: seq<Snapshot>, listing: Result<seq<Manifest>, Error>, files: map<string, string>,
                      name: string)
    requires LivedOnce(env, w, rel, rendering, later, gone, rels, listing) && rel.spec.chart.Some?
    requires env.render(rel.spec.chart.value, if rel.spec.config == None then "" else rel.spec.config.value,
                        Options(rel.name, rel.namespace, 1, false)) == Some(files)
    requires SkipsSource(env.head) && CleanFiles(env, env.groups(w.log), Server.WithoutNotes(files))
    requires name in files && IsOrdinary(env, env.groups(w.log), name, files[name])
    ensures var done := Done(later, UninstallRelease(env, later, gone, rels, listing));
            var metadata := env.head(files[name]).value.metadata;
            (exists k :: 0 <= k < |done| && IsDeletionOf(done[k], name, files[name]))
            <==> metadata == None || "helm.sh/resource-policy" !in metadata.value.annotations
  {
    var apis, ms := LivedOnceDeletes(env, w, rel, rendering, later, gone, rels, listing, files);
    var o := InstallRelease(env, w, rel, rendering);
    hide LivedOnce, InstallRelease, UninstallRelease, SkipsSource, CleanFiles, DeletedExactly, Recordable, Archived,
         Done, IsOrdinary, IsDeletionOf, Server.WithoutNotes;
    var rest := Server.WithoutNotes(files);
    OrdinaryIsRecorded(env, w, files, rest, rendering.result.value, apis, ms, name);
    HeadsOfRecorded(env, w, rest, rendering.result.value, apis, ms);
    var m := Manifest(name, files[name], env.head(files[name]).value);
    RecordedDecides(env, later, Archived(env.namespace, o.rel), UninstallRelease(env, later, gone, rels, listing), ms,
                    m);
  }

  lemma LivedOnceDeletes(env: Env, w: World, rel: Snapshot, rendering: Rendering, later: World, gone: Snapshot,
                         rels: seq<Snapshot>, listing: Result<seq<Manifest>, Error>, files: map<string, string>)
      returns (apis: set<string>, ms: seq<Manifest>)
    requires LivedOnce(env, w, rel, rendering, later, gone, rels, listing) && rel.spec.chart.Some?
    requires env.render(rel.spec.chart.value, if rel.spec.config == None then "" else rel.spec.config.value,
                        Options(rel.name, rel.namespace, 1, false)) == Some(files)
    requires SkipsSource(env.head) && CleanFiles(env, env.groups(w.log), Server.WithoutNotes(files))
    ensures rendering.result.Ok?
    ensures Recordable(env, w, Server.WithoutNotes(files), rendering.result.value, apis, ms)
    ensures DeletedExactly(env.head, later, Archived(env.namespace, InstallRelease(env, w, rel, rendering).rel),
                           UninstallRelease(env, later, gone, rels, listing), Documents(Select(ms, Unannotated)))
  {
    hide InstallRelease, UninstallRelease, MatchString, SkipsSource, CleanFiles, GetsToDelete, DeletedExactly,
         Server.ReadForInstall, Recordable, IsHistory, Archived, Done, Server.WithoutNotes;
    assert RenderedFiles(env, rel.spec.chart.value, DefaultConfig(rel).spec.config.value,
                         Options(rel.name, rel.namespace, 1, false)) == Server.WithoutNotes(files);
    apis, ms := InstallThenUninstall(env, w, rel, rendering, later, gone, rels, listing);
  }

  lemma OrdinaryIsRecorded(env: Env, w: World, files: map<string, string>, rest: map<string, string>, r: Rendered,
                           apis: set<string>, ms: seq<Manifest>, name: string)
    requires Recordable(env, w, rest, r, apis, ms) && rest == Server.WithoutNotes(files)
    requires name in files && IsOrdinary(env, env.groups(w.log), name, files[name])
    ensures Manifest(name, files[name], env.head(files[name]).value) in ms && name in rest && rest[name] == files[name]
    ensures Place(env.head, apis, name, rest[name]).Generic?
  {
    hide Place, Underscored, AllBlank, IsNotes, Ordered, Blob, Heeds;
    NotesMean(name);
    PlaceMeans(env.head, apis, name, files[name]);
    assert Server.Serves(env.groups(w.log), apis);
  }

  lemma HeadsOfRecorded(env: Env, w: World, rest: map<string, string>, r: Rendered, apis: set<string>,
                        ms: seq<Manifest>)
    requires Recordable(env, w, rest, r, apis, ms)
    requires SkipsSource(env.head) && CleanFiles(env, env.groups(w.log), rest)
    ensures forall m :: m in ms ==> env.head(Document(m)) == Some(m.head)
  {
    RecordableIsRecorded(env, w, rest, r, apis, ms, apis);
  }

  lemma RecordedDecides(env: Env, later: World, newest: Snapshot, u: Outcome, ms: seq<Manifest>, m: Manifest)
    requires m in ms && forall x :: x in ms ==> env.head(Document(x)) == Some(x.head)
    requires DeletedExactly(env.head, later, newest, u, Documents(Select(ms, Unannotated)))
    ensures (exists k :: 0 <= k < |Done(later, u)| && IsDeletionOf(Done(later, u)[k], m.name, m.content))
            <==> !HasPolicy(m)
  {
    hide Document, Documents, Select, DeletesDocuments, NoDeletes, IsDeletionOf, Done, DeletedExactly, DeletesText;
    var docs := Documents(Select(ms, Unannotated));
    var before, deleting, deletes, after := PartsOfUninstall(env.head, later, newest, u, docs);
    OnlyDeletions(env.head, deletes, newest.namespace, docs);
    DeletionsAmong(before, deleting, deletes, after, u.rel, m);
    DocumentsSelected(env.head, ms, m);
    DeletedDocuments(deletes, docs, Document(m));
  }

  lemma PartsOfUninstall(parse: Parser, later: World, newest: Snapshot, u: Outcome, docs: seq<string>)
      returns (before: seq<Action>, deleting: Snapshot, deletes: seq<Action>, after: seq<Action>)
    requires DeletedExactly(parse, later, newest, u, docs)
    ensures Done(later, u) == before + [Put(deleting)] + deletes + after + [Put(u.rel)]
    ensures NoDeletes(before) && NoDeletes(after) && DeletesDocuments(parse, deletes, newest.namespace, docs)
  {
    hide Rewrites, DeletesDocuments, NoDeletes, Done;
    before, deletes, after, deleting :|
      && u.world.log == later.log + before + [Put(deleting)] + deletes + after + [Put(u.rel)]
      && Rewrites(newest, deleting) && deleting.status.code == DELETING && u.rel.status.code == DELETED
      && NoDeletes(before) && NoDeletes(after)
      && DeletesDocuments(parse, deletes, newest.namespace, docs);
    Regrouped(later.log, before, [Put(deleting)], deletes, after, [Put(u.rel)]);
    DoneIs(later, u, before + [Put(deleting)] + deletes + after, [Put(u.rel)]);
  }

  lemma Regrouped(log: seq<Action>, a: seq<Action>, b: seq<Action>, c: seq<Action>, d: seq<Action>, e: seq<Action>)
    ensures log + a + b + c + d + e == log + (a + b + c + d) + e
  {
    assert log + a + b + c + d == log + (a + b + c + d);
  }

  lemma OnlyDeletions(parse: Parser, deletes: seq<Action>, ns: string, docs: seq<string>)
    requires DeletesDocuments(parse, deletes, ns, docs)
    ensures forall k :: 0 <= k < |deletes| ==> IsDelete(deletes[k])
    ensures multiset(Conservation.Deleted(deletes)) == multiset(docs)
  {
  }

  predicate DeletesText(a: Action, text: string) {
    a.Asked? && a.call.DeleteResources? && a.call.content == text
  }

  /** A deletion of the document can only be one of the deletions. */
  lemma DeletionsAmong(before: seq<Action>, deleting: Snapshot, deletes: seq<Action>, after: seq<Action>,
                       deleted: Snapshot, m: Manifest)
    requires NoDeletes(before) && NoDeletes(after)
    ensures var done := before + [Put(deleting)] + deletes + after + [Put(deleted)];
            (exists k :: 0 <= k < |done| && IsDeletionOf(done[k], m.name, m.content))
            <==> exists k :: 0 <= k < |deletes| && DeletesText(deletes[k], Document(m))
  {
    var done := before + [Put(deleting)] + deletes + after + [Put(deleted)];
    var shift := |before| + 1;
    assert forall k :: 0 <= k < |deletes| ==> done[shift + k] == deletes[k];
    assert forall k :: 0 <= k < |before| ==> !IsDeletionOf(before[k], m.name, m.content) && done[k] == before[k];
    forall k | shift + |deletes| <= k < |done| ensures !IsDeletionOf(done[k], m.name, m.content) {
      assert done[k] == (after + [Put(deleted)])[k - shift - |deletes|];
    }
    if k :| 0 <= k < |done| && IsDeletionOf(done[k], m.name, m.content) {
      assert shift <= k < shift + |deletes|;
      assert DeletesText(deletes[k - shift], Document(m));
    }
    if k :| 0 <= k < |deletes| && DeletesText(deletes[k], Document(m)) {
      assert IsDeletionOf(done[shift + k], m.name, m.content);
    }
  }

  lemma DeletedDocuments(deletes: seq<Action>, docs: seq<string>, doc: string)
    requires forall k :: 0 <= k < |deletes| ==> IsDelete(deletes[k])
    requires multiset(Conservation.Deleted(deletes)) == multiset(docs)
    ensures (exists k :: 0 <= k < |deletes| && DeletesText(deletes[k], doc)) <==> doc in docs
  {
    var texts := Conservation.Deleted(deletes);
    assert doc in docs <==> doc in multiset(docs);
    assert doc in texts <==> doc in multiset(texts);
    hide Conservation.Deleted;
    if doc in texts {
      var k :| 0 <= k < |texts| && texts[k] == doc;
      assert IsDelete(deletes[k]) && DeletesText(deletes[k], doc);
    }
    if k :| 0 <= k < |deletes| && DeletesText(deletes[k], doc) { assert texts[k] == doc; }
  }

  /** The document is among those of the manifests without a policy exactly if its own manifest has none. */
  lemma DocumentsSelected(parse: Parser, ms: seq<Manifest>, m: Manifest)
    requires m in ms && forall x :: x in ms ==> parse(Document(x)) == Some(x.head)
    ensures Document(m) in Documents(Select(ms, Unannotated)) <==> !HasPolicy(m)
  {
    hide Document, Select;
    SelectedMean(ms);
    var chosen := Select(ms, Unannotated);
    if m in chosen {
      var k :| 0 <= k < |chosen| && chosen[k] == m;
      assert Documents(chosen)[k] == Document(m);
    }
    if Document(m) in Documents(chosen) {
      var k :| 0 <= k < |chosen| && Documents(chosen)[k] == Document(m);
      assert chosen[k] in chosen && chosen[k].head == m.head;
    }
  }
}
