/**
  Releases of a single manifest, from their install to their deletion where everything is granted: they
  meet every condition under which conservation is proved, so these conditions can be met.
*/
module Specimen {
  import opened Wrappers
  import opened GoStrings
  import opened ReleaseKey
  import opened ReleaseName
  import opened Hapi
  import opened Worlds
  import opened KindSorter
  import opened Manifests
  import opened ManifestBlob
  import opened Lifecycle
  import opened HookLaws
  import opened HandlerLaws
  import opened Conservation
  import Server = ReleaseServer

  const HEAD := Head("v1", "Service", None)
  const APIS := {"v1"}

  /** A file that is a manifest: no partial, no notes, not blank, and clean. */
  ghost predicate Plain(file: string, content: string) {
    && file != "" && file[0] != '_' && '/' !in file && '\n' !in file
    && !HasSuffix(file, Server.NOTES_FILE_SUFFIX)
    && content != "" && !IsSpace(content[0])
    && !Contains("\n" + content + "\n---", SEP)
  }

  function Service(file: string, content: string): Manifest {
    Manifest(file, content, HEAD)
  }

  function Files(file: string, content: string): map<string, string> {
    map[file := content]
  }

  /** Every document has the same head, every chart renders to the same file, everything is granted. */
  function Granting(file: string, content: string): Env {
    Env("ns", (_, _) => true, _ => NoGroups, (_, _, _) => Some(Files(file, content)), _ => Some(HEAD), (_, _) => 1,
        _ => None)
  }

  function RenderingOf(file: string, content: string): Rendering {
    Rendering([Asked(Discover, true)], Ok(Rendered([], Blob([Service(file, content)]), "")))
  }

  /** An object to install with a valid name and a chart, without hooks and not for purging. */
  predicate IsNew(rel: Snapshot) {
    && MatchString(rel.name)
    && rel.spec.chart.Some? && rel.spec.chart.value.templates != []
    && rel.spec.disableHooks && !rel.spec.purge && !rel.spec.dryRun
  }

  function Listing(file: string, content: string): Result<seq<Manifest>, Error> {
    Ok([Recovered(Service(file, content), 0)])
  }

  // ---------- the file is a generic manifest ----------

  lemma FileIsGeneric(file: string, content: string)
    requires Plain(file, content)
    ensures Place(Granting(file, content).head, APIS, file, content) == Generic(Service(file, content))
  {
    BaseOfOneElement(file);
    VisibleNotBlank(content, 0);
    hide PathBase, TrimSpace;
    assert "_"[0] == '_';
  }

  lemma FilesAreClassified(file: string, content: string)
    requires Plain(file, content)
    ensures Classified(Granting(file, content).head, APIS, Files(file, content), [], [Service(file, content)])
  {
    FileIsGeneric(file, content);
    hide Place, Plain;
  }

  lemma NoNotes(file: string, content: string, chart: Chart)
    requires Plain(file, content)
    ensures Server.WithoutNotes(Files(file, content)) == Files(file, content)
    ensures Server.NotesOf(chart, Files(file, content)) == ""
  {
    Server.OwnNotesAreNotes(chart);
  }

  lemma IsRendered(file: string, content: string, w: World, chart: Chart, config: string, options: Options)
    requires Plain(file, content)
    ensures Server.RenderingOf(Granting(file, content), w, chart, config, options, RenderingOf(file, content))
  {
    NoNotes(file, content, chart);
    FilesAreClassified(file, content);
    hide Server.WithoutNotes, Server.NotesOf, Classified, Blob, Plain;
    assert Server.Serves(NoGroups, APIS) && Ordered(INSTALL_ORDER, [Service(file, content)]);
    assert Server.RenderingSucceeds(Granting(file, content), NoGroups, Files(file, content), [],
                                    Blob([Service(file, content)]));
  }

  lemma FilesAreClean(file: string, content: string)
    requires Plain(file, content)
    ensures CleanFiles(Granting(file, content), NoGroups, Files(file, content))
    ensures SkipsSource(Granting(file, content).head)
  {
    hide Contains, Place;
    var head := Granting(file, content).head;
    assert forall m: Manifest :: head(Document(m)) == Some(HEAD) == head(m.content);
  }

  // ---------- its record is taken apart again ----------

  lemma IsRecorded(file: string, content: string)
    requires Plain(file, content)
    ensures Recorded(Granting(file, content).head, APIS, [Service(file, content)]) && Separate([Service(file, content)])
  {
    CleanContentsAreSeparate([Service(file, content)]);
    hide Separate, Contains, Document;
  }

  function PiecesOf(m: Manifest): map<string, string> {
    map[PieceName(0) := "", PieceName(1) := Document(m)]
  }

  lemma PiecesAreNamed(m: Manifest)
    requires Separate([m])
    ensures PieceName(0) != PieceName(1)
    ensures NamesPieces(PiecesOf(m), Split(Blob([m]), SEP))
  {
    hide PieceName, Document, Split, Blob, Separate;
    SplitBlob([m]);
    if PieceName(0) == PieceName(1) { PieceNamesDiffer(0, 1); }
    assert [""] + Documents([m]) == ["", Document(m)];
  }

  lemma PiecesAreClassified(parse: Parser, m: Manifest)
    requires Recorded(parse, APIS, [m]) && PieceName(0) != PieceName(1)
    ensures Classified(parse, APIS, PiecesOf(m), [], [Recovered(m, 0)])
  {
    PlaceOfPiece(parse, APIS, [m], 0);
    PlaceOfPiece(parse, APIS, [m], 1);
    hide Place, PieceName, Document, Classified, Recorded;
    assert ([""] + Documents([m]))[0] == "" && ([""] + Documents([m]))[1] == Document(m);
    OneOfTwo(parse, APIS, PieceName(0), PieceName(1), Document(m), Recovered(m, 0));
  }

  lemma OneOfTwo(parse: Parser, apis: set<string>, a: string, b: string, content: string, m: Manifest)
    requires a != b && m.name == b
    requires Place(parse, apis, a, "") == Skipped && Place(parse, apis, b, content) == Generic(m)
    ensures Classified(parse, apis, map[a := "", b := content], [], [m])
  {
    hide Place;
  }

  lemma ListsPieces(env: Env, groups: Groups, manifest: string, listing: seq<Manifest>, apis: set<string>,
                    pieces: map<string, string>, hooks: seq<Hook>)
    requires Server.Serves(groups, apis) && NamesPieces(pieces, Split(manifest, SEP))
    requires Classified(env.head, apis, pieces, hooks, listing) && Ordered(UNINSTALL_ORDER, listing)
    ensures Server.ListingOf(env, groups, manifest, Ok(listing))
  {
    hide Classified, NamesPieces, Ordered, Server.Serves, Split;
  }

  lemma ListsService(file: string, content: string)
    requires Plain(file, content)
    ensures Server.ListingOf(Granting(file, content), NoGroups, Blob([Service(file, content)]), Listing(file, content))
  {
    hide Plain, Recorded, Separate, Server.ListingOf, Blob, Recovered;
    IsRecorded(file, content);
    ListsRecorded(Granting(file, content), Service(file, content));
  }

  lemma ListsRecorded(env: Env, m: Manifest)
    requires Recorded(env.head, APIS, [m]) && Separate([m])
    ensures Server.ListingOf(env, NoGroups, Blob([m]), Ok([Recovered(m, 0)]))
  {
    hide Blob, Split, PieceName, Document, Classified, NamesPieces, Server.ListingOf, Recovered, Recorded, Separate,
         PiecesOf;
    PiecesAreNamed(m);
    PiecesAreClassified(env.head, m);
    ListsPieces(env, NoGroups, Blob([m]), [Recovered(m, 0)], APIS, PiecesOf(m), []);
  }

  lemma IsListed(file: string, content: string, w: World, newest: Snapshot)
    requires Plain(file, content) && newest.spec.manifest == Blob([Service(file, content)]) && newest.spec.disableHooks
    ensures Server.ReadForUninstall(Granting(file, content), w, newest, Listing(file, content))
    ensures !StopsEarly(Granting(file, content), w, newest)
  {
    ListsService(file, content);
    hide Server.ListingOf, Blob, Recovered, Plain;
  }

  // ---------- install and uninstall ----------

  lemma IsInstalled(file: string, content: string, w: World, rel: Snapshot)
    requires Plain(file, content) && IsNew(rel)
    ensures Server.ReadForInstall(Granting(file, content), w, rel, RenderingOf(file, content))
    ensures var o := InstallRelease(Granting(file, content), w, rel, RenderingOf(file, content));
            && Create(o.rel) in Done(w, o)
            && o.rel.name == rel.name && o.rel.namespace == rel.namespace
            && o.rel.spec.manifest == Blob([Service(file, content)])
            && o.rel.spec.disableHooks && !o.rel.spec.purge
  {
    var env, rendering := Granting(file, content), RenderingOf(file, content);
    var config := DefaultConfig(rel).spec.config.value;
    IsRendered(file, content, w, rel.spec.chart.value, config, Options(rel.name, rel.namespace, 1, false));
    hide Server.RenderingOf, Blob, Plain, MatchString;
    var o := InstallRelease(env, w, rel, rendering);
    var n := |o.world.log|;
    assert |w.log| < n && o.world.log[n - 1] == Create(o.rel);
    assert Done(w, o)[n - 1 - |w.log|] == Create(o.rel);
  }

  lemma OnlyService(file: string, content: string, w: World, apis: set<string>, ms: seq<Manifest>)
    requires Plain(file, content)
    requires Recordable(Granting(file, content), w, Files(file, content), RenderingOf(file, content).result.value,
                        apis, ms)
    ensures ms == [Service(file, content)]
  {
    FilesAreClassified(file, content);
    hide Classified, Blob, Plain;
    assert apis == APIS;
    OrderOfFilesIsIrrelevant(Granting(file, content).head, APIS, Files(file, content), [], ms, [],
                             [Service(file, content)]);
    assert |ms| == |multiset(ms)| == |multiset([Service(file, content)])| == 1;
    assert ms[0] in multiset([Service(file, content)]);
  }

  lemma RenderedFilesAre(file: string, content: string, chart: Chart, config: string, options: Options)
    requires Plain(file, content)
    ensures RenderedFiles(Granting(file, content), chart, config, options) == Files(file, content)
  {
    NoNotes(file, content, chart);
    hide Server.WithoutNotes, Plain;
  }

  lemma OneRevision(ns: string, before: Store, later: Store, rel: Snapshot)
    requires rel.spec.version >= 0 && forall v: int32 :: Id(rel.name, v) !in before
    requires Untouched(before[IdOf(rel) := RecordOf(rel)], later, rel.name)
    ensures IsHistory(ns, later, rel.name, [Archived(ns, rel)])
  {
    var rels := [Archived(ns, rel)];
    assert rels[0].spec.version == rel.spec.version;
    forall v | Id(rel.name, v) in later
      ensures exists i :: 0 <= i < |rels| && rels[i].spec.version == v
    {
    }
  }

  lemma GetsThere(file: string, content: string, w: World, later: World, newest: Snapshot)
    requires Plain(file, content) && newest.spec.manifest == Blob([Service(file, content)]) && newest.spec.disableHooks
    ensures GetsToDelete(Granting(file, content), Granting(file, content).groups(w.log), later, newest,
                         Listing(file, content))
  {
    IsListed(file, content, later, newest);
    hide Plain, Blob, Server.ReadForUninstall, StopsEarly, Listing;
  }

  /**
    Install such a release, and uninstall it in any later world that kept its revision: its only document is
    deleted.
  */
  lemma ServiceIsDeleted(file: string, content: string, w: World, rel: Snapshot, later: World)
    requires Plain(file, content) && IsNew(rel) && forall v: int32 :: Id(rel.name, v) !in w.store
    requires Untouched(InstallRelease(Granting(file, content), w, rel, RenderingOf(file, content)).world.store,
                       later.store, rel.name)
    ensures var env := Granting(file, content);
            var newest := Archived("ns", InstallRelease(env, w, rel, RenderingOf(file, content)).rel);
            DeletedExactly(env.head, later, newest, UninstallRelease(env, later, rel, [newest], Listing(file, content)),
                           [Document(Service(file, content))])
  {
    hide InstallRelease, UninstallRelease, Server.ReadForInstall, Blob, Document, MatchString, CleanFiles, SkipsSource,
         Recordable, DeletedExactly, Plain, Done, GetsToDelete, RenderedFiles, Listing, RenderingOf, Granting, Files;
    var env, m, rendering := Granting(file, content), Service(file, content), RenderingOf(file, content);
    var o := InstallRelease(env, w, rel, rendering);
    var newest := Archived("ns", o.rel);
    var chart, config, options :=
      rel.spec.chart.value, DefaultConfig(rel).spec.config.value, Options(rel.name, rel.namespace, 1, false);
    IsInstalled(file, content, w, rel);
    GetsThere(file, content, w, later, newest);
    FilesAreClean(file, content);
    RenderedFilesAre(file, content, chart, config, options);
    RecordedByInstall(env, w, rel, rendering);
    OneRevision("ns", w.store, later.store, o.rel);
    GrantsAll(file, content, w);
    var apis, ms := InstallThenUninstall(env, w, rel, rendering, later, rel, [newest], Listing(file, content));
    OnlyService(file, content, w, apis, ms);
    assert Documents(Select([m], Unannotated)) == [Document(m)];
  }

  lemma GrantsAll(file: string, content: string, w: World)
    ensures Granting(file, content).namespace == "ns" && Granting(file, content).groups(w.log) == NoGroups
  {
  }
}
