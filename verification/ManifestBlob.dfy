/**
  The recorded manifest: how install writes it, how uninstall takes it apart, which of its
  documents uninstall deletes, and why these are exactly the ones install recorded.
*/
module ManifestBlob {
  import opened Wrappers
  import opened GoStrings
  import opened Hapi
  import opened KindSorter
  import opened Sequences
  import opened Manifests

  const SEP := "\n---\n"

  // ---------- aggregation ----------

  function Document(m: Manifest): string {
    "# Source: " + m.name + "\n" + m.content
  }

  function Documents(ms: seq<Manifest>): (docs: seq<string>)
    ensures |docs| == |ms|
    ensures forall i :: 0 <= i < |ms| ==> docs[i] == Document(ms[i])
  {
    if ms == [] then [] else Documents(ms[..|ms| - 1]) + [Document(ms[|ms| - 1])]
  }

  /** The buffer after all manifests are written; every document has a separator in front. */
  function Blob(ms: seq<Manifest>): string {
    if ms == [] then "" else Blob(ms[..|ms| - 1]) + SEP + Document(ms[|ms| - 1])
  }

  lemma Written(b: string, m: Manifest)
    ensures b + ("\n---\n# Source: " + m.name + "\n") + m.content == b + SEP + Document(m)
  {
    var line, rest := "# Source: ", m.name + "\n";
    assert "\n---\n# Source: " == SEP + line;
    assert line + m.name + "\n" == line + rest;
    assert b + (SEP + line + m.name + "\n") + m.content == b + SEP + (line + m.name + "\n" + m.content);
  }

  method Aggregate(ms: seq<Manifest>) returns (b: string)
    ensures b == Blob(ms)
  {
    b := "";
    for i := 0 to |ms|
      invariant b == Blob(ms[..i])
    {
      assert ms[..i + 1][..i] == ms[..i];
      Written(b, ms[i]);
      b := b + ("\n---\n# Source: " + ms[i].name + "\n");
      b := b + ms[i].content;
    }
    assert ms[..|ms|] == ms;
  }

  lemma {:induction false} BlobIsJoin(ms: seq<Manifest>)
    ensures Blob(ms) == Join([""] + Documents(ms), SEP)
    decreases |ms|
  {
    if ms != [] {
      var init, last := ms[..|ms| - 1], ms[|ms| - 1];
      BlobIsJoin(init);
      JoinSnoc([""] + Documents(init), Document(last), SEP);
      assert [""] + Documents(ms) == [""] + Documents(init) + [Document(last)];
    }
  }

  /** A document that can be followed by a separator without being cut too early. */
  ghost predicate Intact(doc: string) {
    !Contains(doc + "\n---", SEP)
  }

  lemma IntactMeansCutsBehind(doc: string)
    ensures Intact(doc) <==> CutsBehind(doc, SEP)
  {
    assert SEP == "\n---" + "\n";
    var short, long := doc + "\n---", doc + SEP;
    forall j: int
      ensures OccursAt(short, SEP, j) <==> 0 <= j < |doc| && OccursAt(long, SEP, j)
    {
      if 0 <= j < |doc| {
        assert short[j..j + |SEP|] == long[j..j + |SEP|];
      }
    }
  }

  /** All documents but the last are followed by a separator; the last need only not contain one. */
  ghost predicate Separate(ms: seq<Manifest>) {
    && (forall i :: 0 <= i < |ms| - 1 ==> Intact(Document(ms[i])))
    && (ms != [] ==> !Contains(Document(ms[|ms| - 1]), SEP))
  }

  /** Splitting the blob gives the empty piece and the documents exactly when they are separate. */
  lemma SplitBlob(ms: seq<Manifest>)
    ensures Split(Blob(ms), SEP) == [""] + Documents(ms) <==> Separate(ms)
  {
    var pieces := [""] + Documents(ms);
    BlobIsJoin(ms);
    SplitUndoesJoin(pieces, SEP);
    forall i | 0 <= i < |ms|
      ensures pieces[i + 1] == Document(ms[i]) && (CutsBehind(pieces[i + 1], SEP) <==> Intact(Document(ms[i])))
    {
      IntactMeansCutsBehind(Document(ms[i]));
    }
    assert CutsBehind(pieces[0], SEP);
    if ms == [] {
      assert Index("", SEP) == -1;
    } else {
      assert Separable(pieces, SEP) ==> Separate(ms) by {
        if Separable(pieces, SEP) {
          forall i | 0 <= i < |ms| - 1 ensures Intact(Document(ms[i])) {
            assert CutsBehind(pieces[i + 1], SEP);
          }
        }
      }
      assert Separate(ms) ==> Separable(pieces, SEP) by {
        if Separate(ms) {
          forall k | 0 <= k < |pieces| - 1 ensures CutsBehind(pieces[k], SEP) {
            if k > 0 { assert Intact(Document(ms[k - 1])); }
          }
        }
      }
    }
  }

  /** For a name on one line, only the content decides whether a document is intact. */
  lemma OnlyContentMatters(m: Manifest, rest: string)
    requires '\n' !in m.name
    ensures Contains(Document(m) + rest, SEP) <==> Contains("\n" + m.content + rest, SEP)
  {
    var front, tail := "# Source: " + m.name, "\n" + m.content + rest;
    assert Document(m) + rest == front + tail;
    assert '\n' !in front && SEP[0] == '\n';
    SkipFront(front, tail, SEP);
  }

  /** A front without the separator's first character cannot take part in an occurrence. */
  lemma SkipFront(front: string, tail: string, sep: string)
    requires sep != "" && sep[0] !in front
    ensures Contains(front + tail, sep) <==> Contains(tail, sep)
  {
    var all := front + tail;
    if j :| OccursAt(all, sep, j) {
      assert all[j] == sep[0];
      assert tail[j - |front|..j - |front| + |sep|] == all[j..j + |sep|];
      assert OccursAt(tail, sep, j - |front|);
    }
    if j :| OccursAt(tail, sep, j) {
      assert all[j + |front|..j + |front| + |sep|] == tail[j..j + |sep|];
      assert OccursAt(all, sep, j + |front|);
    }
  }

  /** A sufficient condition on names and contents alone. */
  lemma CleanContentsAreSeparate(ms: seq<Manifest>)
    requires forall i :: 0 <= i < |ms| ==> '\n' !in ms[i].name && !Contains("\n" + ms[i].content + "\n---", SEP)
    ensures Separate(ms)
  {
    forall i | 0 <= i < |ms|
      ensures Intact(Document(ms[i])) && !Contains(Document(ms[i]), SEP)
    {
      OnlyContentMatters(ms[i], "\n---");
      var doc := Document(ms[i]);
      if j :| OccursAt(doc, SEP, j) {
        assert (doc + "\n---")[j..j + |SEP|] == doc[j..j + |SEP|];
        assert OccursAt(doc + "\n---", SEP, j);
      }
    }
  }

  // ---------- splitting ----------

  function PieceName(i: nat): string {
    "manifest-" + Itoa(i)
  }

  /** The map of pieces under generated names: no two pieces share one. */
  ghost predicate NamesPieces(files: map<string, string>, pieces: seq<string>) {
    && (forall i: nat :: i < |pieces| ==> PieceName(i) in files && files[PieceName(i)] == pieces[i])
    && (forall n :: n in files ==> exists i: nat :: i < |pieces| && n == PieceName(i))
  }

  lemma PiecesSpelledOut(files: map<string, string>, pieces: seq<string>)
    requires NamesPieces(files, pieces)
    ensures forall i: nat :: i < |pieces| ==>
              "manifest-" + Itoa(i) in files && files["manifest-" + Itoa(i)] == pieces[i]
  {
    hide Itoa;
    forall i: nat | i < |pieces|
      ensures "manifest-" + Itoa(i) in files && files["manifest-" + Itoa(i)] == pieces[i]
    {
      assert PieceName(i) == "manifest-" + Itoa(i);
    }
  }

  lemma PieceNamesDiffer(i: nat, j: nat)
    requires PieceName(i) == PieceName(j)
    ensures i == j
  {
    hide Digits;
    assert PieceName(i)[|"manifest-"|..] == Digits(i);
    assert PieceName(j)[|"manifest-"|..] == Digits(j);
    DigitsInjective(i, j);
  }

  method SplitManifests(bigfile: string) returns (res: map<string, string>)
    ensures NamesPieces(res, Split(bigfile, SEP))
    ensures var pieces := Split(bigfile, "\n---\n");
            && |res| == |pieces|
            && forall i: nat :: i < |pieces| ==> "manifest-" + Itoa(i) in res && res["manifest-" + Itoa(i)] == pieces[i]
  {
    hide PieceName, Itoa, Split;
    res := map[];
    var tmp := Split(bigfile, SEP);
    for i := 0 to |tmp|
      invariant NamesPieces(res, tmp[..i])
    {
      forall j: nat | j < i ensures PieceName(j) != PieceName(i) {
        if PieceName(j) == PieceName(i) { PieceNamesDiffer(j, i); }
      }
      res := res[PieceName(i) := tmp[i]];
    }
    assert tmp[..|tmp|] == tmp;
    PiecesSpelledOut(res, tmp);
    CountNames(res, tmp);
  }

  /** Nothing is lost: the pieces in index order joined by the separator give back the input. */
  lemma SplitManifestsLossless(bigfile: string, files: map<string, string>)
    requires NamesPieces(files, Split(bigfile, SEP))
    ensures var n := |Split(bigfile, SEP)|;
            && |files| == n
            && (forall i: nat :: i < n ==> PieceName(i) in files)
            && Join(seq(n, i requires 0 <= i < n => files[PieceName(i)]), SEP) == bigfile
    ensures forall k :: k in files ==> !Contains(files[k], SEP)
  {
    hide PieceName;
    var pieces := Split(bigfile, SEP);
    SplitLossless(bigfile, SEP);
    assert seq(|pieces|, i requires 0 <= i < |pieces| => files[PieceName(i)]) == pieces;
    CountNames(files, pieces);
  }

  lemma {:induction false} CountNames(files: map<string, string>, pieces: seq<string>)
    requires NamesPieces(files, pieces)
    ensures |files| == |pieces|
    decreases |pieces|
  {
    hide PieceName;
    if pieces == [] {
      assert files == map[];
    } else {
      var n := |pieces| - 1;
      var fewer := files - {PieceName(n)};
      forall i: nat | i < n ensures PieceName(i) != PieceName(n) {
        if PieceName(i) == PieceName(n) { PieceNamesDiffer(i, n); }
      }
      forall k | k in fewer ensures exists i: nat :: i < n && k == PieceName(i) {
        var i: nat :| i < |pieces| && k == PieceName(i);
      }
      CountNames(fewer, pieces[..n]);
      assert fewer.Keys == files.Keys - {PieceName(n)};
      assert |fewer.Keys| == |fewer| && |files.Keys| == |files|;
    }
  }

  // ---------- resource policy ----------

  /** What the policy annotation makes of a manifest on uninstall. */
  datatype Policy = Unannotated | KeepIt | OtherPolicy

  function PolicyOf(m: Manifest): Policy {
    if RESOURCE_POLICY_ANNO !in m.head.Annotations() then Unannotated
    else if ToLower(TrimSpace(m.head.Annotations()[RESOURCE_POLICY_ANNO])) == KEEP_POLICY then KeepIt
    else OtherPolicy
  }

  predicate Annotated(m: Manifest, key: string) {
    m.head.metadata.Some? && key in m.head.metadata.value.annotations
  }

  /** The manifest carries a resource policy, of whatever value. */
  predicate HasPolicy(m: Manifest) {
    Annotated(m, "helm.sh/resource-policy")
  }

  /** Its resource policy is the word keep. */
  ghost predicate SaysKeep(m: Manifest) {
    HasPolicy(m) && Spells(m.head.metadata.value.annotations["helm.sh/resource-policy"], "keep")
  }

  lemma PolicyMeans(m: Manifest)
    ensures PolicyOf(m) == Unannotated <==> !HasPolicy(m)
    ensures PolicyOf(m) == KeepIt <==> SaysKeep(m)
  {
    hide ToLower, TrimSpace, Spells;
    KeepIsPlain();
    if HasPolicy(m) { SpellingIsTrimming(m.head.metadata.value.annotations["helm.sh/resource-policy"], "keep"); }
  }

  lemma KeepIsPlain()
    ensures IsPlainName("keep")
  {
  }

  /** The subsequence of manifests with a given policy. */
  function Select(ms: seq<Manifest>, policy: Policy): seq<Manifest> {
    if ms == [] then []
    else
      var last := ms[|ms| - 1];
      Select(ms[..|ms| - 1], policy) + if PolicyOf(last) == policy then [last] else []
  }

  method FilterManifestsToKeep(manifests: seq<Manifest>) returns (keep: seq<Manifest>, remaining: seq<Manifest>)
    ensures keep == Select(manifests, KeepIt)
    ensures remaining == Select(manifests, Unannotated)
    ensures forall m :: m in keep <==> m in manifests && SaysKeep(m)
    ensures forall m :: m in remaining <==> m in manifests && !HasPolicy(m)
  {
    remaining, keep := [], [];
    for i := 0 to |manifests|
      invariant keep == Select(manifests[..i], KeepIt)
      invariant remaining == Select(manifests[..i], Unannotated)
    {
      assert manifests[..i + 1][..i] == manifests[..i];
      var m := manifests[i];
      if m.head.metadata.None? || |m.head.metadata.value.annotations| == 0 {
        remaining := remaining + [m];
        continue;
      }
      if RESOURCE_POLICY_ANNO !in m.head.metadata.value.annotations {
        remaining := remaining + [m];
        continue;
      }
      var resourcePolicyType := ToLower(TrimSpace(m.head.metadata.value.annotations[RESOURCE_POLICY_ANNO]));
      if resourcePolicyType == KEEP_POLICY {
        keep := keep + [m];
      }
    }
    assert manifests[..|manifests|] == manifests;
    SelectedMean(manifests);
  }

  lemma SelectedMean(ms: seq<Manifest>)
    ensures forall m :: m in Select(ms, KeepIt) <==> m in ms && SaysKeep(m)
    ensures forall m :: m in Select(ms, Unannotated) <==> m in ms && !HasPolicy(m)
  {
    SelectedHavePolicy(ms, KeepIt);
    SelectedHavePolicy(ms, Unannotated);
    hide PolicyOf, Select, SaysKeep, HasPolicy;
    forall m | m in ms
      ensures PolicyOf(m) == Unannotated <==> !HasPolicy(m)
      ensures PolicyOf(m) == KeepIt <==> SaysKeep(m)
    {
      PolicyMeans(m);
    }
  }

  /** The filter's two results and the manifests in neither make up the input, each counted once. */
  lemma {:induction false} PoliciesPartition(ms: seq<Manifest>)
    ensures multiset(ms) == multiset(Select(ms, Unannotated)) + multiset(Select(ms, KeepIt))
            + multiset(Select(ms, OtherPolicy))
    ensures |ms| == |Select(ms, Unannotated)| + |Select(ms, KeepIt)| + |Select(ms, OtherPolicy)|
    decreases |ms|
  {
    hide PolicyOf, Select;
    if ms == [] {
      NothingSelected();
    } else {
      var init, last := ms[..|ms| - 1], ms[|ms| - 1];
      PoliciesPartition(init);
      assert ms == init + [last];
      SelectSnoc(init, last, Unannotated);
      SelectSnoc(init, last, KeepIt);
      SelectSnoc(init, last, OtherPolicy);
    }
  }

  lemma NothingSelected()
    ensures forall policy :: Select([], policy) == []
  {
  }

  lemma SelectSnoc(init: seq<Manifest>, last: Manifest, policy: Policy)
    ensures multiset(Select(init + [last], policy))
            == multiset(Select(init, policy)) + if PolicyOf(last) == policy then multiset{last} else multiset{}
    ensures |Select(init + [last], policy)| == |Select(init, policy)| + if PolicyOf(last) == policy then 1 else 0
  {
    hide PolicyOf;
    assert (init + [last])[..|init|] == init;
  }

  /** Selecting keeps the order: it commutes with cutting the list anywhere. */
  lemma {:induction false} SelectDistributes(a: seq<Manifest>, b: seq<Manifest>, policy: Policy)
    ensures Select(a + b, policy) == Select(a, policy) + Select(b, policy)
    decreases |b|
  {
    hide PolicyOf;
    if b == [] {
      assert a + b == a;
    } else {
      var n := |b| - 1;
      assert (a + b)[..|a + b| - 1] == a + b[..n];
      SelectDistributes(a, b[..n], policy);
    }
  }

  lemma {:induction false} SelectedHavePolicy(ms: seq<Manifest>, policy: Policy)
    ensures forall m :: m in Select(ms, policy) <==> m in ms && PolicyOf(m) == policy
    decreases |ms|
  {
    hide PolicyOf;
    if ms != [] {
      SelectedHavePolicy(ms[..|ms| - 1], policy);
      assert ms == ms[..|ms| - 1] + [ms[|ms| - 1]];
    }
  }

  lemma {:induction false} SelectedStayOrdered(order: SortOrder, ms: seq<Manifest>, policy: Policy)
    requires Ordered(order, ms)
    ensures Ordered(order, Select(ms, policy))
    decreases |ms|
  {
    hide PolicyOf, KindRank;
    if ms != [] {
      var init, last := ms[..|ms| - 1], ms[|ms| - 1];
      SelectedStayOrdered(order, init, policy);
      SelectedHavePolicy(init, policy);
      forall i | 0 <= i < |Select(init, policy)|
        ensures KindRank(order, Select(init, policy)[i]) <= KindRank(order, last)
      {
        assert Select(init, policy)[i] in init;
      }
    }
  }

  // ---------- conservation ----------

  function Contents(ms: seq<Manifest>): (cs: seq<string>)
    ensures |cs| == |ms|
    ensures forall i :: 0 <= i < |ms| ==> cs[i] == ms[i].content
  {
    if ms == [] then [] else Contents(ms[..|ms| - 1]) + [ms[|ms| - 1].content]
  }

  /** What an install records: generic manifests that parse, name a served version and are no hooks. */
  ghost predicate Recorded(parse: Parser, apis: set<string>, ms: seq<Manifest>) {
    forall m :: m in ms ==>
      && HOOK_ANNO !in m.head.Annotations()
      && (m.head.version == "" || m.head.version in apis)
      && parse(Document(m)) == Some(m.head)
  }

  /** The i-th recorded manifest as uninstall will meet it again. */
  function Recovered(m: Manifest, i: nat): Manifest {
    Manifest(PieceName(i + 1), Document(m), m.head)
  }

  function AllRecovered(ms: seq<Manifest>): (rs: seq<Manifest>)
    ensures |rs| == |ms|
    ensures forall i :: 0 <= i < |ms| ==> rs[i] == Recovered(ms[i], i)
  {
    if ms == [] then []
    else AllRecovered(ms[..|ms| - 1]) + [Recovered(ms[|ms| - 1], |ms| - 1)]
  }

  lemma PieceIsNoPartial(i: nat)
    ensures !IsPartial(PieceName(i))
  {
    hide Digits, PathBase;
    var d := Digits(i);
    assert forall k :: 0 <= k < |d| ==> IsDigit(d[k]) && d[k] != '/';
    BaseOfOneElement(PieceName(i));
    assert PieceName(i)[0] == 'm' && "_"[0] == '_';
  }

  lemma DocumentIsVisible(m: Manifest)
    ensures TrimSpace(Document(m)) != ""
  {
    assert Document(m)[0] == '#';
    VisibleNotBlank(Document(m), 0);
  }

  /** Every document is met again as the generic manifest it was, under a generated name. */
  lemma PlaceOfPiece(parse: Parser, apis: set<string>, ms: seq<Manifest>, i: nat)
    requires Recorded(parse, apis, ms) && i <= |ms|
    ensures var pieces := [""] + Documents(ms);
            Place(parse, apis, PieceName(i), pieces[i]) == PlaceOf(ms, i)
  {
    PieceIsNoPartial(i);
    hide PieceName, Document, IsPartial;
    if i > 0 {
      assert ms[i - 1] in ms;
      DocumentIsVisible(ms[i - 1]);
    }
  }

  /** Uninstall rebuilds exactly the recorded manifests, whatever order it visits the pieces in. */
  lemma UninstallRecovers(parse: Parser, apis: set<string>, ms: seq<Manifest>, files: map<string, string>,
                          hooks: seq<Hook>, generic: seq<Manifest>)
    requires Recorded(parse, apis, ms) && Separate(ms)
    requires NamesPieces(files, Split(Blob(ms), SEP))
    requires Classified(parse, apis, files, hooks, generic)
    ensures hooks == []
    ensures multiset(generic) == multiset(AllRecovered(ms))
  {
    PiecesArePlaced(parse, apis, ms, files);
    NoHooksRecovered(parse, apis, ms, files, hooks);
    RecoveredMembers(parse, apis, ms, files, generic);
    RecoveredDiffer(ms);
    SameListings(generic, AllRecovered(ms));
  }

  /** The files are the pieces, each ending up where it should. */
  ghost predicate PiecesPlaced(parse: Parser, apis: set<string>, ms: seq<Manifest>, files: map<string, string>) {
    && (forall n :: n in files ==> exists i: nat :: i <= |ms| && n == PieceName(i))
    && (forall i: nat :: i <= |ms| ==>
          PieceName(i) in files && Place(parse, apis, PieceName(i), files[PieceName(i)]) == PlaceOf(ms, i))
  }

  lemma PiecesArePlaced(parse: Parser, apis: set<string>, ms: seq<Manifest>, files: map<string, string>)
    requires Recorded(parse, apis, ms) && Separate(ms)
    requires NamesPieces(files, Split(Blob(ms), SEP))
    ensures PiecesPlaced(parse, apis, ms, files)
  {
    hide PieceName, Document, Place;
    SplitBlob(ms);
    forall i: nat | i <= |ms|
      ensures PieceName(i) in files
      ensures Place(parse, apis, PieceName(i), files[PieceName(i)]) == PlaceOf(ms, i)
    {
      PlaceOfPiece(parse, apis, ms, i);
    }
  }

  lemma NoHooksRecovered(parse: Parser, apis: set<string>, ms: seq<Manifest>, files: map<string, string>,
                         hooks: seq<Hook>)
    requires PiecesPlaced(parse, apis, ms, files)
    requires forall h :: h in hooks <==> h.path in files && Place(parse, apis, h.path, files[h.path]) == Hooked(h)
    ensures hooks == []
  {
    hide PieceName, Document, Place;
    assert forall h :: h !in hooks;
    if hooks != [] { FirstIsMember(hooks); }
  }

  /** Where the i-th piece ends up. */
  function PlaceOf(ms: seq<Manifest>, i: nat): Placement
    requires i <= |ms|
  {
    if i == 0 then Skipped else Generic(Recovered(ms[i - 1], i - 1))
  }

  lemma RecoveredMembers(parse: Parser, apis: set<string>, ms: seq<Manifest>, files: map<string, string>,
                         generic: seq<Manifest>)
    requires forall m :: m in generic <==> m.name in files && Place(parse, apis, m.name, files[m.name]) == Generic(m)
    requires PiecesPlaced(parse, apis, ms, files)
    ensures forall m :: m in generic <==> m in AllRecovered(ms)
  {
    hide PieceName, Document, Place;
    var rs := AllRecovered(ms);
    forall m | m in generic
      ensures m in rs
    {
      var i: nat :| i <= |ms| && m.name == PieceName(i);
      assert PlaceOf(ms, i) == Generic(m);
      assert rs[i - 1] == m;
    }
    forall m | m in rs
      ensures m in generic
    {
      var i :| 0 <= i < |rs| && rs[i] == m;
      assert PlaceOf(ms, i + 1) == Generic(m);
    }
  }

  lemma RecoveredDiffer(ms: seq<Manifest>)
    ensures NoDuplicates(AllRecovered(ms))
  {
    hide PieceName, Document;
    var rs := AllRecovered(ms);
    forall i, j | 0 <= i < j < |rs| ensures rs[i] != rs[j] {
      if rs[i] == rs[j] { PieceNamesDiffer(i + 1, j + 1); }
    }
  }

  /** Nothing recorded can make uninstall refuse the record. */
  lemma UninstallAccepts(parse: Parser, apis: set<string>, ms: seq<Manifest>, files: map<string, string>, n: string)
    requires Recorded(parse, apis, ms) && Separate(ms)
    requires NamesPieces(files, Split(Blob(ms), SEP)) && n in files
    ensures !Place(parse, apis, n, files[n]).Rejected?
  {
    hide PieceName, Document, Place;
    PiecesArePlaced(parse, apis, ms, files);
    var i: nat :| i <= |ms| && n == PieceName(i);
  }

  /** How often each content is selected. */
  function Selection(ms: seq<Manifest>, policy: Policy): multiset<string> {
    multiset(Contents(Select(ms, policy)))
  }

  lemma SelectionDistributes(a: seq<Manifest>, b: seq<Manifest>, policy: Policy)
    ensures Selection(a + b, policy) == Selection(a, policy) + Selection(b, policy)
  {
    SelectDistributes(a, b, policy);
    ContentsDistribute(Select(a, policy), Select(b, policy));
  }

  lemma {:induction false} SelectedContents(a: seq<Manifest>, b: seq<Manifest>, policy: Policy)
    requires multiset(a) == multiset(b)
    ensures Selection(a, policy) == Selection(b, policy)
    decreases |a|
  {
    hide Selection, Select, Contents;
    if a == [] {
      assert |b| == |multiset(b)| == |multiset(a)| == 0;
      assert a == b;
    } else {
      var init, last := a[..|a| - 1], a[|a| - 1];
      assert a == init + [last];
      assert last in multiset(b);
      var j :| 0 <= j < |b| && b[j] == last;
      var front, back := b[..j], b[j + 1..];
      assert b == front + [last] + back;
      RemoveOne(init, last, b, j);
      SelectedContents(init, front + back, policy);
      SelectionDistributes(init, [last], policy);
      SelectionDistributes(front, back, policy);
      SelectionDistributes(front + [last], back, policy);
      SelectionDistributes(front, [last], policy);
    }
  }

  lemma ContentsDistribute(a: seq<Manifest>, b: seq<Manifest>)
    ensures Contents(a + b) == Contents(a) + Contents(b)
  {
  }

  lemma {:induction false} RecoveredContents(ms: seq<Manifest>, policy: Policy)
    ensures Contents(Select(AllRecovered(ms), policy)) == Documents(Select(ms, policy))
    decreases |ms|
  {
    hide Document, PieceName;
    if ms != [] {
      var init := ms[..|ms| - 1];
      RecoveredContents(init, policy);
      var rs := AllRecovered(ms);
      assert rs[..|rs| - 1] == AllRecovered(init);
    }
  }

  /**
    Conservation: the documents left for deletion are those of the recorded manifests without a
    resource policy, each exactly once, in the order of their kinds.
  */
  lemma DeletesWhatWasRecorded(parse: Parser, apis: set<string>, ms: seq<Manifest>, files: map<string, string>,
                               hooks: seq<Hook>, generic: seq<Manifest>)
    requires Recorded(parse, apis, ms) && Separate(ms)
    requires NamesPieces(files, Split(Blob(ms), SEP))
    requires Classified(parse, apis, files, hooks, generic) && Ordered(UNINSTALL_ORDER, generic)
    ensures multiset(Contents(Select(generic, Unannotated))) == multiset(Documents(Select(ms, Unannotated)))
    ensures Ordered(UNINSTALL_ORDER, Select(generic, Unannotated))
  {
    UninstallRecovers(parse, apis, ms, files, hooks, generic);
    SelectedContents(generic, AllRecovered(ms), Unannotated);
    RecoveredContents(ms, Unannotated);
    SelectedStayOrdered(UNINSTALL_ORDER, generic, Unannotated);
  }
}
