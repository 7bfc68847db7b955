/**
  From rendered files to the recorded blob and back: classification into hooks and generic
  manifests, the resource policy, aggregation and splitting.
*/
module Manifests {
  import opened Wrappers
  import opened GoStrings
  import opened Hapi
  import opened KindSorter
  import opened Sequences

  const HOOK_ANNO := "helm.sh/hook"
  const RESOURCE_POLICY_ANNO := "helm.sh/resource-policy"
  const KEEP_POLICY := "keep"

  // ---------- API versions ----------

  method NewVersionSet(apiVersions: seq<string>) returns (vs: set<string>)
    ensures forall v :: v in vs <==> v in apiVersions
  {
    vs := {};
    for i := 0 to |apiVersions|
      invariant forall v :: v in vs <==> v in apiVersions[..i]
    {
      vs := vs + {apiVersions[i]};
    }
    assert apiVersions[..|apiVersions|] == apiVersions;
  }

  // ---------- classification ----------

  /** Where one rendered file ends up. */
  datatype Placement =
    | Skipped
    | Rejected(error: Error)
    | Generic(manifest: Manifest)
    | Hooked(hook: Hook)
    | DroppedHook

  type Parser = string -> Option<Head>

  /** The tokens of a hook annotation that name an event, in their order. */
  function RecognisedEvents(tokens: seq<string>): seq<HookEvent> {
    if tokens == [] then []
    else
      var token := ToLower(TrimSpace(tokens[|tokens| - 1]));
      RecognisedEvents(tokens[..|tokens| - 1]) + if token in EVENTS then [EVENTS[token]] else []
  }

  // ---------- what a hook annotation says ----------

  /** How an annotation spells an event. */
  function EventName(e: HookEvent): string {
    match e
    case PRE_INSTALL => "pre-install"
    case POST_INSTALL => "post-install"
    case PRE_DELETE => "pre-delete"
    case POST_DELETE => "post-delete"
    case PRE_UPGRADE => "pre-upgrade"
    case POST_UPGRADE => "post-upgrade"
    case PRE_ROLLBACK => "pre-rollback"
    case POST_ROLLBACK => "post-rollback"
  }

  lemma EventNamesArePlain(e: HookEvent)
    ensures IsPlainName(EventName(e))
  {
  }

  lemma EventsByName(e: HookEvent)
    ensures EventName(e) in EVENTS && EVENTS[EventName(e)] == e
  {
  }

  lemma NamesOfEvents(word: string)
    ensures word in EVENTS ==> word == EventName(EVENTS[word])
  {
  }

  /** The event a token names, if it names one. */
  lemma TokenNames(token: string, e: HookEvent)
    ensures var word := ToLower(TrimSpace(token));
            word in EVENTS && EVENTS[word] == e <==> Spells(token, EventName(e))
  {
    hide ToLower, TrimSpace, Spells;
    EventNamesArePlain(e);
    SpellingIsTrimming(token, EventName(e));
    EventsByName(e);
    NamesOfEvents(ToLower(TrimSpace(token)));
  }

  /** The events are spelled by the tokens at some places, in order, and no other token spells an event. */
  ghost predicate Heeds(tokens: seq<string>, events: seq<HookEvent>) {
    exists at: seq<nat> :: HeedsAt(tokens, events, at)
  }

  ghost predicate HeedsAt(tokens: seq<string>, events: seq<HookEvent>, at: seq<nat>) {
    && |at| == |events|
    && (forall k :: 0 <= k < |at| ==> at[k] < |tokens| && Spells(tokens[at[k]], EventName(events[k])))
    && (forall j, k :: 0 <= j < k < |at| ==> at[j] < at[k])
    && (forall i, e :: 0 <= i < |tokens| && Spells(tokens[i], EventName(e)) ==> i in at)
  }

  lemma {:induction false} RecognisedAreHeeded(tokens: seq<string>) returns (at: seq<nat>)
    ensures HeedsAt(tokens, RecognisedEvents(tokens), at)
    decreases |tokens|
  {
    hide ToLower, TrimSpace, Spells, EventName, HeedsAt;
    at := [];
    if tokens == [] {
      NothingHeeded();
    } else {
      var init, last := tokens[..|tokens| - 1], tokens[|tokens| - 1];
      at := RecognisedAreHeeded(init);
      forall e: HookEvent
        ensures var word := ToLower(TrimSpace(last));
                word in EVENTS && EVENTS[word] == e <==> Spells(last, EventName(e))
      {
        TokenNames(last, e);
      }
      var word := ToLower(TrimSpace(last));
      assert tokens == init + [last];
      if word in EVENTS {
        OneMoreHeeded(init, RecognisedEvents(init), at, last, EVENTS[word]);
        at := at + [|init|];
      } else {
        NoMoreHeeded(init, RecognisedEvents(init), at, last);
        assert RecognisedEvents(init) + [] == RecognisedEvents(init);
      }
    }
  }

  lemma NothingHeeded()
    ensures HeedsAt([], [], [])
  {
  }

  lemma OneMoreHeeded(init: seq<string>, events: seq<HookEvent>, at: seq<nat>, last: string, event: HookEvent)
    requires HeedsAt(init, events, at) && Spells(last, EventName(event))
    ensures HeedsAt(init + [last], events + [event], at + [|init|])
  {
    hide Spells, EventName;
    var more := at + [|init|];
    assert forall i :: i in at ==> i in more;
    assert more[|at|] == |init|;
  }

  lemma NoMoreHeeded(init: seq<string>, events: seq<HookEvent>, at: seq<nat>, last: string)
    requires HeedsAt(init, events, at) && forall e :: !Spells(last, EventName(e))
    ensures HeedsAt(init + [last], events, at)
  {
    hide Spells, EventName;
  }

  // ---------- where a file ends up ----------

  predicate IsPartial(name: string) {
    HasPrefix(PathBase(name), "_")
  }

  function Place(parse: Parser, apis: set<string>, name: string, content: string): Placement {
    if IsPartial(name) || TrimSpace(content) == "" then Skipped
    else
      var sh := parse(content);
      if sh.None? then Rejected(ParseFailed(name))
      else if sh.value.version != "" && sh.value.version !in apis then
        Rejected(VersionUnavailable(sh.value.version, name))
      else if HOOK_ANNO !in sh.value.Annotations() then Generic(Manifest(name, content, sh.value))
      else
        var events := RecognisedEvents(Split(sh.value.Annotations()[HOOK_ANNO], ","));
        if events == [] then DroppedHook
        else Hooked(Hook(sh.value.metadata.value.name, sh.value.kind, name, content, events, None))
  }

  /** Hooks and generic manifests hold exactly what the files call for, each once, nothing else. */
  ghost predicate Classified(parse: Parser, apis: set<string>, files: map<string, string>, hooks: seq<Hook>,
                             generic: seq<Manifest>) {
    && (forall n :: n in files ==> !Place(parse, apis, n, files[n]).Rejected?)
    && NoDuplicates(hooks) && NoDuplicates(generic)
    && (forall h :: h in hooks <==> h.path in files && Place(parse, apis, h.path, files[h.path]) == Hooked(h))
    && (forall m :: m in generic <==> m.name in files && Place(parse, apis, m.name, files[m.name]) == Generic(m))
  }

  method ParseEvents(hookTypes: string) returns (events: seq<HookEvent>, isHook: bool)
    ensures events == RecognisedEvents(Split(hookTypes, ","))
    ensures Heeds(Split(hookTypes, ","), events)
    ensures isHook <==> events != []
  {
    events, isHook := [], false;
    var tokens := Split(hookTypes, ",");
    for i := 0 to |tokens|
      invariant events == RecognisedEvents(tokens[..i])
      invariant isHook <==> events != []
    {
      assert tokens[..i + 1][..i] == tokens[..i];
      var hookType := ToLower(TrimSpace(tokens[i]));
      if hookType in EVENTS {
        isHook := true;
        events := events + [EVENTS[hookType]];
      }
    }
    assert tokens[..|tokens|] == tokens;
    ghost var at := RecognisedAreHeeded(tokens);
  }

  method Classify(parse: Parser, apis: set<string>, name: string, content: string) returns (p: Placement)
    ensures p == Place(parse, apis, name, content)
  {
    if HasPrefix(PathBase(name), "_") { return Skipped; }
    if |TrimSpace(content)| == 0 { return Skipped; }
    var sh := parse(content);
    if sh.None? { return Rejected(ParseFailed(name)); }
    var head := sh.value;
    if head.version != "" && head.version !in apis {
      return Rejected(VersionUnavailable(head.version, name));
    }
    if head.metadata.None? || |head.metadata.value.annotations| == 0 {
      return Generic(Manifest(name, content, head));
    }
    if HOOK_ANNO !in head.metadata.value.annotations {
      return Generic(Manifest(name, content, head));
    }
    var events, isHook := ParseEvents(head.metadata.value.annotations[HOOK_ANNO]);
    if !isHook { return DroppedHook; }
    p := Hooked(Hook(head.metadata.value.name, head.kind, name, content, events, None));
  }

  /** The partial result of the classification loop once the names in `rest` are still to come. */
  ghost predicate SoFar(parse: Parser, apis: set<string>, files: map<string, string>, rest: set<string>,
                        hooks: seq<Hook>, generic: seq<Manifest>) {
    && rest <= files.Keys
    && Classified(parse, apis, files - rest, hooks, generic)
  }

  /** Visits the files in an arbitrary order, as Go's map iteration does, and stops at the first bad one. */
  method SortManifests(parse: Parser, files: map<string, string>, apis: set<string>, order: SortOrder)
      returns (r: Result<(seq<Hook>, seq<Manifest>), Error>)
    ensures r.Err? <==> exists n :: n in files && Place(parse, apis, n, files[n]).Rejected?
    ensures r.Err? ==> exists n :: n in files && Place(parse, apis, n, files[n]) == Rejected(r.error)
    ensures r.Ok? ==> Classified(parse, apis, files, r.value.0, r.value.1) && Ordered(order, r.value.1)
  {
    var hs: seq<Hook>, generic: seq<Manifest> := [], [];
    var rest := files.Keys;
    while rest != {}
      invariant SoFar(parse, apis, files, rest, hs, generic)
      decreases |rest|
    {
      var n :| n in rest;
      var p := Classify(parse, apis, n, files[n]);
      if p.Rejected? { return Err(p.error); }
      NextFile(parse, apis, files, rest, n, hs, generic);
      match p {
        case Hooked(h) => hs := hs + [h];
        case Generic(m) => generic := generic + [m];
        case _ =>
      }
      rest := rest - {n};
    }
    assert files - {} == files;
    var list := new Manifest[|generic|](i requires 0 <= i < |generic| => generic[i]);
    assert list[..] == generic;
    SortByKind(list, order);
    Reordered(parse, apis, files, hs, generic, list[..]);
    r := Ok((hs, list[..]));
  }

  /** One more file adds exactly what it calls for. */
  lemma NextFile(parse: Parser, apis: set<string>, files: map<string, string>, rest: set<string>, n: string,
                 hooks: seq<Hook>, generic: seq<Manifest>)
    requires SoFar(parse, apis, files, rest, hooks, generic) && n in rest
    requires !Place(parse, apis, n, files[n]).Rejected?
    ensures var p := Place(parse, apis, n, files[n]);
            SoFar(parse, apis, files, rest - {n},
                  if p.Hooked? then hooks + [p.hook] else hooks,
                  if p.Generic? then generic + [p.manifest] else generic)
  {
    hide Place;
    PlacedUnderItsName(parse, apis, n, files[n]);
    assert n !in files - rest;
    assert forall k :: k in files - (rest - {n}) <==> k in files - rest || k == n;
  }

  /** A file's hook or manifest carries the file's own name. */
  lemma PlacedUnderItsName(parse: Parser, apis: set<string>, n: string, content: string)
    ensures var p := Place(parse, apis, n, content);
            && (p.Hooked? ==> p.hook.path == n && p.hook.manifest == content && p.hook.events != [])
            && (p.Generic? ==>
                  && p.manifest.name == n && p.manifest.content == content
                  && parse(content) == Some(p.manifest.head))
  {
  }

  lemma Reordered(parse: Parser, apis: set<string>, files: map<string, string>, hooks: seq<Hook>, before: seq<Manifest>,
                  after: seq<Manifest>)
    requires Classified(parse, apis, files, hooks, before) && multiset(before) == multiset(after)
    ensures Classified(parse, apis, files, hooks, after)
  {
    hide Place;
    SameElements(before, after);
  }

  /** Whatever order the files are visited in, the same hooks and the same manifests come out. */
  lemma OrderOfFilesIsIrrelevant(parse: Parser, apis: set<string>, files: map<string, string>, hooks: seq<Hook>,
                                 generic: seq<Manifest>, hooks': seq<Hook>, generic': seq<Manifest>)
    requires Classified(parse, apis, files, hooks, generic) && Classified(parse, apis, files, hooks', generic')
    ensures multiset(hooks) == multiset(hooks') && multiset(generic) == multiset(generic')
  {
    hide Place;
    assert forall h :: h in hooks <==> h in hooks';
    SameListings(hooks, hooks');
    assert forall m :: m in generic <==> m in generic';
    SameListings(generic, generic');
  }

  /** Every file lands in exactly one place: once among the hooks, once among the manifests, or in neither. */
  lemma EveryFileLandsOnce(parse: Parser, apis: set<string>, files: map<string, string>, hooks: seq<Hook>,
                           generic: seq<Manifest>, n: string)
    requires Classified(parse, apis, files, hooks, generic) && n in files
    ensures match Place(parse, apis, n, files[n])
            case Hooked(h) => multiset(hooks)[h] == 1 && (forall m :: m in generic ==> m.name != n)
            case Generic(m) => multiset(generic)[m] == 1 && (forall h :: h in hooks ==> h.path != n)
            case Rejected(_) => false
            case _ => (forall h :: h in hooks ==> h.path != n) && (forall m :: m in generic ==> m.name != n)
  {
    PlacedUnderItsName(parse, apis, n, files[n]);
    hide Place;
    match Place(parse, apis, n, files[n])
    case Hooked(h) => CountOnce(hooks, h);
    case Generic(m) => CountOnce(generic, m);
    case _ =>
  }
}
