/**
  What the names and annotations of files mean: which files are passed over, which are hooks and of which
  events, and which manifests uninstalling leaves alone. Everything is said in the words a chart's author writes.
*/
module Annotations {
  import opened Wrappers
  import opened GoStrings
  import opened Hapi
  import opened KindSorter
  import opened Sequences
  import opened Manifests
  import opened ManifestBlob

  // ---------- files that are passed over ----------

  /** The last element of the path begins with an underscore; slashes at the very end do not count. */
  ghost predicate Underscored(name: string) {
    exists i: nat, j: nat :: UnderscoredAt(name, i, j)
  }

  predicate UnderscoredAt(name: string, i: nat, j: nat) {
    && i < j <= |name| && name[i] == '_' && (i == 0 || name[i - 1] == '/')
    && (forall k :: i <= k < j ==> name[k] != '/') && (forall k :: j <= k < |name| ==> name[k] == '/')
  }

  lemma PartialMeans(name: string)
    ensures IsPartial(name) <==> Underscored(name)
  {
    hide PathBase;
    BeginsWithUnderscore(PathBase(name));
    if i: nat, j: nat :| UnderscoredAt(name, i, j) {
      BaseAt(name, i, j);
      assert name[i..j][0] == '_';
    } else {
      var i, j := BasePlace(name);
      if i < j {
        assert name[i..j][0] == name[i];
        assert name[i] == '_' ==> UnderscoredAt(name, i, j);
      }
    }
  }

  lemma BeginsWithUnderscore(s: string)
    ensures HasPrefix(s, "_") <==> s != "" && s[0] == '_'
  {
    if s != "" { assert s[..1] == [s[0]]; }
  }

  lemma BlankMeans(content: string)
    ensures TrimSpace(content) == "" <==> AllBlank(content)
  {
    var i, j := Middle(content);
    if i == j {
      assert forall k :: 0 <= k < i ==> content[..i][k] == content[k];
      assert forall k :: i <= k < |content| ==> content[i..][k - i] == content[k];
    }
  }

  // ---------- files that are hooks ----------

  /** The tokens determine the events. */
  lemma HeedsOnce(tokens: seq<string>, a: seq<HookEvent>, b: seq<HookEvent>)
    requires Heeds(tokens, a) && Heeds(tokens, b)
    ensures a == b
  {
    var at: seq<nat> :| HeedsAt(tokens, a, at);
    var bt: seq<nat> :| HeedsAt(tokens, b, bt);
    hide Spells, EventName;
    var ai: seq<int>, bi: seq<int> := at, bt;
    HeededPlaces(tokens, a, at, b, bt);
    HeededPlaces(tokens, b, bt, a, at);
    OneAscendingListing(ai, bi);
    forall k | 0 <= k < |a| ensures a[k] == b[k] {
      TokenNames(tokens[at[k]], a[k]);
      TokenNames(tokens[at[k]], b[k]);
    }
  }

  lemma HeededPlaces(tokens: seq<string>, a: seq<HookEvent>, at: seq<nat>, b: seq<HookEvent>, bt: seq<nat>)
    requires HeedsAt(tokens, a, at) && HeedsAt(tokens, b, bt)
    ensures forall i: int :: i in at ==> i in bt
  {
    hide Spells, EventName;
    forall i: int | i in at ensures i in bt {
      var k :| 0 <= k < |at| && at[k] == i;
      assert Spells(tokens[i], EventName(a[k]));
    }
  }

  /** Where a file ends up, for every file. */
  lemma PlaceMeans(parse: Parser, apis: set<string>, name: string, content: string)
    ensures var p := Place(parse, apis, name, content);
            if Underscored(name) || AllBlank(content) then p == Skipped
            else if parse(content).None? then p == Rejected(ParseFailed(name))
            else
              var head := parse(content).value;
              if head.version != "" && head.version !in apis then p == Rejected(VersionUnavailable(head.version, name))
              else if head.metadata.None? || "helm.sh/hook" !in head.metadata.value.annotations then
                p == Generic(Manifest(name, content, head))
              else
                var metadata := head.metadata.value;
                forall events :: Heeds(Split(metadata.annotations["helm.sh/hook"], ","), events) ==>
                  p == if events == [] then DroppedHook
                       else Hooked(Hook(metadata.name, head.kind, name, content, events, None))
  {
    hide IsPartial, TrimSpace, RecognisedEvents, Heeds, Underscored, Split;
    PartialMeans(name);
    BlankMeans(content);
    if parse(content).Some? && parse(content).value.metadata.Some?
      && "helm.sh/hook" in parse(content).value.metadata.value.annotations
    {
      var tokens := Split(parse(content).value.metadata.value.annotations["helm.sh/hook"], ",");
      HeedsRecognised(tokens);
      forall events | Heeds(tokens, events) ensures events == RecognisedEvents(tokens) {
        HeedsOnce(tokens, events, RecognisedEvents(tokens));
      }
    }
  }

  lemma HeedsRecognised(tokens: seq<string>)
    ensures Heeds(tokens, RecognisedEvents(tokens))
  {
    hide HeedsAt, RecognisedEvents;
    var at := RecognisedAreHeeded(tokens);
  }

  /** The file is neither passed over nor rejected, and has a hook annotation. */
  ghost predicate HasHookAnnotation(parse: Parser, apis: set<string>, name: string, content: string, anno: string) {
    && !Underscored(name) && !AllBlank(content) && parse(content).Some?
    && var head := parse(content).value;
    && (head.version == "" || head.version in apis)
    && head.metadata.Some? && "helm.sh/hook" in head.metadata.value.annotations
    && head.metadata.value.annotations["helm.sh/hook"] == anno
  }

  /** An annotation that lists words between commas makes the file a hook of the events the words spell. */
  lemma ListedEvents(parse: Parser, apis: set<string>, name: string, content: string, words: seq<string>,
                     events: seq<HookEvent>)
    requires HasHookAnnotation(parse, apis, name, content, Join(words, ","))
    requires words != [] && |events| == |words| && forall k :: 0 <= k < |words| ==> ',' !in words[k]
    requires forall k :: 0 <= k < |words| ==> Spells(words[k], EventName(events[k]))
    ensures var head := parse(content).value;
            Place(parse, apis, name, content)
            == Hooked(Hook(head.metadata.value.name, head.kind, name, content, events, None))
  {
    hide Place, Spells, Underscored, EventName, Split;
    PlaceMeans(parse, apis, name, content);
    SplitAtCommas(words);
    AllHeeded(words, events);
    hide Heeds;
  }

  lemma AllHeeded(words: seq<string>, events: seq<HookEvent>)
    requires |events| == |words| && forall k :: 0 <= k < |words| ==> Spells(words[k], EventName(events[k]))
    ensures Heeds(words, events)
  {
    hide Spells, EventName;
    var at: seq<nat> := seq(|words|, k => k);
    assert forall i :: 0 <= i < |words| ==> at[i] == i;
    assert HeedsAt(words, events, at);
  }

  lemma SplitAtCommas(words: seq<string>)
    requires words != [] && forall k :: 0 <= k < |words| ==> ',' !in words[k]
    ensures Split(Join(words, ","), ",") == words
  {
    forall k | 0 <= k < |words| ensures CutsBehind(words[k], ",") && !Contains(words[k], ",") {
      CutsBehindChar(words[k], ',');
      ContainsChar(words[k], ',');
    }
    SplitUndoesJoin(words, ",");
  }

  /** The eight words a hook annotation may hold, and the one event each stands for. */
  lemma OneEvent(parse: Parser, apis: set<string>, name: string, content: string, anno: string)
    requires HasHookAnnotation(parse, apis, name, content, anno)
    ensures var p, head := Place(parse, apis, name, content), parse(content).value;
            var hook := Hook(head.metadata.value.name, head.kind, name, content, [], None);
            && (anno == "pre-install" ==> p == Hooked(hook.(events := [PRE_INSTALL])))
            && (anno == "post-install" ==> p == Hooked(hook.(events := [POST_INSTALL])))
            && (anno == "pre-delete" ==> p == Hooked(hook.(events := [PRE_DELETE])))
            && (anno == "post-delete" ==> p == Hooked(hook.(events := [POST_DELETE])))
            && (anno == "pre-upgrade" ==> p == Hooked(hook.(events := [PRE_UPGRADE])))
            && (anno == "post-upgrade" ==> p == Hooked(hook.(events := [POST_UPGRADE])))
            && (anno == "pre-rollback" ==> p == Hooked(hook.(events := [PRE_ROLLBACK])))
            && (anno == "post-rollback" ==> p == Hooked(hook.(events := [POST_ROLLBACK])))
  {
    forall e: HookEvent | anno == EventName(e)
      ensures var head := parse(content).value;
              Place(parse, apis, name, content)
              == Hooked(Hook(head.metadata.value.name, head.kind, name, content, [e], None))
    {
      ExactSpelling(EventName(e));
      NoCommaInNames(e);
      assert Join([anno], ",") == anno;
      ListedEvents(parse, apis, name, content, [anno], [e]);
    }
    hide Place, Underscored;
    NamesSpelledOut();
  }

  lemma NamesSpelledOut()
    ensures EventName(PRE_INSTALL) == "pre-install" && EventName(POST_INSTALL) == "post-install"
    ensures EventName(PRE_DELETE) == "pre-delete" && EventName(POST_DELETE) == "post-delete"
    ensures EventName(PRE_UPGRADE) == "pre-upgrade" && EventName(POST_UPGRADE) == "post-upgrade"
    ensures EventName(PRE_ROLLBACK) == "pre-rollback" && EventName(POST_ROLLBACK) == "post-rollback"
  {
  }

  lemma ExactSpelling(name: string)
    ensures Spells(name, name)
  {
    assert SpellsAt(name, name, 0) && AllBlank(name[..0]) && AllBlank(name[|name|..]);
  }

  lemma NoCommaInNames(e: HookEvent)
    ensures ',' !in EventName(e)
  {
  }
}
