/** Stored document, graph and cache over every run. */
module VersionRuns {
  import opened Prelude
  import opened SymbolGraph
  import opened OwnerModel

  // -- Every cached version was committed, at a moment when the document had it ---------

  /** The `i`-th event was an accepted commit of `uri` at `version`, met while the stored document
      had exactly that version. */
  ghost predicate CommittedAt(events: seq<Event>, i: int, uri: Uri, version: int) {
    && 0 <= i < |events|
    && Commits(Run(events[..i]), events[i])
    && events[i].uri == uri && events[i].version == version
    && StoredVersion(Run(events[..i]), uri) == Some(version)
  }

  ghost predicate EverCommitted(events: seq<Event>, uri: Uri, version: int) {
    exists i :: CommittedAt(events, i, uri, version)
  }

  lemma CommittedEarlier(events: seq<Event>, uri: Uri, version: int)
    requires events != [] && EverCommitted(events[..|events| - 1], uri, version)
    ensures EverCommitted(events, uri, version)
  {
    hide Commits, StoredVersion, Run;
    var front := events[..|events| - 1];
    var i :| CommittedAt(front, i, uri, version);
    assert front[..i] == events[..i];
    assert CommittedAt(events, i, uri, version);
  }

  /** A release touches neither documents, graph nor cache. */
  lemma ResolveIsQuiet(o: Owner, uri: Uri, version: int)
    ensures var o' := Resolve(o, uri, version);
            o'.documents == o.documents && o'.graph == o.graph && o'.cache == o.cache && o'.metrics == o.metrics
  {
  }

  lemma ArmIsQuiet(o: Owner, uri: Uri, version: int)
    ensures var o' := Arm(o, uri, version);
            o'.documents == o.documents && o'.graph == o.graph && o'.cache == o.cache && o'.metrics == o.metrics
  {
  }

  lemma CommitStores(o: Owner, uri: Uri, version: int, table: Table, hasErrors: bool, level: Level, fate: Fate)
    ensures var o' := Commit(o, uri, version, table, hasErrors, level, fate);
            && o'.documents == o.documents && o'.metrics == o.metrics
            && o'.graph == (if fate.Adds() then AddTable(o, uri, version, table, hasErrors).graph else o.graph)
            && o'.cache == (if fate.Records() then o.cache[uri := CacheEntry(version, level)] else o.cache)
  {
    hide Register, Resolve;
    var o1 := if fate.Adds() then AddTable(o, uri, version, table, hasErrors) else o;
    var o2 := if fate.Records() then MergeCache(o1, uri, version, level) else o1;
    ResolveIsQuiet(o2, uri, version);
  }

  /** What one event does to documents, graph, cache and counters. */
  lemma StoresStep(o: Owner, e: Event)
    requires e.WriteBack? || e.Compiled?
    ensures var o' := Apply(o, e);
            && o'.documents == o.documents
            && o'.graph == (if Adds(o, e) then AddTable(o, e.uri, e.version, e.table, CommitErrors(e)).graph else o.graph)
            && o'.cache == (if Commits(o, e) then o.cache[e.uri := CacheEntry(e.version, CommitLevel(e))] else o.cache)
            && o'.metrics == (if e.WriteBack? then Count(o.metrics, WriteBackGate(o, e.uri, e.version, e.level), e.fate)
                              else o.metrics)
  {
    hide Register, Resolve, Commit, WriteBackGate, CompileGate, Count;
    match e
    case WriteBack(uri, version, table, level, fate) =>
      var o1 := o.(metrics := Count(o.metrics, WriteBackGate(o, uri, version, level), fate));
      CommitStores(o1, uri, version, table, false, level, fate);
      ResolveIsQuiet(o1, uri, version);
    case Compiled(uri, version, table, hasErrors, fate) =>
      CommitStores(o, uri, version, table, hasErrors, PublicApi, fate);
      ResolveIsQuiet(o, uri, version);
  }

  /** What one event does to the cache. */
  lemma CacheStep(o: Owner, e: Event)
    ensures var o' := Apply(o, e);
            o'.cache == if Commits(o, e) then o.cache[e.uri := CacheEntry(e.version, CommitLevel(e))]
                        else if e.DropCacheEntry? then o.cache - {e.uri}
                        else o.cache
  {
    hide StoreAll, Register, Commit, Reject, Arm, Resolve, WriteBackGate, CompileGate, Count;
    match e
    case WriteBack(_, _, _, _, _) => hide Apply; StoresStep(o, e);
    case Compiled(_, _, _, _, _) => hide Apply; StoresStep(o, e);
    case Release(uri, version) => ResolveIsQuiet(o, uri, version);
    case Store(uri, document) => ArmIsQuiet(o.(documents := o.documents[uri := document]), uri, document.version);
    case _ =>
  }

  /** What one event does to the graph. */
  lemma GraphStep(o: Owner, e: Event)
    ensures var o' := Apply(o, e);
            o'.graph == if Adds(o, e)
                        then o.graph[e.uri := Register(Lookup(o.graph, e.uri), e.table.(version := e.version), CommitErrors(e))]
                        else o.graph
  {
    hide StoreAll, Register, Commit, Reject, Arm, Resolve, WriteBackGate, CompileGate, Count;
    match e
    case WriteBack(_, _, _, _, _) => hide Apply; StoresStep(o, e);
    case Compiled(_, _, _, _, _) => hide Apply; StoresStep(o, e);
    case Release(uri, version) => ResolveIsQuiet(o, uri, version);
    case Store(uri, document) => ArmIsQuiet(o.(documents := o.documents[uri := document]), uri, document.version);
    case _ =>
  }

  lemma GateSeesStoredVersion(o: Owner, e: Event)
    requires Adds(o, e)
    ensures StoredVersion(o, e.uri) == Some(e.version)
  {
  }

  lemma {:induction false} CachedIsCommitted(events: seq<Event>, uri: Uri)
    ensures uri in Run(events).cache ==> EverCommitted(events, uri, Run(events).cache[uri].version)
  {
    hide Apply, PassesGates, EverCommitted;
    if events != [] {
      var front, last := events[..|events| - 1], events[|events| - 1];
      var o := Run(front);
      CachedIsCommitted(front, uri);
      CacheStep(o, last);
      if Commits(o, last) && last.uri == uri {
        CommitsHere(events);
      } else if uri in o.cache {
        CommittedEarlier(events, uri, o.cache[uri].version);
      }
    }
  }

  lemma CommitsHere(events: seq<Event>)
    requires events != [] && Commits(Run(events[..|events| - 1]), events[|events| - 1])
    ensures var last := events[|events| - 1];
            EverCommitted(events, last.uri, last.version)
  {
    hide Run, Apply;
    var last := events[|events| - 1];
    GateSeesStoredVersion(Run(events[..|events| - 1]), last);
    assert CommittedAt(events, |events| - 1, last.uri, last.version);
  }

  /** A ready answer from a peek that sees a latch rests on an accepted commit. */
  ghost predicate ReadyIsFounded(events: seq<Event>, uri: Uri, requested: int) {
    var o := Run(events);
    uri in o.latches && SymbolsAreCurrent(o, uri, requested) ==>
      exists version :: EverCommitted(events, uri, version) && version >= RequiredVersion(o.latches[uri], requested)
  }

  lemma ReadyNeedsCommit(events: seq<Event>, uri: Uri, requested: int)
    requires uri in Run(events).latches && RequiredVersion(Run(events).latches[uri], requested) >= 0
    ensures ReadyIsFounded(events, uri, requested)
  {
    hide Run, EverCommitted;
    CachedIsCommitted(events, uri);
  }

  ghost predicate SoundFor(required: int) {
    forall events, uri, requested ::
      uri in Run(events).latches && RequiredVersion(Run(events).latches[uri], requested) == required ==>
        ReadyIsFounded(events, uri, requested)
  }

  const SOME_TABLE := Table(1, map["A" := Symbol(Some(PublicApi), "class A")], [], false)

  lemma NegativeVersionsReadAsReady(required: int)
    requires required < 0
    ensures !SoundFor(required)
  {
    var e0, e1 := Store("a", Document(required - 1, "")), Compiled("a", required - 1, SOME_TABLE, false, Completes);
    var e2, e3 := DropCacheEntry("a"), Store("a", Document(required, ""));
    RunMore([], e0);
    RunMore([] + [e0], e1);
    RunMore([] + [e0] + [e1], e2);
    RunMore([] + [e0] + [e1] + [e2], e3);
    var events := [] + [e0] + [e1] + [e2] + [e3];
    assert "a" in Run(events).latches && SymbolsAreCurrent(Run(events), "a", required);
    forall version | EverCommitted(events, "a", version) ensures version < required {
      var i :| CommittedAt(events, i, "a", version);
      assert events[i] in [e0, e1, e2, e3];
    }
    assert !ReadyIsFounded(events, "a", required);
  }

  /** Ready answers are founded for every required version from 0 up, and for no version below:
      there the "nothing merged yet" default of -1 passes for a merged version. */
  lemma ReadyIsSoundExactlyFromZero(required: int)
    ensures SoundFor(required) <==> required >= 0
  {
    if required >= 0 {
      forall events, uri, requested
        | uri in Run(events).latches && RequiredVersion(Run(events).latches[uri], requested) == required
        ensures ReadyIsFounded(events, uri, requested)
      {
        ReadyNeedsCommit(events, uri, requested);
      }
    } else {
      NegativeVersionsReadAsReady(required);
    }
  }

  // -- Stored versions -----------------------------------------------------------------

  function Stores(e: Event): seq<(Uri, int)> {
    match e
    case Store(uri, document) => [(uri, document.version)]
    case Ingest(entries) => seq(|entries|, i requires 0 <= i < |entries| => (entries[i].0, entries[i].1.version))
    case _ => []
  }

  /** Every document version the run stores, in order. */
  function StoredVersions(events: seq<Event>): seq<(Uri, int)> {
    if events == [] then [] else StoredVersions(events[..|events| - 1]) + Stores(events[|events| - 1])
  }

  /** No file is ever stored at a lower version than before. */
  ghost predicate VersionsDoNotGoDown(events: seq<Event>) {
    Rising(StoredVersions(events))
  }

  ghost predicate Rising(log: seq<(Uri, int)>) {
    forall i, j :: 0 <= i < j < |log| && log[i].0 == log[j].0 ==> log[i].1 <= log[j].1
  }

  function LastOf(log: seq<(Uri, int)>, uri: Uri): Option<int> {
    if log == [] then None
    else if log[|log| - 1].0 == uri then Some(log[|log| - 1].1)
    else LastOf(log[..|log| - 1], uri)
  }

  lemma LastOfMore(log: seq<(Uri, int)>, x: (Uri, int), uri: Uri)
    ensures LastOf(log + [x], uri) == if x.0 == uri then Some(x.1) else LastOf(log, uri)
  {
    assert (log + [x])[..|log|] == log;
  }

  lemma {:induction false} LastIsHighest(log: seq<(Uri, int)>, i: nat)
    requires Rising(log) && i < |log|
    ensures LastOf(log, log[i].0).Some? && log[i].1 <= LastOf(log, log[i].0).value
  {
    if log[|log| - 1].0 != log[i].0 {
      assert log[..|log| - 1][i] == log[i];
      LastIsHighest(log[..|log| - 1], i);
    }
  }

  ghost predicate DocumentsAreLast(o: Owner, log: seq<(Uri, int)>) {
    forall uri :: uri in o.documents ==> LastOf(log, uri) == Some(o.documents[uri].version)
  }

  lemma {:induction false} StoreAllIsLast(o: Owner, entries: seq<(Uri, Document)>, log: seq<(Uri, int)>)
    requires DocumentsAreLast(o, log)
    ensures DocumentsAreLast(o.(documents := StoreAll(o.documents, entries)), log + Stores(Ingest(entries)))
  {
    if entries == [] {
      assert log + Stores(Ingest(entries)) == log;
    } else {
      var front, last := entries[..|entries| - 1], entries[|entries| - 1];
      StoreAllIsLast(o, front, log);
      var before := log + Stores(Ingest(front));
      assert log + Stores(Ingest(entries)) == before + [(last.0, last.1.version)];
      forall uri | uri in StoreAll(o.documents, entries)
        ensures LastOf(log + Stores(Ingest(entries)), uri) == Some(StoreAll(o.documents, entries)[uri].version)
      {
        LastOfMore(before, (last.0, last.1.version), uri);
      }
    }
  }

  lemma DocumentsStep(o: Owner, e: Event)
    ensures var o' := Apply(o, e);
            o'.documents == match e
                            case Store(uri, document) => o.documents[uri := document]
                            case Ingest(entries) => StoreAll(o.documents, entries)
                            case DropDocument(uri) => o.documents - {uri}
                            case _ => o.documents
  {
    hide StoreAll, Register, Commit, Reject, Arm, Resolve, WriteBackGate, CompileGate, Count;
    match e
    case WriteBack(_, _, _, _, _) => hide Apply; StoresStep(o, e);
    case Compiled(_, _, _, _, _) => hide Apply; StoresStep(o, e);
    case Release(uri, version) => ResolveIsQuiet(o, uri, version);
    case Store(uri, document) => ArmIsQuiet(o.(documents := o.documents[uri := document]), uri, document.version);
    case _ =>
  }

  /** In every run the stored document is the one stored last. */
  lemma {:induction false} DocumentIsLastStored(events: seq<Event>)
    ensures DocumentsAreLast(Run(events), StoredVersions(events))
  {
    if events != [] {
      var front, last := events[..|events| - 1], events[|events| - 1];
      DocumentIsLastStored(front);
      hide Apply, StoreAll, LastOf;
      var o, log := Run(front), StoredVersions(front);
      DocumentsStep(o, last);
      if last.Ingest? {
        StoreAllIsLast(o, last.entries, log);
      } else if last.Store? {
        forall uri
          ensures LastOf(log + Stores(last), uri) == if uri == last.uri then Some(last.document.version) else LastOf(log, uri)
        {
          LastOfMore(log, (last.uri, last.document.version), uri);
        }
      } else {
        assert log + Stores(last) == log;
      }
    }
  }

  ghost predicate WasStored(log: seq<(Uri, int)>, uri: Uri, version: int) {
    exists i :: 0 <= i < |log| && log[i] == (uri, version)
  }

  lemma {:induction false} LastWasStored(log: seq<(Uri, int)>, uri: Uri)
    ensures LastOf(log, uri).Some? ==> WasStored(log, uri, LastOf(log, uri).value)
  {
    if log != [] {
      if log[|log| - 1].0 == uri {
        assert log[|log| - 1] == (uri, LastOf(log, uri).value);
      } else {
        LastWasStored(log[..|log| - 1], uri);
        assert forall i :: 0 <= i < |log| - 1 ==> log[..|log| - 1][i] == log[i];
      }
    }
  }

  lemma StoredStays(log: seq<(Uri, int)>, more: seq<(Uri, int)>, uri: Uri, version: int)
    requires WasStored(log, uri, version)
    ensures WasStored(log + more, uri, version)
  {
    var i :| 0 <= i < |log| && log[i] == (uri, version);
    assert (log + more)[i] == (uri, version);
  }

  /** The graph only ever holds versions the document has had. */
  lemma {:induction false} GraphVersionWasStored(events: seq<Event>, uri: Uri)
    ensures uri in Run(events).graph ==> WasStored(StoredVersions(events), uri, Run(events).graph[uri].version)
  {
    hide Apply, PassesGates, WasStored, LastOf, Register;
    if events != [] {
      var front, last := events[..|events| - 1], events[|events| - 1];
      var o, log := Run(front), StoredVersions(front);
      GraphVersionWasStored(front, uri);
      GraphStep(o, last);
      if Adds(o, last) && last.uri == uri {
        GateSeesStoredVersion(o, last);
        DocumentIsLastStored(front);
        LastWasStored(log, uri);
        RegisterVersion(Lookup(o.graph, uri), last.table.(version := last.version), CommitErrors(last));
        StoredStays(log, Stores(last), uri, last.version);
      }
      if uri in o.graph {
        StoredStays(log, Stores(last), uri, o.graph[uri].version);
      }
    }
  }

  /** The `i`-th event registered a table of `uri` at `version`. */
  ghost predicate AddedAt(events: seq<Event>, i: int, uri: Uri, version: int) {
    && 0 <= i < |events|
    && Adds(Run(events[..i]), events[i]) && events[i].uri == uri && events[i].version == version
  }

  ghost predicate EverAdded(events: seq<Event>, uri: Uri, version: int) {
    exists i :: AddedAt(events, i, uri, version)
  }

  /** No table of the file was ever registered at a version above this one. */
  ghost predicate NoneAddedAbove(events: seq<Event>, uri: Uri, version: int) {
    forall v :: EverAdded(events, uri, v) ==> v <= version
  }

  lemma EverAddedMore(events: seq<Event>, uri: Uri, version: int)
    requires events != []
    ensures var front, last := events[..|events| - 1], events[|events| - 1];
            EverAdded(events, uri, version) <==>
              EverAdded(front, uri, version) || (Adds(Run(front), last) && last.uri == uri && last.version == version)
  {
    hide Run, PassesGates;
    var front, last := events[..|events| - 1], events[|events| - 1];
    assert forall i :: 0 <= i < |front| ==> front[..i] == events[..i];
    if i :| AddedAt(front, i, uri, version) {
      assert AddedAt(events, i, uri, version);
    }
    if i :| AddedAt(events, i, uri, version) {
      assert i < |front| ==> AddedAt(front, i, uri, version);
    }
    if Adds(Run(front), last) && last.uri == uri && last.version == version {
      assert AddedAt(events, |front|, uri, version);
    }
  }

  /** In every run, whatever order results arrive in, the graph holds a file at the highest version ever
      registered for it. */
  lemma {:induction false} GraphVersionIsHighestRegistered(events: seq<Event>, uri: Uri)
    ensures uri in Run(events).graph ==>
              EverAdded(events, uri, Run(events).graph[uri].version)
              && NoneAddedAbove(events, uri, Run(events).graph[uri].version)
    ensures uri !in Run(events).graph ==> forall v :: !EverAdded(events, uri, v)
  {
    hide EverAdded, PassesGates, Apply, Register;
    if events == [] {
      NothingAdded(uri);
    } else {
      var front, last := events[..|events| - 1], events[|events| - 1];
      var o := Run(front);
      GraphVersionIsHighestRegistered(front, uri);
      GraphStep(o, last);
      if Adds(o, last) && last.uri == uri {
        RegisterVersion(Lookup(o.graph, uri), last.table.(version := last.version), CommitErrors(last));
      }
      forall v
        ensures EverAdded(events, uri, v) <==>
                  EverAdded(front, uri, v) || (Adds(o, last) && last.uri == uri && last.version == v)
      {
        EverAddedMore(events, uri, v);
      }
    }
  }

  lemma NothingAdded(uri: Uri)
    ensures forall v :: !EverAdded([], uri, v)
  {
  }

  /** When stored versions do not go down, no late result is ahead of the stored document. */
  lemma GraphNotAheadOfDocument(events: seq<Event>, uri: Uri)
    requires VersionsDoNotGoDown(events)
    requires uri in Run(events).graph && uri in Run(events).documents
    ensures Run(events).graph[uri].version <= Run(events).documents[uri].version
  {
    hide Run, LastOf;
    var log, v := StoredVersions(events), Run(events).graph[uri].version;
    GraphVersionWasStored(events, uri);
    DocumentIsLastStored(events);
    var i :| 0 <= i < |log| && log[i] == (uri, v);
    LastIsHighest(log, i);
  }

  // -- Graph and cache -----------------------------------------------------------------

  /** In every run, whatever order results arrive in, a file's graph version never goes back. */
  lemma {:induction false} GraphNeverGoesBack(events: seq<Event>, k: nat, uri: Uri)
    requires k <= |events| && uri in Run(events[..k]).graph
    ensures uri in Run(events).graph
    ensures Run(events[..k]).graph[uri].version <= Run(events).graph[uri].version
  {
    hide Apply, PassesGates, Register;
    if k == |events| {
      assert events[..k] == events;
    } else {
      var front, last := events[..|events| - 1], events[|events| - 1];
      assert front[..k] == events[..k];
      GraphNeverGoesBack(front, k, uri);
      var o := Run(front);
      GraphStep(o, last);
      if Adds(o, last) && last.uri == uri {
        RegisterVersion(Lookup(o.graph, uri), last.table.(version := last.version), CommitErrors(last));
      }
    }
  }

  /** In every run the cache never claims a version the graph has not reached. */
  lemma {:induction false} CacheNotAheadOfGraph(events: seq<Event>, uri: Uri)
    requires uri in Run(events).cache
    ensures uri in Run(events).graph && Run(events).cache[uri].version <= Run(events).graph[uri].version
  {
    hide Apply, PassesGates, Register;
    if events != [] {
      var front, last := events[..|events| - 1], events[|events| - 1];
      var o := Run(front);
      CacheStep(o, last);
      GraphStep(o, last);
      if uri in o.cache {
        CacheNotAheadOfGraph(front, uri);
      }
      if Adds(o, last) && last.uri == uri {
        RegisterVersion(Lookup(o.graph, uri), last.table.(version := last.version), CommitErrors(last));
      }
    }
  }

  /** The version a commit leaves in the graph is its own exactly when the graph was not ahead. */
  lemma CommitHoldsItsVersion(o: Owner, e: Event)
    requires Commits(o, e)
    ensures var o' := Apply(o, e);
            && e.uri in o'.graph && e.uri in o'.cache && o'.cache[e.uri].version == e.version
            && (o'.graph[e.uri].version == e.version <==> (e.uri in o.graph ==> o.graph[e.uri].version <= e.version))
  {
    hide Apply, PassesGates, Register;
    CacheStep(o, e);
    GraphStep(o, e);
    RegisterVersion(Lookup(o.graph, e.uri), e.table.(version := e.version), CommitErrors(e));
  }

  /** No commit dies between the graph and the cache. */
  ghost predicate NoneDiesHalfway(events: seq<Event>) {
    forall i :: 0 <= i < |events| ==> !((events[i].WriteBack? || events[i].Compiled?) && events[i].fate.DiesAfterMerge?)
  }

  lemma VersionsDoNotGoDownEarlier(events: seq<Event>)
    requires events != [] && VersionsDoNotGoDown(events)
    ensures VersionsDoNotGoDown(events[..|events| - 1])
  {
    var log := StoredVersions(events[..|events| - 1]);
    assert StoredVersions(events)[..|log|] == log;
    assert forall i :: 0 <= i < |log| ==> StoredVersions(events)[i] == log[i];
  }

  /** When stored versions do not go down, a commit finds the graph no newer than itself. */
  lemma CommitIsNotLate(events: seq<Event>, e: Event)
    requires VersionsDoNotGoDown(events) && Adds(Run(events), e)
    ensures e.uri in Run(events).graph ==> Run(events).graph[e.uri].version <= e.version
  {
    hide Run, VersionsDoNotGoDown;
    GateSeesStoredVersion(Run(events), e);
    if e.uri in Run(events).graph {
      GraphNotAheadOfDocument(events, e.uri);
    }
  }

  /** When stored versions do not go down, what the cache records is what the graph holds. */
  lemma {:induction false} CacheAgreesWithGraph(events: seq<Event>, uri: Uri)
    requires VersionsDoNotGoDown(events) && NoneDiesHalfway(events)
    requires uri in Run(events).cache
    ensures uri in Run(events).graph && Run(events).cache[uri].version == Run(events).graph[uri].version
  {
    hide Apply, PassesGates, Register, VersionsDoNotGoDown;
    if events != [] {
      var front, last := events[..|events| - 1], events[|events| - 1];
      var o := Run(front);
      VersionsDoNotGoDownEarlier(events);
      CacheStep(o, last);
      GraphStep(o, last);
      if Commits(o, last) && last.uri == uri {
        CommitIsNotLate(front, last);
        CommitHoldsItsVersion(o, last);
      } else {
        assert !(Adds(o, last) && last.uri == uri);
        CacheAgreesWithGraph(front, uri);
      }
    }
  }

  /** The version of the file's last registration, and of its last recorded commit. */
  function LastAdded(events: seq<Event>, uri: Uri): Option<int> {
    if events == [] then None
    else
      var front, last := events[..|events| - 1], events[|events| - 1];
      if Adds(Run(front), last) && last.uri == uri then Some(last.version) else LastAdded(front, uri)
  }

  function LastRecorded(events: seq<Event>, uri: Uri): Option<int> {
    if events == [] then None
    else
      var front, last := events[..|events| - 1], events[|events| - 1];
      if Commits(Run(front), last) && last.uri == uri then Some(last.version) else LastRecorded(front, uri)
  }

  lemma {:induction false} CacheIsLastRecorded(events: seq<Event>, uri: Uri)
    requires uri in Run(events).cache
    ensures LastRecorded(events, uri) == Some(Run(events).cache[uri].version)
  {
    hide Apply, PassesGates;
    if events != [] {
      var front, last := events[..|events| - 1], events[|events| - 1];
      CacheStep(Run(front), last);
      if !(Commits(Run(front), last) && last.uri == uri) {
        CacheIsLastRecorded(front, uri);
      }
    }
  }

  /** When stored versions do not go down, the graph holds what was registered last. */
  lemma {:induction false} GraphIsLastAdded(events: seq<Event>, uri: Uri)
    requires VersionsDoNotGoDown(events) && uri in Run(events).graph
    ensures LastAdded(events, uri) == Some(Run(events).graph[uri].version)
  {
    hide Apply, PassesGates, Register, VersionsDoNotGoDown;
    if events != [] {
      var front, last := events[..|events| - 1], events[|events| - 1];
      var o := Run(front);
      VersionsDoNotGoDownEarlier(events);
      GraphStep(o, last);
      if Adds(o, last) && last.uri == uri {
        CommitIsNotLate(front, last);
        RegisterVersion(Lookup(o.graph, uri), last.table.(version := last.version), CommitErrors(last));
      } else {
        GraphIsLastAdded(front, uri);
      }
    }
  }

  /** When stored versions do not go down, whichever handlers die, cache and graph agree on a file's version
      exactly when its last registration is at the version of its last recorded commit. */
  lemma CacheAgreesExactlyWhenLastIsRecorded(events: seq<Event>, uri: Uri)
    requires VersionsDoNotGoDown(events) && uri in Run(events).cache
    ensures uri in Run(events).graph
    ensures Run(events).cache[uri].version == Run(events).graph[uri].version
            <==> LastAdded(events, uri) == LastRecorded(events, uri)
  {
    hide Run, VersionsDoNotGoDown, LastAdded, LastRecorded;
    CacheNotAheadOfGraph(events, uri);
    CacheIsLastRecorded(events, uri);
    GraphIsLastAdded(events, uri);
  }

  /** A commit that dies between graph and cache leaves the cache a version behind. */
  lemma DeathHalfwaySeparates()
    ensures exists events ::
              && VersionsDoNotGoDown(events) && "a" in Run(events).cache && "a" in Run(events).graph
              && Run(events).cache["a"].version < Run(events).graph["a"].version
  {
    var e0, e1 := Store("a", Document(1, "")), Compiled("a", 1, SOME_TABLE, false, Completes);
    var e2, e3 := Store("a", Document(2, "")), Compiled("a", 2, SOME_TABLE, false, DiesAfterMerge);
    var events := [] + [e0] + [e1] + [e2] + [e3];
    assert VersionsDoNotGoDown(events) by {
      StoredVersionsMore([], e0);
      StoredVersionsMore([] + [e0], e1);
      StoredVersionsMore([] + [e0] + [e1], e2);
      StoredVersionsMore([] + [e0] + [e1] + [e2], e3);
      assert StoredVersions(events) == [("a", 1), ("a", 2)];
    }
    DiedHalfway(e0, e1, e2, e3);
    hide Run;
    assert Run(events).cache["a"].version < Run(events).graph["a"].version;
  }

  lemma DiedHalfway(e0: Event, e1: Event, e2: Event, e3: Event)
    requires e0 == Store("a", Document(1, "")) && e1 == Compiled("a", 1, SOME_TABLE, false, Completes)
    requires e2 == Store("a", Document(2, "")) && e3 == Compiled("a", 2, SOME_TABLE, false, DiesAfterMerge)
    ensures var o := Run([] + [e0] + [e1] + [e2] + [e3]);
            "a" in o.cache && "a" in o.graph && o.cache["a"].version == 1 && o.graph["a"].version == 2
  {
    OpenSession(e0, e1, 1);
    RunMore([e0, e1], e2);
    RunMore([e0, e1] + [e2], e3);
    assert [] + [e0] + [e1] == [e0, e1];
    var before, o := Run([e0, e1]), Run([e0, e1] + [e2]);
    hide Run, Apply, Register;
    DocumentsStep(before, e2);
    GraphStep(before, e2);
    CacheStep(before, e2);
    GraphStep(o, e3);
    CacheStep(o, e3);
    RegisterVersion(Lookup(o.graph, "a"), SOME_TABLE.(version := 2), false);
  }

  /** Without invalidations every table in the graph is also recorded in the cache. */
  lemma {:induction false} GraphIsCached(events: seq<Event>, uri: Uri)
    requires NoneDiesHalfway(events) && (forall i :: 0 <= i < |events| ==> !events[i].DropCacheEntry?)
    ensures uri in Run(events).graph <==> uri in Run(events).cache
  {
    hide Apply, PassesGates, Register;
    if events != [] {
      GraphIsCached(events[..|events| - 1], uri);
      CacheStep(Run(events[..|events| - 1]), events[|events| - 1]);
      GraphStep(Run(events[..|events| - 1]), events[|events| - 1]);
    }
  }

  /** When stored versions do not go down, a cached version never goes down either, whichever handlers die and
      whatever is dropped in between. */
  lemma {:induction false} CachedVersionNeverGoesBack(events: seq<Event>, k: nat, uri: Uri)
    requires VersionsDoNotGoDown(events) && k <= |events|
    requires uri in Run(events[..k]).cache && uri in Run(events).cache
    ensures Run(events[..k]).cache[uri].version <= Run(events).cache[uri].version
  {
    hide Apply, PassesGates, VersionsDoNotGoDown;
    if k == |events| {
      assert events[..k] == events;
    } else {
      var front, last := events[..|events| - 1], events[|events| - 1];
      assert front[..k] == events[..k];
      VersionsDoNotGoDownEarlier(events);
      CacheStep(Run(front), last);
      if Commits(Run(front), last) && last.uri == uri {
        CommitIsNotLate(front, last);
        CacheNotAheadOfGraph(events[..k], uri);
        GraphNeverGoesBack(front, k, uri);
      } else {
        CachedVersionNeverGoesBack(front, k, uri);
      }
    }
  }

  /** When stored versions do not go down, the cached version is at most the graph's and that at most the
      stored one; the first two are equal exactly when the last registration is at the version of the last
      recorded commit, and so whenever no commit dies between graph and cache. */
  lemma StoresAgree(events: seq<Event>, uri: Uri)
    requires VersionsDoNotGoDown(events) && uri in Run(events).cache
    ensures var o := Run(events);
            && uri in o.graph && o.cache[uri].version <= o.graph[uri].version
            && (uri in o.documents ==> o.graph[uri].version <= o.documents[uri].version)
            && (o.cache[uri].version == o.graph[uri].version <==> LastAdded(events, uri) == LastRecorded(events, uri))
            && (NoneDiesHalfway(events) ==> o.cache[uri].version == o.graph[uri].version)
  {
    hide Run, VersionsDoNotGoDown, NoneDiesHalfway, LastAdded, LastRecorded;
    CacheNotAheadOfGraph(events, uri);
    CacheAgreesExactlyWhenLastIsRecorded(events, uri);
    if NoneDiesHalfway(events) {
      CacheAgreesWithGraph(events, uri);
    }
    if uri in Run(events).documents {
      GraphNotAheadOfDocument(events, uri);
    }
  }

  /** When stored versions do not go down, a commit leaves document, graph and cache at exactly its
      version. */
  lemma CommitMakesGraphCurrent(events: seq<Event>, e: Event)
    requires VersionsDoNotGoDown(events) && Commits(Run(events), e)
    ensures var o := Apply(Run(events), e);
            && e.uri in o.documents && e.uri in o.graph && e.uri in o.cache
            && o.documents[e.uri].version == o.graph[e.uri].version == o.cache[e.uri].version == e.version
  {
    hide Run, VersionsDoNotGoDown, Apply, PassesGates;
    CommitIsNotLate(events, e);
    CommitHoldsItsVersion(Run(events), e);
    GateSeesStoredVersion(Run(events), e);
    DocumentsStep(Run(events), e);
  }

  /** In every run: a file that is ready at its stored version has exactly that version in the graph if
      and only if the graph is not ahead of the stored document. */
  lemma ReadyIsCurrentExactlyWhenGraphNotAhead(events: seq<Event>, uri: Uri, requested: int)
    requires uri in Run(events).latches && uri in Run(events).documents
    requires Run(events).documents[uri].version == RequiredVersion(Run(events).latches[uri], requested) >= 0
    requires SymbolsAreCurrent(Run(events), uri, requested)
    ensures var o := Run(events);
            && uri in o.graph
            && (o.graph[uri].version == o.documents[uri].version <==> o.graph[uri].version <= o.documents[uri].version)
  {
    hide Run;
    CacheNotAheadOfGraph(events, uri);
  }

  /** In every run, read off its events: a file that is ready at its stored version has exactly that version
      in the graph if and only if no table of it was ever registered at a higher one. */
  lemma ReadyIsCurrentExactlyWhenNoneAddedAbove(events: seq<Event>, uri: Uri, requested: int)
    requires uri in Run(events).latches && uri in Run(events).documents
    requires Run(events).documents[uri].version == RequiredVersion(Run(events).latches[uri], requested) >= 0
    requires SymbolsAreCurrent(Run(events), uri, requested)
    ensures uri in Run(events).graph
    ensures Run(events).graph[uri].version == Run(events).documents[uri].version
            <==> NoneAddedAbove(events, uri, Run(events).documents[uri].version)
  {
    hide Run, SymbolsAreCurrent, EverAdded;
    ReadyIsCurrentExactlyWhenGraphNotAhead(events, uri, requested);
    GraphVersionIsHighestRegistered(events, uri);
  }

  /** When stored versions do not go down, ready for the stored version means the graph holds
      exactly the stored version. */
  lemma ReadyMeansGraphIsCurrent(events: seq<Event>, uri: Uri, requested: int)
    requires VersionsDoNotGoDown(events)
    requires uri in Run(events).latches && uri in Run(events).documents
    requires Run(events).documents[uri].version == RequiredVersion(Run(events).latches[uri], requested) >= 0
    requires SymbolsAreCurrent(Run(events), uri, requested)
    ensures Run(events).graph[uri].version == Run(events).documents[uri].version
  {
    hide Run, VersionsDoNotGoDown, SymbolsAreCurrent;
    ReadyIsCurrentExactlyWhenGraphNotAhead(events, uri, requested);
    GraphNotAheadOfDocument(events, uri);
  }

  /** Ready for `required` means that the graph holds the stored version, in all runs in which stored
      versions do not go down. */
  ghost predicate ReadyImpliesStored(required: int, stored: int) {
    forall events, uri, requested ::
      VersionsDoNotGoDown(events) && ReadyAt(events, uri, requested, required, stored) ==>
        Run(events).graph[uri].version == stored
  }

  ghost predicate ReadyAt(events: seq<Event>, uri: Uri, requested: int, required: int, stored: int) {
    var o := Run(events);
    && uri in o.latches && RequiredVersion(o.latches[uri], requested) == required
    && StoredVersion(o, uri) == Some(stored)
    && SymbolsAreCurrent(o, uri, requested)
  }

  /** That is so exactly when the stored version is not past the required one.  It can be: an ingest stores
      without arming the latch. */
  lemma ReadyImpliesStoredExactly(required: int, stored: int)
    requires required >= 0
    ensures ReadyImpliesStored(required, stored) <==> stored <= required
  {
    hide Run, VersionsDoNotGoDown, SymbolsAreCurrent;
    if stored <= required {
      forall events, uri, requested | VersionsDoNotGoDown(events) && ReadyAt(events, uri, requested, required, stored)
        ensures uri in Run(events).graph && Run(events).graph[uri].version == stored
      {
        ReadyNotPastGraph(events, uri, requested);
        GraphNotAheadOfDocument(events, uri);
      }
    } else {
      IngestPassesTheLatch(required, stored);
    }
  }

  lemma ReadyNotPastGraph(events: seq<Event>, uri: Uri, requested: int)
    requires uri in Run(events).latches && RequiredVersion(Run(events).latches[uri], requested) >= 0
    requires SymbolsAreCurrent(Run(events), uri, requested)
    ensures uri in Run(events).graph
    ensures RequiredVersion(Run(events).latches[uri], requested) <= Run(events).graph[uri].version
  {
    hide Run;
    CacheNotAheadOfGraph(events, uri);
  }

  /** A file is opened and compiled at one version and then ingested at a later one: it still reads as ready
      for the latest armed version. */
  lemma IngestPassesTheLatch(required: int, stored: int)
    requires 0 <= required < stored
    ensures !ReadyImpliesStored(required, stored)
  {
    var e0, e1 := Store("a", Document(required, "")), Compiled("a", required, SOME_TABLE, false, Completes);
    var e2 := Ingest([("a", Document(stored, ""))]);
    var events := [] + [e0] + [e1] + [e2];
    IngestedLater(required, stored, e0, e1, e2);
    assert VersionsDoNotGoDown(events) by {
      StoredVersionsMore([], e0);
      StoredVersionsMore([] + [e0], e1);
      StoredVersionsMore([] + [e0] + [e1], e2);
      assert StoredVersions(events) == [("a", required), ("a", stored)];
    }
    hide Run, StoredVersions, SymbolsAreCurrent;
    assert ReadyAt(events, "a", -1, required, stored);
  }

  lemma StoredVersionsMore(events: seq<Event>, e: Event)
    ensures StoredVersions(events + [e]) == StoredVersions(events) + Stores(e)
  {
    assert (events + [e])[..|events|] == events;
  }

  lemma IngestedLater(required: int, stored: int, e0: Event, e1: Event, e2: Event)
    requires 0 <= required < stored
    requires e0 == Store("a", Document(required, "")) && e1 == Compiled("a", required, SOME_TABLE, false, Completes)
    requires e2 == Ingest([("a", Document(stored, ""))])
    ensures var events := [] + [e0] + [e1] + [e2];
            ReadyAt(events, "a", -1, required, stored) && Run(events).graph["a"].version == required
  {
    RunMore([], e0);
    RunMore([] + [e0], e1);
    RunMore([] + [e0] + [e1], e2);
    assert [("a", Document(stored, ""))][..0] == [];
    hide Run;
  }

  /** A file closed at version 5 and reopened at version 1 reads as ready for version 1 while the
      graph still holds the table of version 5. */
  lemma ReopenReadsAsReadyOnTheOldTable()
    ensures exists events ::
              var o := Run(events);
              && "a" in o.documents && "a" in o.latches && "a" in o.graph && "a" in o.cache
              && Peek(o, "a", o.documents["a"].version) == ReadyNow
              && o.cache["a"].version == o.documents["a"].version == o.latches["a"].version
              && o.graph["a"].version > o.documents["a"].version
  {
    var first, compiled := Store("a", Document(5, "")), Compiled("a", 5, SOME_TABLE, false, Completes);
    var reopened, recompiled := Store("a", Document(1, "")), Compiled("a", 1, SOME_TABLE, false, Completes);
    var session := [first, compiled, Close("a"), DropDocument("a"), DropCacheEntry("a")];
    ClosedSessionLeavesTable(first, compiled, session);
    RunMore(session, reopened);
    RunMore(session + [reopened], recompiled);
    hide Run;
    var o := Run(session + [reopened] + [recompiled]);
    assert o.graph["a"].version == 5 && o.cache["a"].version == 1;
    assert Peek(o, "a", o.documents["a"].version) == ReadyNow;
  }

  lemma ClosedSessionLeavesTable(first: Event, compiled: Event, session: seq<Event>)
    requires first == Store("a", Document(5, "")) && compiled == Compiled("a", 5, SOME_TABLE, false, Completes)
    requires session == [first, compiled, Close("a"), DropDocument("a"), DropCacheEntry("a")]
    ensures var o := Run(session);
            && o.documents == map[] && o.cache == map[] && o.latches == map[]
            && o.graph == map["a" := SOME_TABLE.(version := 5)]
  {
    var open := [first, compiled];
    OpenSession(first, compiled, 5);
    RunMore(open, Close("a"));
    RunMore(open + [Close("a")], DropDocument("a"));
    RunMore(open + [Close("a")] + [DropDocument("a")], DropCacheEntry("a"));
    assert open + [Close("a")] + [DropDocument("a")] + [DropCacheEntry("a")] == session;
    hide Run;
  }

  lemma OpenSession(first: Event, compiled: Event, version: int)
    requires first == Store("a", Document(version, ""))
    requires compiled == Compiled("a", version, SOME_TABLE, false, Completes)
    ensures var o := Run([first, compiled]);
            && o.documents == map["a" := Document(version, "")] && o.cache == map["a" := CacheEntry(version, PublicApi)]
            && o.latches.Keys == {"a"} && o.graph == map["a" := SOME_TABLE.(version := version)]
  {
    RunMore([], first);
    RunMore([] + [first], compiled);
    assert [] + [first] + [compiled] == [first, compiled];
    hide Run;
  }
}
