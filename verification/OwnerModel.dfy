/** The data-owner's state and what each of its handlers does to it.

    Every handler runs as one item of the serial queue, so a handler is one step.  Three things
    are steps of their own: a latch is released on account of a compile that failed (`Release`;
    module WorkspaceBatch says when that happens), the asynchronous tail of a document close
    deletes the document (`DropDocument`) and later its cache entry (`DropCacheEntry`, which is
    also what eviction and invalidation do). */
module OwnerModel {
  import opened Prelude
  import opened SymbolGraph

  type Uri = string

  datatype Document = Document(version: int, content: string)

  /** What the document-state cache records of the last accepted commit. */
  datatype CacheEntry = CacheEntry(version: int, level: Level)

  /** `deferred` names the Deferred that awaiters of this latch hold. */
  datatype Latch = Latch(version: int, deferred: nat, settled: bool)

  datatype Metrics = Metrics(attempted: nat, accepted: nat, mismatched: nat, missing: nat, levelSkipped: nat)

  datatype Owner = Owner(
    documents: map<Uri, Document>,
    graph: map<Uri, Table>,
    cache: map<Uri, CacheEntry>,
    latches: map<Uri, Latch>,
    made: seq<(Uri, int)>,    // for each latch Deferred ever made, what it was made for
    completed: set<nat>,      // the completed ones
    metrics: Metrics)

  const FRESH := Owner(map[], map[], map[], map[], [], {}, Metrics(0, 0, 0, 0, 0))

  // -- Readiness latches ---------------------------------------------------------------

  function Settle(o: Owner, uri: Uri): Owner
    requires uri in o.latches
  {
    var latch := o.latches[uri];
    o.(latches := o.latches[uri := latch.(settled := true)], completed := o.completed + {latch.deferred})
  }

  /** `armReadiness` */
  function Arm(o: Owner, uri: Uri, version: int): Owner {
    if uri in o.latches && o.latches[uri].version == version then o
    else
      var o1 := if uri in o.latches && !o.latches[uri].settled then Settle(o, uri) else o;
      o1.(latches := o1.latches[uri := Latch(version, |o1.made|, false)], made := o1.made + [(uri, version)])
  }

  /** `resolveReadiness` */
  function Resolve(o: Owner, uri: Uri, version: int): Owner {
    if uri in o.latches && o.latches[uri].version == version && !o.latches[uri].settled then Settle(o, uri) else o
  }

  /** `clearReadiness` */
  function Clear(o: Owner, uri: Uri): Owner {
    var o1 := if uri in o.latches && !o.latches[uri].settled then Settle(o, uri) else o;
    o1.(latches := o1.latches - {uri})
  }

  // -- Commits -------------------------------------------------------------------------

  function Lookup<V>(m: map<Uri, V>, uri: Uri): Option<V> {
    if uri in m then Some(m[uri]) else None
  }

  function StoredVersion(o: Owner, uri: Uri): Option<int> {
    if uri in o.documents then Some(o.documents[uri].version) else None
  }

  function CachedVersion(o: Owner, uri: Uri): int {
    if uri in o.cache then o.cache[uri].version else -1
  }

  function CachedLevel(o: Owner, uri: Uri): Option<Level> {
    if uri in o.cache then Some(o.cache[uri].level) else None
  }

  /** `addSymbolTable`, which stamps the table with the version it is registered at. */
  function AddTable(o: Owner, uri: Uri, version: int, table: Table, hasErrors: bool): Owner {
    o.(graph := o.graph[uri := Register(Lookup(o.graph, uri), table.(version := version), hasErrors)])
  }

  function MergeCache(o: Owner, uri: Uri, version: int, level: Level): Owner {
    o.(cache := o.cache[uri := CacheEntry(version, level)])
  }

  /** Whether a handler runs to the end, or dies with a defect: before it changes anything but the count
      of attempts, between the graph and the cache, or between the cache and the latch.  A rejecting
      handler that dies later than first dies before the release. */
  datatype Fate = Completes | DiesFirst | DiesAfterMerge | DiesBeforeRelease {
    predicate Adds() { !DiesFirst? }
    predicate Records() { Completes? || DiesBeforeRelease? }
  }

  datatype Event =
    | Store(uri: Uri, document: Document)               // open, change and save: store, then arm
    | Ingest(entries: seq<(Uri, Document)>)             // a workspace batch: store only
    | Close(uri: Uri)
    | DropDocument(uri: Uri)
    | DropCacheEntry(uri: Uri)
    | WriteBack(uri: Uri, version: int, table: Table, level: Level, fate: Fate)
    | Compiled(uri: Uri, version: int, table: Table, hasErrors: bool, fate: Fate)
    | Release(uri: Uri, version: int)

  /** The document is there, at exactly this version. */
  predicate StoredAt(documents: map<Uri, Document>, uri: Uri, version: int) {
    uri in documents && documents[uri].version == version
  }

  /** The cache records nothing for the file, or an older version, or a poorer level. */
  predicate Enriches(cache: map<Uri, CacheEntry>, uri: Uri, version: int, level: Level) {
    uri in cache ==> cache[uri].version < version || Order(Some(cache[uri].level)) < Order(Some(level))
  }

  datatype Gate = DocumentMissing | VersionMismatch | LevelSkip | Accept

  /** The checks of `UpdateSymbolSubset`. */
  function WriteBackGate(o: Owner, uri: Uri, version: int, level: Level): Gate {
    if uri !in o.documents then DocumentMissing
    else if o.documents[uri].version != version then VersionMismatch
    else if version <= CachedVersion(o, uri) && Order(Some(level)) <= Order(CachedLevel(o, uri)) then LevelSkip
    else Accept
  }

  /** The checks of a compile commit. */
  function CompileGate(o: Owner, uri: Uri, version: int): Gate {
    if uri !in o.documents then DocumentMissing
    else if o.documents[uri].version != version then VersionMismatch
    else Accept
  }

  function Count(m: Metrics, g: Gate, fate: Fate): Metrics {
    Tally(m.(attempted := m.attempted + 1), g, fate)
  }

  /** The counter of the outcome, if the handler lives to count it. */
  function Tally(m: Metrics, g: Gate, fate: Fate): Metrics {
    if fate.DiesFirst? then m
    else match g
      case DocumentMissing => m.(missing := m.missing + 1)
      case VersionMismatch => m.(mismatched := m.mismatched + 1)
      case LevelSkip => m.(levelSkipped := m.levelSkipped + 1)
      case Accept => if fate.Records() then m.(accepted := m.accepted + 1) else m
  }

  /** A commit past its gates: the table goes to the graph, the cache follows, the latch opens. */
  function Commit(o: Owner, uri: Uri, version: int, table: Table, hasErrors: bool, level: Level, fate: Fate): Owner {
    var o1 := if fate.Adds() then AddTable(o, uri, version, table, hasErrors) else o;
    var o2 := if fate.Records() then MergeCache(o1, uri, version, level) else o1;
    if fate.Completes? then Resolve(o2, uri, version) else o2
  }

  function Reject(o: Owner, uri: Uri, version: int, fate: Fate): Owner {
    if fate.Completes? then Resolve(o, uri, version) else o
  }

  function StoreAll(documents: map<Uri, Document>, entries: seq<(Uri, Document)>): map<Uri, Document> {
    if entries == [] then documents
    else StoreAll(documents, entries[..|entries| - 1])[entries[|entries| - 1].0 := entries[|entries| - 1].1]
  }

  function Apply(o: Owner, e: Event): Owner {
    match e
    case Store(uri, document) => Arm(o.(documents := o.documents[uri := document]), uri, document.version)
    case Ingest(entries) => o.(documents := StoreAll(o.documents, entries))
    case Close(uri) => Clear(o, uri)
    case DropDocument(uri) => o.(documents := o.documents - {uri})
    case DropCacheEntry(uri) => o.(cache := o.cache - {uri})
    case WriteBack(uri, version, table, level, fate) =>
      var g := WriteBackGate(o, uri, version, level);
      var o1 := o.(metrics := Count(o.metrics, g, fate));
      if g == Accept then Commit(o1, uri, version, table, false, level, fate) else Reject(o1, uri, version, fate)
    case Compiled(uri, version, table, hasErrors, fate) =>
      if CompileGate(o, uri, version) == Accept then Commit(o, uri, version, table, hasErrors, PublicApi, fate)
      else Reject(o, uri, version, fate)
    case Release(uri, version) => Resolve(o, uri, version)
  }

  /** The state after a run. */
  function Run(events: seq<Event>): Owner {
    if events == [] then FRESH else Apply(Run(events[..|events| - 1]), events[|events| - 1])
  }

  lemma RunMore(events: seq<Event>, e: Event)
    ensures Run(events + [e]) == Apply(Run(events), e)
  {
    assert (events + [e])[..|events|] == events;
  }

  predicate PassesGates(o: Owner, e: Event)
    requires e.WriteBack? || e.Compiled?
  {
    if e.WriteBack? then WriteBackGate(o, e.uri, e.version, e.level) == Accept
    else CompileGate(o, e.uri, e.version) == Accept
  }

  /** `e`, met in state `o`, registers its table. */
  predicate Adds(o: Owner, e: Event) {
    (e.WriteBack? || e.Compiled?) && e.fate.Adds() && PassesGates(o, e)
  }

  /** `e`, met in state `o`, is an accepted commit: table registered and recorded in the cache. */
  predicate Commits(o: Owner, e: Event) {
    (e.WriteBack? || e.Compiled?) && e.fate.Records() && PassesGates(o, e)
  }

  function CommitLevel(e: Event): Level
    requires e.WriteBack? || e.Compiled?
  {
    if e.WriteBack? then e.level else PublicApi
  }

  function CommitErrors(e: Event): bool
    requires e.WriteBack? || e.Compiled?
  {
    e.Compiled? && e.hasErrors
  }

  /** `e` is the end of a commit or write-back that did not die, or a release. */
  predicate Terminal(e: Event) {
    (e.WriteBack? && e.fate.Completes?) || (e.Compiled? && e.fate.Completes?) || e.Release?
  }

  // -- Queries -------------------------------------------------------------------------

  function RequiredVersion(latch: Latch, requested: int): int {
    if requested < 0 then latch.version else Max(requested, latch.version)
  }

  /** `symbolsAreCurrent`, with the presence of a table read from the graph. */
  predicate SymbolsAreCurrent(o: Owner, uri: Uri, requested: int) {
    uri in o.graph && (uri in o.latches ==> CachedVersion(o, uri) >= RequiredVersion(o.latches[uri], requested))
  }

  datatype Snapshot = ReadyNow | NoLatch | Superseded | Await(deferred: nat)

  /** `peekReadiness` */
  function Peek(o: Owner, uri: Uri, requested: int): Snapshot {
    if SymbolsAreCurrent(o, uri, requested) then ReadyNow
    else if uri !in o.latches then NoLatch
    else if requested >= 0 && o.latches[uri].version > requested then Superseded
    else Await(o.latches[uri].deferred)
  }
}
