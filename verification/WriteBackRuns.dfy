/** Enrichment write-backs over every run: their order, their number, and the honesty of the
    detail level the cache records. */
module WriteBackRuns {
  import opened Prelude
  import opened SymbolGraph
  import opened OwnerModel
  import opened VersionRuns

  // -- The worker's end ----------------------------------------------------------------

  /** `writeBackEnrichedSymbols`: the request a worker sends for its own table, if any.  The level
      sent is the level the table reached, never the level that was asked for. */
  function WriteBackRequest(table: Option<Table>, uri: Uri, version: int, required: Level): Option<Event> {
    if table.None? then None
    else
      var actual := DetailLevel(table.value);
      if actual.None? || ShouldEnrich(actual, required) then None
      else Some(WriteBack(uri, version, table.value, actual.value, Completes))
  }

  /** A request claims exactly the level of the table it carries; none is sent short of the level
      that was asked for; and no worker ever claims `private`. */
  lemma WorkerClaimsWhatItCarries(table: Option<Table>, uri: Uri, version: int, required: Level)
    ensures var r := WriteBackRequest(table, uri, version, required);
            && (r.Some? <==> table.Some? && Order(DetailLevel(table.value)) >= Order(Some(required)))
            && (r.Some? ==> CarriesItsLevel(r.value))
            && (r.Some? ==> Some(r.value.level) == DetailLevel(r.value.table) && r.value.level != Private
                            && r.value.table == table.value && r.value.uri == uri && r.value.version == version)
  {
    if table.Some? {
      DetailLevelIsRichest(table.value);
    }
  }

  // -- Honest levels -------------------------------------------------------------------

  /** The level recorded for a file does not exceed the level of its table in the graph. */
  predicate Honest(o: Owner, uri: Uri) {
    uri in o.cache ==> uri in o.graph && Order(Some(o.cache[uri].level)) <= Order(DetailLevel(o.graph[uri]))
  }

  /** What the commits carry: write-backs claim no more than their table has, and compiled tables
      have reached public-api. */
  ghost predicate CarriesItsLevel(e: Event) {
    (e.WriteBack? || e.Compiled?) ==> Order(Some(CommitLevel(e))) <= Order(DetailLevel(e.table))
  }

  lemma StampKeepsLevel(t: Table, version: int)
    ensures DetailLevel(t.(version := version)) == DetailLevel(t)
  {
  }

  /** The event registers a table in place of a richer recorded one and dies before recording its own level. */
  predicate LosesLevel(o: Owner, e: Event, uri: Uri) {
    && Adds(o, e) && !Commits(o, e) && e.uri == uri && uri in o.cache
    && Decide(Lookup(o.graph, uri), e.table.(version := e.version), CommitErrors(e)) == AcceptedReplace
    && Order(Some(o.cache[uri].level)) > Order(DetailLevel(e.table))
  }

  /** No event of the run does so. */
  ghost predicate LosesNoLevel(events: seq<Event>, uri: Uri) {
    forall i :: 0 <= i < |events| ==> !LosesLevel(Run(events[..i]), events[i], uri)
  }

  /** A registration that is not late keeps an honest record honest exactly when it does not lose the level. */
  lemma RegistrationKeepsHonest(o: Owner, e: Event, uri: Uri)
    requires Honest(o, uri) && CarriesItsLevel(e)
    requires Adds(o, e) ==> (e.uri in o.graph ==> o.graph[e.uri].version <= e.version)
    ensures Honest(Apply(o, e), uri) <==> !LosesLevel(o, e, uri)
  {
    hide Apply, PassesGates, Merge, DetailLevel, Register, Decide;
    CacheStep(o, e);
    GraphStep(o, e);
    if Commits(o, e) && e.uri == uri {
      CommitIsHonest(o, e);
    } else if Adds(o, e) && e.uri == uri && uri in o.cache {
      StampKeepsLevel(e.table, e.version);
      RegisteredLevel(o.graph[uri], e.table.(version := e.version), CommitErrors(e));
    }
  }

  /** The level a registration that is not late leaves: the new table's, or the richer of the two. */
  lemma RegisteredLevel(stored: Table, incoming: Table, hasErrors: bool)
    requires stored.version <= incoming.version
    ensures var replaced := Decide(Some(stored), incoming, hasErrors) == AcceptedReplace;
            Order(DetailLevel(Register(Some(stored), incoming, hasErrors)))
            == if replaced then Order(DetailLevel(incoming))
               else Max(Order(DetailLevel(stored)), Order(DetailLevel(incoming)))
  {
    hide Merge, DetailLevel;
    MergeReachesRicherLevel(stored, incoming);
  }

  /** Over every run in which stored versions do not go down and every commit carries the level it records,
      whichever handlers die: the recorded level is honest at every moment exactly when no registration
      that replaces the file's table dies unrecorded with less than the recorded level. */
  lemma {:induction false} HonestExactlyWhenNoLevelIsLost(events: seq<Event>, uri: Uri)
    requires VersionsDoNotGoDown(events) && forall i :: 0 <= i < |events| ==> CarriesItsLevel(events[i])
    ensures (forall k :: 0 <= k <= |events| ==> Honest(Run(events[..k]), uri)) <==> LosesNoLevel(events, uri)
  {
    hide Run, Honest, LosesLevel, CarriesItsLevel, VersionsDoNotGoDown;
    if events == [] {
      NothingRecorded(uri);
      assert events[..0] == [];
    } else {
      var n := |events| - 1;
      var front := events[..n];
      VersionsDoNotGoDownEarlier(events);
      HonestExactlyWhenNoLevelIsLost(front, uri);
      assert forall k :: 0 <= k <= n ==> front[..k] == events[..k];
      assert front[..n] == front && events[..n + 1] == events && events[..n] == front;
      assert forall i :: 0 <= i < n ==> front[i] == events[i];
      assert LosesNoLevel(events, uri) <==> LosesNoLevel(front, uri) && !LosesLevel(Run(front), events[n], uri);
      if Honest(Run(front), uri) {
        StepKeepsHonest(events, uri);
      }
      assert (forall k :: 0 <= k <= |events| ==> Honest(Run(events[..k]), uri))
             <==> (forall k :: 0 <= k <= n ==> Honest(Run(front[..k]), uri)) && Honest(Run(events), uri);
    }
  }

  lemma NothingRecorded(uri: Uri)
    ensures Honest(Run([]), uri)
  {
  }

  lemma StepKeepsHonest(events: seq<Event>, uri: Uri)
    requires events != [] && VersionsDoNotGoDown(events[..|events| - 1]) && CarriesItsLevel(events[|events| - 1])
    requires Honest(Run(events[..|events| - 1]), uri)
    ensures Honest(Run(events), uri) <==> !LosesLevel(Run(events[..|events| - 1]), events[|events| - 1], uri)
  {
    hide Apply, Honest, LosesLevel, CarriesItsLevel, VersionsDoNotGoDown, PassesGates;
    var front, last := events[..|events| - 1], events[|events| - 1];
    if Adds(Run(front), last) {
      CommitIsNotLate(front, last);
    }
    RegistrationKeepsHonest(Run(front), last, uri);
  }

  /** So it is in every such run in which no commit dies between graph and cache. */
  lemma LevelsAreHonest(events: seq<Event>, uri: Uri)
    requires VersionsDoNotGoDown(events) && NoneDiesHalfway(events)
    requires forall i :: 0 <= i < |events| ==> CarriesItsLevel(events[i])
    ensures Honest(Run(events), uri)
  {
    hide Run, Honest, CarriesItsLevel, VersionsDoNotGoDown, PassesGates;
    assert events[..|events|] == events;
    HonestExactlyWhenNoLevelIsLost(events, uri);
  }

  /** A commit that is not late is honest exactly when the table it leaves has reached the level it
      records, and it does so whenever the table it brings has. */
  lemma CommitIsHonest(o: Owner, e: Event)
    requires Commits(o, e) && (e.uri in o.graph ==> o.graph[e.uri].version <= e.version)
    ensures var o' := Apply(o, e);
            && e.uri in o'.graph
            && (Honest(o', e.uri) <==> Order(DetailLevel(o'.graph[e.uri])) >= Order(Some(CommitLevel(e))))
            && (CarriesItsLevel(e) ==> Honest(o', e.uri))
  {
    hide Apply, PassesGates, Merge, DetailLevel, Register;
    CacheStep(o, e);
    GraphStep(o, e);
    StampKeepsLevel(e.table, e.version);
    RegisterReachesLevel(Lookup(o.graph, e.uri), e.table.(version := e.version), CommitErrors(e));
  }

  predicate HasLevel(t: Table) {
    exists k :: k in t.symbols && t.symbols[k].level.Some?
  }

  /** A compile commit is honest exactly when some symbol has a level: of its table if it replaces the
      stored one, of either if they are merged, and of the stored one if its own is stale.  A file with
      no symbols is recorded as public-api all the same. */
  lemma CompileCommitHonestExactlyWithSymbols(o: Owner, e: Event)
    requires e.Compiled? && Commits(o, e)
    ensures Honest(Apply(o, e), e.uri) <==>
            match Decide(Lookup(o.graph, e.uri), e.table.(version := e.version), e.hasErrors)
            case AcceptedReplace => HasLevel(e.table)
            case RejectedStale => HasLevel(o.graph[e.uri])
            case _ => HasLevel(e.table) || HasLevel(o.graph[e.uri])
  {
    hide Apply, PassesGates, Merge, DetailLevel, HasLevel;
    CacheStep(o, e);
    GraphStep(o, e);
    StampKeepsLevel(e.table, e.version);
    LevelNeedsSymbol(e.table);
    if e.uri in o.graph {
      LevelNeedsSymbol(o.graph[e.uri]);
      MergeReachesRicherLevel(o.graph[e.uri], e.table.(version := e.version));
    }
  }

  lemma LevelNeedsSymbol(t: Table)
    ensures DetailLevel(t).Some? <==> HasLevel(t)
  {
  }

  // -- Order and number of accepted write-backs ----------------------------------------

  /** Lexicographic order on (version, level); nothing recorded is below everything. */
  predicate Below(c: Option<CacheEntry>, c': Option<CacheEntry>) {
    && c'.Some?
    && (c.Some? ==>
          || c.value.version < c'.value.version
          || (c.value.version == c'.value.version && Order(Some(c.value.level)) < Order(Some(c'.value.level))))
  }

  /** An accepted write-back raises the cached (version, level) exactly when it is not for a version
      older than the cached one; a rejected one leaves graph and cache as they were. */
  lemma WriteBackRaisesOrLeaves(o: Owner, e: Event)
    requires e.WriteBack? && e.fate.Completes?
    ensures var o' := Apply(o, e);
            && (Commits(o, e) ==>
                  (Below(Lookup(o.cache, e.uri), Lookup(o'.cache, e.uri))
                   <==> (e.uri in o.cache ==> o.cache[e.uri].version <= e.version)))
            && (!Commits(o, e) ==> o'.graph == o.graph && o'.cache == o.cache)
            && (Commits(o, e) <==> StoredAt(o.documents, e.uri, e.version) && Enriches(o.cache, e.uri, e.version, e.level))
  {
    hide Apply;
    CacheStep(o, e);
    GraphStep(o, e);
  }

  /** When stored versions do not go down, every accepted write-back raises it. */
  lemma AcceptedWriteBackRaises(events: seq<Event>, e: Event)
    requires VersionsDoNotGoDown(events)
    requires e.WriteBack? && e.fate.Completes? && Commits(Run(events), e)
    ensures Below(Lookup(Run(events).cache, e.uri), Lookup(Apply(Run(events), e).cache, e.uri))
  {
    hide Run, VersionsDoNotGoDown, Apply, PassesGates;
    WriteBackRaisesOrLeaves(Run(events), e);
    CommitIsNotLate(events, e);
    if e.uri in Run(events).cache {
      CacheNotAheadOfGraph(events, e.uri);
    }
  }

  /** How many write-backs of `uri` at `version` the run accepts from its `from`-th event on. */
  function AcceptedFrom(events: seq<Event>, from: nat, uri: Uri, version: int): nat {
    if |events| <= from then 0
    else
      var front, last := events[..|events| - 1], events[|events| - 1];
      AcceptedFrom(front, from, uri, version)
      + if last.WriteBack? && last.uri == uri && last.version == version && Commits(Run(front), last) then 1 else 0
  }

  /** From its `from`-th event on, the run neither commits a compile of `uri` nor drops its cache entry. */
  ghost predicate OnlyWriteBacks(events: seq<Event>, from: nat, uri: Uri) {
    forall i :: from <= i < |events| ==>
      !(events[i].Compiled? && events[i].uri == uri) && !(events[i].DropCacheEntry? && events[i].uri == uri)
  }

  /** How far up the four levels the cache is, for this version. */
  function LevelReached(o: Owner, uri: Uri, version: int): nat {
    if uri !in o.cache || o.cache[uri].version < version then 0
    else if o.cache[uri].version == version then Order(Some(o.cache[uri].level))
    else 4
  }

  lemma WriteBackClimbs(events: seq<Event>, e: Event, uri: Uri, version: int)
    requires VersionsDoNotGoDown(events) && !(e.Compiled? && e.uri == uri) && !(e.DropCacheEntry? && e.uri == uri)
    ensures LevelReached(Apply(Run(events), e), uri, version)
            >= LevelReached(Run(events), uri, version)
               + if e.WriteBack? && e.uri == uri && e.version == version && Commits(Run(events), e) then 1 else 0
  {
    hide Run, VersionsDoNotGoDown, Apply;
    var o := Run(events);
    CacheStep(o, e);
    if Commits(o, e) && e.uri == uri {
      CommitIsNotLate(events, e);
      if uri in o.cache {
        CacheNotAheadOfGraph(events, uri);
      }
    }
  }

  /** When stored versions do not go down, at most four write-backs of one file and version are
      accepted between compile commits (and cache invalidations). */
  lemma {:induction false} AtMostFourAccepted(events: seq<Event>, from: nat, uri: Uri, version: int)
    requires VersionsDoNotGoDown(events) && OnlyWriteBacks(events, from, uri)
    ensures AcceptedFrom(events, from, uri, version) <= LevelReached(Run(events), uri, version) <= 4
    decreases |events|
  {
    if |events| > from {
      var front, last := events[..|events| - 1], events[|events| - 1];
      assert OnlyWriteBacks(front, from, uri) && last == events[|events| - 1];
      VersionsDoNotGoDownEarlier(events);
      AtMostFourAccepted(front, from, uri, version);
      WriteBackClimbs(front, last, uri, version);
    }
  }

  // -- Counters ------------------------------------------------------------------------

  /** How many write-backs die before they are counted: before the checks, or past them and before the
      cache has been updated. */
  function DiedUncounted(events: seq<Event>): nat {
    if events == [] then 0
    else
      var front, last := events[..|events| - 1], events[|events| - 1];
      DiedUncounted(front)
      + if last.WriteBack? && (last.fate.DiesFirst? || (last.fate.DiesAfterMerge? && PassesGates(Run(front), last)))
        then 1 else 0
  }

  function WriteBacks(events: seq<Event>): nat {
    if events == [] then 0 else WriteBacks(events[..|events| - 1]) + if events[|events| - 1].WriteBack? then 1 else 0
  }

  /** Every attempted write-back is counted once more: as accepted, in one of the three rejection
      counters, or not at all when it died in between. */
  lemma {:induction false} CountersBalance(events: seq<Event>)
    ensures var m := Run(events).metrics;
            && m.attempted == WriteBacks(events)
            && m.attempted == m.accepted + m.mismatched + m.missing + m.levelSkipped + DiedUncounted(events)
  {
    if events != [] {
      var front, last := events[..|events| - 1], events[|events| - 1];
      CountersBalance(front);
      hide Apply, WriteBackGate, Run;
      MetricsStep(Run(front), last);
    }
  }

  lemma MetricsStep(o: Owner, e: Event)
    ensures Apply(o, e).metrics
            == if e.WriteBack? then Count(o.metrics, WriteBackGate(o, e.uri, e.version, e.level), e.fate) else o.metrics
  {
    hide StoreAll, Register, Commit, Reject, Arm, Resolve, WriteBackGate, CompileGate, Count;
    match e
    case WriteBack(_, _, _, _, _) => hide Apply; StoresStep(o, e);
    case Compiled(_, _, _, _, _) => hide Apply; StoresStep(o, e);
    case Release(uri, version) => ResolveIsQuiet(o, uri, version);
    case Store(uri, document) => ArmIsQuiet(o.(documents := o.documents[uri := document]), uri, document.version);
    case _ =>
  }
}
