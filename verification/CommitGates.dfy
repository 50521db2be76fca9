/** Which commits are accepted and what they leave behind, read off documents and cache alone. */
module CommitGates {
  import opened SymbolGraph
  import opened OwnerModel
  import opened VersionRuns
  import opened WriteBackRuns

  /** The document is at the commit's version; a write-back also has something new for the cache. */
  predicate Acceptable(o: Owner, e: Event)
    requires e.WriteBack? || e.Compiled?
  {
    && StoredAt(o.documents, e.uri, e.version)
    && (e.WriteBack? ==> Enriches(o.cache, e.uri, e.version, e.level))
  }

  lemma PassesExactlyWhenAcceptable(o: Owner, e: Event)
    requires e.WriteBack? || e.Compiled?
    ensures PassesGates(o, e) <==> Acceptable(o, e)
  {
    LevelsAreOrdered();
  }

  /** An acceptable commit registers its table at its version and records version and level in the cache,
      as far as it lives to; one that is not changes neither.  No commit changes a document. */
  lemma CommitTakenExactly(o: Owner, e: Event)
    requires e.WriteBack? || e.Compiled?
    ensures var o' := Apply(o, e);
            && o'.documents == o.documents
            && o'.graph == (if Acceptable(o, e) && !e.fate.DiesFirst?
                            then o.graph[e.uri := Register(Lookup(o.graph, e.uri), e.table.(version := e.version),
                                                           e.Compiled? && e.hasErrors)]
                            else o.graph)
            && o'.cache == (if Acceptable(o, e) && (e.fate.Completes? || e.fate.DiesBeforeRelease?)
                            then o.cache[e.uri := CacheEntry(e.version, if e.WriteBack? then e.level else PublicApi)]
                            else o.cache)
  {
    hide Apply, PassesGates, Acceptable, Register;
    PassesExactlyWhenAcceptable(o, e);
    StoresStep(o, e);
  }

  /** A stored symbol of a file is lost exactly to an acceptable commit of a newer version that lacks it and
      is not suspect. */
  lemma SymbolIsLostToNewerCommit(o: Owner, e: Event, uri: Uri, key: string)
    requires uri in o.graph && key in o.graph[uri].symbols
    ensures uri in Apply(o, e).graph
    ensures key !in Apply(o, e).graph[uri].symbols
            <==> && (e.WriteBack? || e.Compiled?) && e.uri == uri && !e.fate.DiesFirst? && Acceptable(o, e)
                 && e.version > o.graph[uri].version && !Suspect(e.table, e.Compiled? && e.hasErrors)
                 && key !in e.table.symbols
  {
    hide Apply, PassesGates, Acceptable, Register;
    GraphStep(o, e);
    if e.WriteBack? || e.Compiled? {
      PassesExactlyWhenAcceptable(o, e);
      SymbolIsLostExactly(o.graph[uri], e.table.(version := e.version), CommitErrors(e), key);
    }
  }

  // -- Counters ------------------------------------------------------------------------

  predicate CountsAsMissing(o: Owner, e: Event) {
    e.WriteBack? && !e.fate.DiesFirst? && e.uri !in o.documents
  }

  predicate CountsAsMismatched(o: Owner, e: Event) {
    e.WriteBack? && !e.fate.DiesFirst? && e.uri in o.documents && o.documents[e.uri].version != e.version
  }

  predicate CountsAsSkipped(o: Owner, e: Event) {
    && e.WriteBack? && !e.fate.DiesFirst?
    && StoredAt(o.documents, e.uri, e.version) && !Enriches(o.cache, e.uri, e.version, e.level)
  }

  predicate CountsAsAccepted(o: Owner, e: Event) {
    e.WriteBack? && (e.fate.Completes? || e.fate.DiesBeforeRelease?) && Acceptable(o, e)
  }

  /** How many events of the run are met in a state where `p` holds of them. */
  function Meeting(events: seq<Event>, p: (Owner, Event) -> bool): nat {
    if events == [] then 0
    else
      var front, last := events[..|events| - 1], events[|events| - 1];
      Meeting(front, p) + if p(Run(front), last) then 1 else 0
  }

  lemma CountersStep(o: Owner, e: Event)
    ensures var m, m' := o.metrics, Apply(o, e).metrics;
            && m'.attempted == m.attempted + (if e.WriteBack? then 1 else 0)
            && m'.missing == m.missing + (if CountsAsMissing(o, e) then 1 else 0)
            && m'.mismatched == m.mismatched + (if CountsAsMismatched(o, e) then 1 else 0)
            && m'.levelSkipped == m.levelSkipped + (if CountsAsSkipped(o, e) then 1 else 0)
            && m'.accepted == m.accepted + (if CountsAsAccepted(o, e) then 1 else 0)
  {
    hide Apply;
    MetricsStep(o, e);
    LevelsAreOrdered();
  }

  /** Over every run each counter is the number of write-backs with its outcome, as documents and cache
      were when they were met. */
  lemma {:induction false} CountersAreExact(events: seq<Event>)
    ensures var m := Run(events).metrics;
            && m.attempted == WriteBacks(events)
            && m.missing == Meeting(events, CountsAsMissing)
            && m.mismatched == Meeting(events, CountsAsMismatched)
            && m.levelSkipped == Meeting(events, CountsAsSkipped)
            && m.accepted == Meeting(events, CountsAsAccepted)
  {
    if events != [] {
      var front, last := events[..|events| - 1], events[|events| - 1];
      CountersAreExact(front);
      hide Apply, CountsAsMissing, CountsAsMismatched, CountsAsSkipped, CountsAsAccepted;
      CountersStep(Run(front), last);
    }
  }
}
