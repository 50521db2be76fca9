/** The data-owner's handlers over its mutable maps, against the transition system. */
module DataOwner {
  import opened Prelude
  import opened SymbolGraph
  import opened OwnerModel

  datatype WriteBackResponse = WriteBackResponse(accepted: bool, merged: nat, versionMismatch: bool)

  class DataOwner {
    var documents: map<Uri, Document>       // storage
    var graph: map<Uri, Table>              // symbol manager
    var cache: map<Uri, CacheEntry>         // document-state cache
    var readinessLatches: map<Uri, Latch>
    var completed: set<nat>                 // completed latch Deferreds
    var attempted: nat
    var accepted: nat
    var rejectedVersionMismatch: nat
    var rejectedDocumentMissing: nat
    var rejectedDetailLevel: nat
    var nextDeferred: nat
    ghost var made: seq<(Uri, int)>

    ghost function State(): Owner
      reads this
    {
      Owner(documents, graph, cache, readinessLatches, made, completed,
            Metrics(attempted, accepted, rejectedVersionMismatch, rejectedDocumentMissing, rejectedDetailLevel))
    }

    ghost predicate Valid()
      reads this
    {
      nextDeferred == |made|
    }

    constructor ()
      ensures Valid() && State() == FRESH
    {
      documents, graph, cache, readinessLatches, completed := map[], map[], map[], map[], {};
      attempted, accepted, rejectedVersionMismatch, rejectedDocumentMissing, rejectedDetailLevel := 0, 0, 0, 0, 0;
      nextDeferred, made := 0, [];
    }

    method ArmReadiness(uri: Uri, version: int)
      requires Valid()
      modifies this
      ensures Valid() && State() == Arm(old(State()), uri, version)
    {
      if uri in readinessLatches {
        var existing := readinessLatches[uri];
        if existing.version == version {
          return;
        }
        if !existing.settled {
          readinessLatches := readinessLatches[uri := existing.(settled := true)];
          completed := completed + {existing.deferred};
        }
      }
      readinessLatches := readinessLatches[uri := Latch(version, nextDeferred, false)];
      nextDeferred := nextDeferred + 1;
      made := made + [(uri, version)];
    }

    method ResolveReadiness(uri: Uri, version: int)
      requires Valid()
      modifies this
      ensures Valid() && State() == Resolve(old(State()), uri, version)
    {
      if uri in readinessLatches {
        var latch := readinessLatches[uri];
        if latch.version == version && !latch.settled {
          readinessLatches := readinessLatches[uri := latch.(settled := true)];
          completed := completed + {latch.deferred};
        }
      }
    }

    method ClearReadiness(uri: Uri)
      requires Valid()
      modifies this
      ensures Valid() && State() == Clear(old(State()), uri)
    {
      if uri in readinessLatches {
        var latch := readinessLatches[uri];
        if !latch.settled {
          readinessLatches := readinessLatches[uri := latch.(settled := true)];
          completed := completed + {latch.deferred};
        }
      }
      readinessLatches := readinessLatches - {uri};
    }

    method SymbolsCurrent(uri: Uri, requested: int, hasSymbols: bool) returns (current: bool)
      ensures hasSymbols == (uri in graph) ==> current == SymbolsAreCurrent(State(), uri, requested)
      ensures !hasSymbols ==> !current
    {
      if !hasSymbols {
        return false;
      }
      if uri !in readinessLatches {
        return true;
      }
      var latch := readinessLatches[uri];
      var mergedVersion := if uri in cache then cache[uri].version else -1;
      var requiredVersion := if requested < 0 then latch.version else Max(requested, latch.version);
      return mergedVersion >= requiredVersion;
    }

    method PeekReadiness(uri: Uri, requested: int) returns (s: Snapshot)
      ensures s == Peek(State(), uri, requested)
    {
      var current := SymbolsCurrent(uri, requested, uri in graph);
      if current {
        return ReadyNow;
      }
      if uri !in readinessLatches {
        return NoLatch;
      }
      var latch := readinessLatches[uri];
      if requested >= 0 && latch.version > requested {
        return Superseded;
      }
      return Await(latch.deferred);
    }

    /** `DispatchDocumentOpen`, `DispatchDocumentChange` and `DispatchDocumentSave`. */
    method DispatchDocument(uri: Uri, document: Document)
      requires Valid()
      modifies this
      ensures Valid() && State() == Apply(old(State()), Store(uri, document))
    {
      documents := documents[uri := document];
      ArmReadiness(uri, document.version);
    }

    method WorkspaceBatchIngest(entries: seq<(Uri, Document)>)
      requires Valid()
      modifies this
      ensures Valid() && State() == Apply(old(State()), Ingest(entries))
    {
      for i := 0 to |entries|
        invariant Valid() && State() == Apply(old(State()), Ingest(entries[..i]))
      {
        documents := documents[entries[i].0 := entries[i].1];
        assert entries[..i + 1][..i] == entries[..i];
      }
      assert entries[..|entries|] == entries;
    }

    /** `DispatchDocumentClose`, up to the asynchronous tail of the close itself. */
    method DispatchDocumentClose(uri: Uri)
      requires Valid()
      modifies this
      ensures Valid() && State() == Apply(old(State()), Close(uri))
    {
      ClearReadiness(uri);
    }

    method AddSymbolTable(uri: Uri, version: int, table: Table, hasErrors: bool)
      requires Valid()
      modifies this`graph
      ensures Valid() && State() == AddTable(old(State()), uri, version, table, hasErrors)
    {
      var incoming := table.(version := version);
      if uri in graph {
        graph := graph[uri := Register(Some(graph[uri]), incoming, hasErrors)];
      } else {
        graph := graph[uri := incoming];
      }
    }

    /** The checks a write-back has to pass: a document, at its version, and not already covered. */
    method CheckWriteBack(uri: Uri, version: int, level: Level) returns (g: Gate)
      ensures g == WriteBackGate(State(), uri, version, level)
      ensures g == DocumentMissing <==> uri !in documents
      ensures g == VersionMismatch <==> uri in documents && documents[uri].version != version
      ensures g == Accept <==> StoredAt(documents, uri, version) && Enriches(cache, uri, version, level)
    {
      if uri !in documents {
        return DocumentMissing;
      }
      if documents[uri].version != version {
        return VersionMismatch;
      }
      var currentOrder := if uri in cache then Order(Some(cache[uri].level)) else 0;
      var cachedVersion := if uri in cache then cache[uri].version else -1;
      if version <= cachedVersion && Order(Some(level)) <= currentOrder {
        return LevelSkip;
      }
      return Accept;
    }

    method CountOutcome(g: Gate, fate: Fate)
      modifies this`accepted, this`rejectedVersionMismatch, this`rejectedDocumentMissing, this`rejectedDetailLevel
      ensures State() == old(State()).(metrics := Tally(old(State()).metrics, g, fate))
    {
      if fate.DiesFirst? {
        return;
      }
      match g
      case DocumentMissing => rejectedDocumentMissing := rejectedDocumentMissing + 1;
      case VersionMismatch => rejectedVersionMismatch := rejectedVersionMismatch + 1;
      case LevelSkip => rejectedDetailLevel := rejectedDetailLevel + 1;
      case Accept => accepted := accepted + if fate.Records() then 1 else 0;
    }

    /** `fate` says where the handler dies, if it does; it answers when it does not. */
    method UpdateSymbolSubset(uri: Uri, version: int, table: Table, level: Level, fate: Fate)
      returns (r: Option<WriteBackResponse>)
      requires Valid()
      modifies this
      ensures Valid() && State() == Apply(old(State()), WriteBack(uri, version, table, level, fate))
      ensures r.Some? <==> fate.Completes?
      ensures r.Some? ==>
                && (r.value.accepted <==> StoredAt(old(documents), uri, version) && Enriches(old(cache), uri, version, level))
                && (r.value.versionMismatch <==> uri in old(documents) && old(documents)[uri].version != version)
                && r.value.merged == if r.value.accepted then |table.symbols| else 0
    {
      hide WriteBackGate, Resolve, Arm, Clear, StoreAll, Commit, Tally, Register;
      attempted := attempted + 1;
      if fate.DiesFirst? {
        DyingFirstIsUncounted(State().metrics, WriteBackGate(old(State()), uri, version, level));
        CommitDyingFirst(State(), uri, version, table, false, level);
        return None;
      }
      var g := CheckWriteBack(uri, version, level);
      GateIgnoresMetrics(State(), old(State()), uri, version, level);
      CountOutcome(g, fate);
      if g != Accept {
        if !fate.Completes? {
          return None;
        }
        ResolveReadiness(uri, version);
        return Some(WriteBackResponse(false, 0, g == VersionMismatch));
      }
      AcceptCommit(uri, version, table, false, level, fate);
      return if fate.Completes? then Some(WriteBackResponse(true, |table.symbols|, false)) else None;
    }

    /** What an accepted commit does, whichever handler accepts it, unless it dies on the way. */
    method AcceptCommit(uri: Uri, version: int, table: Table, hasErrors: bool, level: Level, fate: Fate)
      requires Valid()
      modifies this
      ensures Valid() && State() == Commit(old(State()), uri, version, table, hasErrors, level, fate)
    {
      if fate.DiesFirst? {
        return;
      }
      AddSymbolTable(uri, version, table, hasErrors);
      if fate.DiesAfterMerge? {
        return;
      }
      cache := cache[uri := CacheEntry(version, level)];
      if fate.DiesBeforeRelease? {
        return;
      }
      ResolveReadiness(uri, version);
    }

    /** The commit of `WorkspaceBatchCompileOnDataOwner` and of `CompileDocument`. */
    method CommitCompiled(uri: Uri, version: int, table: Table, hasErrors: bool, fate: Fate)
      returns (compiled: Option<bool>)
      requires Valid()
      modifies this
      ensures Valid() && State() == Apply(old(State()), Compiled(uri, version, table, hasErrors, fate))
      ensures compiled.Some? <==> fate.Completes?
      ensures compiled.Some? ==>
                (compiled.value <==> StoredAt(old(documents), uri, version))
    {
      hide Resolve, Arm, Clear, StoreAll, Commit;
      if fate.DiesFirst? {
        CommitDyingFirst(State(), uri, version, table, hasErrors, PublicApi);
        return None;
      }
      if uri !in documents || documents[uri].version != version {
        if !fate.Completes? {
          return None;
        }
        ResolveReadiness(uri, version);
        return Some(false);
      }
      AcceptCommit(uri, version, table, hasErrors, PublicApi, fate);
      return if fate.Completes? then Some(true) else None;
    }
  }

  lemma CommitDyingFirst(o: Owner, uri: Uri, version: int, table: Table, hasErrors: bool, level: Level)
    ensures Commit(o, uri, version, table, hasErrors, level, DiesFirst) == o
  {
  }

  lemma DyingFirstIsUncounted(m: Metrics, g: Gate)
    ensures Tally(m, g, DiesFirst) == m
  {
  }

  lemma GateIgnoresMetrics(o: Owner, o': Owner, uri: Uri, version: int, level: Level)
    requires o.documents == o'.documents && o.cache == o'.cache
    ensures WriteBackGate(o, uri, version, level) == WriteBackGate(o', uri, version, level)
  {
  }
}
