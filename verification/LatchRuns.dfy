/** Readiness latches over every run: no awaiter is lost, and a ready answer rests on a commit. */
module LatchRuns {
  import opened SymbolGraph
  import opened OwnerModel

  ghost predicate LatchMatches(o: Owner, uri: Uri) {
    uri in o.latches ==>
      var latch := o.latches[uri];
      && latch.deferred < |o.made|
      && o.made[latch.deferred] == (uri, latch.version)
      && (latch.settled <==> latch.deferred in o.completed)
  }

  /** The Deferred is completed, or it is the one its file's latch now holds. */
  ghost predicate NotLost(o: Owner, d: nat)
    requires d < |o.made|
  {
    d in o.completed || (o.made[d].0 in o.latches && o.latches[o.made[d].0].deferred == d)
  }

  ghost predicate LatchInv(o: Owner) {
    && (forall uri :: LatchMatches(o, uri))
    && (forall d :: 0 <= d < |o.made| ==> NotLost(o, d))
    && (forall d :: d in o.completed ==> d < |o.made|)
  }

  ghost predicate SameLatches(o: Owner, o': Owner) {
    o'.latches == o.latches && o'.made == o.made && o'.completed == o.completed
  }

  lemma SameLatchesKeepInv(o: Owner, o': Owner)
    requires LatchInv(o) && SameLatches(o, o')
    ensures LatchInv(o')
  {
    forall uri ensures LatchMatches(o', uri) {
      assert LatchMatches(o, uri);
    }
    forall d | 0 <= d < |o'.made| ensures NotLost(o', d) {
      assert NotLost(o, d);
    }
  }

  lemma SettleKeepsInv(o: Owner, uri: Uri)
    requires LatchInv(o) && uri in o.latches
    ensures LatchInv(Settle(o, uri))
  {
    var o' := Settle(o, uri);
    assert LatchMatches(o, uri);
    forall u ensures LatchMatches(o', u) {
      assert LatchMatches(o, u);
    }
    forall d | 0 <= d < |o'.made| ensures NotLost(o', d) {
      assert NotLost(o, d);
    }
  }

  lemma ResolveKeepsInv(o: Owner, uri: Uri, version: int)
    requires LatchInv(o)
    ensures LatchInv(Resolve(o, uri, version))
  {
    if uri in o.latches {
      SettleKeepsInv(o, uri);
    }
  }

  /** Dropping or replacing a settled latch loses nobody. */
  lemma ReplaceKeepsInv(o: Owner, uri: Uri, version: int)
    requires LatchInv(o) && (uri in o.latches ==> o.latches[uri].settled)
    ensures LatchInv(o.(latches := o.latches - {uri}))
    ensures LatchInv(o.(latches := o.latches[uri := Latch(version, |o.made|, false)], made := o.made + [(uri, version)]))
  {
    var o1 := o.(latches := o.latches - {uri});
    var o2 := o.(latches := o.latches[uri := Latch(version, |o.made|, false)], made := o.made + [(uri, version)]);
    forall u ensures LatchMatches(o1, u) && LatchMatches(o2, u) {
      assert LatchMatches(o, u);
    }
    forall d | 0 <= d < |o.made| ensures NotLost(o1, d) && NotLost(o2, d) {
      assert NotLost(o, d) && LatchMatches(o, uri) && o2.made[d] == o.made[d];
    }
  }

  lemma ArmKeepsInv(o: Owner, uri: Uri, version: int)
    requires LatchInv(o)
    ensures LatchInv(Arm(o, uri, version))
  {
    hide LatchInv;
    if uri in o.latches && !o.latches[uri].settled {
      SettleKeepsInv(o, uri);
      ReplaceKeepsInv(Settle(o, uri), uri, version);
    } else {
      ReplaceKeepsInv(o, uri, version);
    }
  }

  lemma ClearKeepsInv(o: Owner, uri: Uri)
    requires LatchInv(o)
    ensures LatchInv(Clear(o, uri))
  {
    hide LatchInv;
    if uri in o.latches && !o.latches[uri].settled {
      SettleKeepsInv(o, uri);
      ReplaceKeepsInv(Settle(o, uri), uri, 0);
    } else {
      ReplaceKeepsInv(o, uri, 0);
    }
  }

  lemma ResolveSeesLatchesOnly(o: Owner, o1: Owner, uri: Uri, version: int)
    requires SameLatches(o, o1)
    ensures SameLatches(Resolve(o, uri, version), Resolve(o1, uri, version))
  {
  }

  lemma CommitReleases(o: Owner, o1: Owner, uri: Uri, version: int, table: Table, hasErrors: bool, level: Level, fate: Fate)
    requires SameLatches(o, o1)
    ensures SameLatches(if fate.Completes? then Resolve(o, uri, version) else o,
                        Commit(o1, uri, version, table, hasErrors, level, fate))
  {
    hide Resolve, Register;
    var o2 := if fate.Adds() then AddTable(o1, uri, version, table, hasErrors) else o1;
    var o3 := if fate.Records() then MergeCache(o2, uri, version, level) else o2;
    ResolveSeesLatchesOnly(o, o3, uri, version);
  }

  /** What a commit or a write-back does to the latches: release, or nothing when it dies. */
  lemma CommitLatches(o: Owner, e: Event)
    requires e.WriteBack? || e.Compiled? || e.Release?
    ensures SameLatches(if Terminal(e) then Resolve(o, e.uri, e.version) else o, Apply(o, e))
  {
    hide Commit, WriteBackGate, CompileGate, Count, Arm, Clear, StoreAll, Resolve;
    match e
    case WriteBack(uri, version, table, level, fate) =>
      var o1 := o.(metrics := Count(o.metrics, WriteBackGate(o, uri, version, level), fate));
      CommitReleases(o, o1, uri, version, table, false, level, fate);
      ResolveSeesLatchesOnly(o, o1, uri, version);
    case Compiled(uri, version, table, hasErrors, fate) =>
      CommitReleases(o, o, uri, version, table, hasErrors, PublicApi, fate);
    case Release(_, _) =>
  }

  lemma ApplyKeepsLatchInv(o: Owner, e: Event)
    requires LatchInv(o)
    ensures LatchInv(Apply(o, e))
  {
    hide LatchInv, Resolve, Arm, Clear, StoreAll;
    match e
    case Store(uri, document) =>
      SameLatchesKeepInv(o, o.(documents := o.documents[uri := document]));
      ArmKeepsInv(o.(documents := o.documents[uri := document]), uri, document.version);
    case Close(uri) => ClearKeepsInv(o, uri);
    case Ingest(entries) => SameLatchesKeepInv(o, Apply(o, e));
    case DropDocument(uri) => SameLatchesKeepInv(o, Apply(o, e));
    case DropCacheEntry(uri) => SameLatchesKeepInv(o, Apply(o, e));
    case _ =>
      CommitLatches(o, e);
      ResolveKeepsInv(o, e.uri, e.version);
      SameLatchesKeepInv(if Terminal(e) then Resolve(o, e.uri, e.version) else o, Apply(o, e));
  }

  /** Over every run: every Deferred ever made for a latch is completed or belongs to its file's
      current latch, and `settled` says which. */
  lemma {:induction false} NoLostWaiter(events: seq<Event>)
    ensures LatchInv(Run(events))
  {
    if events != [] {
      var front, last := events[..|events| - 1], events[|events| - 1];
      NoLostWaiter(front);
      hide LatchInv;
      ApplyKeepsLatchInv(Run(front), last);
    }
  }

  ghost predicate NobodyWaits(o: Owner, uri: Uri, version: int) {
    forall d :: 0 <= d < |o.made| && o.made[d] == (uri, version) ==> d in o.completed
  }

  /** The open latch of a file, if it has one at this version. */
  predicate OpenLatch(o: Owner, uri: Uri, version: int) {
    uri in o.latches && o.latches[uri].version == version && !o.latches[uri].settled
  }

  lemma WaitersAreOfTheOpenLatch(o: Owner, uri: Uri, version: int)
    requires LatchInv(o)
    ensures NobodyWaits(o, uri, version) <==> !OpenLatch(o, uri, version)
  {
    assert LatchMatches(o, uri);
    forall d | 0 <= d < |o.made| && o.made[d] == (uri, version) && d !in o.completed ensures OpenLatch(o, uri, version) {
      assert NotLost(o, d);
    }
  }

  /** Every end of a commit or write-back for a version, accepted or rejected, and every release, leaves no
      awaiter of that version waiting. */
  lemma TerminalOutcomeReleases(events: seq<Event>, e: Event)
    requires Terminal(e)
    ensures NobodyWaits(Apply(Run(events), e), e.uri, e.version)
  {
    hide LatchInv, Run;
    var o := Run(events);
    NoLostWaiter(events);
    CommitLatches(o, e);
    ApplyKeepsLatchInv(o, e);
    WaitersAreOfTheOpenLatch(Apply(o, e), e.uri, e.version);
  }

  /** A handler that dies releases nobody: it leaves awaiters waiting exactly when the latch of its
      version was still open. */
  lemma DefectStrandsExactlyTheOpenLatch(events: seq<Event>, e: Event)
    requires (e.WriteBack? || e.Compiled?) && !e.fate.Completes?
    ensures NobodyWaits(Apply(Run(events), e), e.uri, e.version) <==> !OpenLatch(Run(events), e.uri, e.version)
  {
    hide LatchInv, Run;
    var o := Run(events);
    NoLostWaiter(events);
    CommitLatches(o, e);
    WaitersAreOfTheOpenLatch(o, e.uri, e.version);
  }

  // -- What arms and what releases -------------------------------------------------------

  /** `e` releases the awaiters of this version of the file: the file is stored at another version, or
      closed, or a commit, write-back or release for exactly this version comes to its end. */
  predicate Releases(e: Event, uri: Uri, version: int) {
    match e
    case Store(u, document) => u == uri && document.version != version
    case Close(u) => u == uri
    case WriteBack(u, v, _, _, fate) => u == uri && v == version && fate.Completes?
    case Compiled(u, v, _, _, fate) => u == uri && v == version && fate.Completes?
    case Release(u, v) => u == uri && v == version
    case _ => false
  }

  lemma ResolveReleasesExactly(o: Owner, uri: Uri, version: int, d: nat)
    requires LatchInv(o) && d < |o.made| && d !in o.completed
    ensures d in Resolve(o, uri, version).completed <==> o.made[d] == (uri, version)
  {
    assert NotLost(o, d) && LatchMatches(o, uri) && LatchMatches(o, o.made[d].0);
  }

  lemma ArmReleasesExactly(o: Owner, uri: Uri, version: int, d: nat)
    requires LatchInv(o) && d < |o.made| && d !in o.completed
    ensures d in Arm(o, uri, version).completed <==> o.made[d].0 == uri && o.made[d].1 != version
  {
    assert NotLost(o, d) && LatchMatches(o, uri) && LatchMatches(o, o.made[d].0);
  }

  lemma ClearReleasesExactly(o: Owner, uri: Uri, d: nat)
    requires LatchInv(o) && d < |o.made| && d !in o.completed
    ensures d in Clear(o, uri).completed <==> o.made[d].0 == uri
  {
    assert NotLost(o, d) && LatchMatches(o, uri) && LatchMatches(o, o.made[d].0);
  }

  lemma ApplyReleasesExactly(o: Owner, e: Event, d: nat)
    requires LatchInv(o) && d < |o.made| && d !in o.completed
    ensures d in Apply(o, e).completed <==> Releases(e, o.made[d].0, o.made[d].1)
  {
    hide LatchInv, Resolve, Arm, Clear, StoreAll, Commit, Reject, WriteBackGate, CompileGate, Count;
    match e
    case Store(uri, document) =>
      var o1 := o.(documents := o.documents[uri := document]);
      SameLatchesKeepInv(o, o1);
      ArmReleasesExactly(o1, uri, document.version, d);
    case Close(uri) => ClearReleasesExactly(o, uri, d);
    case Ingest(_) =>
    case DropDocument(_) =>
    case DropCacheEntry(_) =>
    case _ =>
      CommitLatches(o, e);
      ResolveReleasesExactly(o, e.uri, e.version, d);
  }

  /** Over every run, an awaiter that is waiting at some moment has been released by the end exactly when
      one of the events since then releases its version. */
  lemma {:induction false} ReleasedExactly(events: seq<Event>, k: nat, d: nat)
    requires k <= |events| && d < |Run(events[..k]).made| && d !in Run(events[..k]).completed
    ensures var (uri, version) := Run(events[..k]).made[d];
            && d < |Run(events).made| && Run(events).made[d] == (uri, version)
            && (d in Run(events).completed <==> exists i :: k <= i < |events| && Releases(events[i], uri, version))
  {
    hide Apply, Releases, LatchInv;
    RunGrowsMade(events, k);
    if k == |events| {
      assert events[..k] == events;
    } else {
      var front, last := events[..|events| - 1], events[|events| - 1];
      assert front[..k] == events[..k];
      ReleasedExactly(front, k, d);
      ApplyGrowsCompleted(Run(front), last);
      NoLostWaiter(front);
      if d !in Run(front).completed {
        ApplyReleasesExactly(Run(front), last, d);
      }
      ReleasedEarlierOrLast(events, k, Run(events[..k]).made[d].0, Run(events[..k]).made[d].1);
    }
  }

  lemma ReleasedEarlierOrLast(events: seq<Event>, k: nat, uri: Uri, version: int)
    requires k < |events|
    ensures var front := events[..|events| - 1];
            (exists i :: k <= i < |events| && Releases(events[i], uri, version))
            <==> (exists i :: k <= i < |front| && Releases(front[i], uri, version))
                 || Releases(events[|events| - 1], uri, version)
  {
    hide Releases;
    var front := events[..|events| - 1];
    if i :| k <= i < |front| && Releases(front[i], uri, version) {
      assert Releases(events[i], uri, version);
    }
    if i :| k <= i < |events| && Releases(events[i], uri, version) {
      assert i < |front| ==> front[i] == events[i];
    }
  }

  /** The latch is there, at this version: new and open, unless the file had one at this version already,
      which then stays as it was. */
  ghost predicate ArmedAt(o: Owner, o': Owner, uri: Uri, version: int) {
    && uri in o'.latches && o'.latches[uri].version == version
    && if uri in o.latches && o.latches[uri].version == version
       then o'.latches[uri] == o.latches[uri] && o'.made == o.made
       else o'.latches[uri] == Latch(version, |o.made|, false) && o'.made == o.made + [(uri, version)]
  }

  /** A stored version is armed: after any run that ends with it, the file's latch is at exactly that
      version, everyone who waited for another version of the file has been released, and no other file
      is concerned. */
  lemma StoreArmsItsVersion(events: seq<Event>, uri: Uri, document: Document)
    ensures var o, o' := Run(events), Run(events + [Store(uri, document)]);
            && ArmedAt(o, o', uri, document.version)
            && (forall version :: version != document.version ==> NobodyWaits(o', uri, version))
            && (forall u :: u != uri ==> Lookup(o'.latches, u) == Lookup(o.latches, u))
            && (forall d :: d in o'.completed && d !in o.completed ==> d < |o.made| && o.made[d].0 == uri)
  {
    hide Run, LatchInv;
    var o := Run(events);
    RunMore(events, Store(uri, document));
    var o' := Apply(o, Store(uri, document));
    NoLostWaiter(events);
    assert LatchMatches(o, uri) by {
      LatchOfFile(o, uri);
    }
    ApplyKeepsLatchInv(o, Store(uri, document));
    forall version | version != document.version ensures NobodyWaits(o', uri, version) {
      WaitersAreOfTheOpenLatch(o', uri, version);
    }
  }

  lemma LatchOfFile(o: Owner, uri: Uri)
    requires LatchInv(o)
    ensures LatchMatches(o, uri)
  {
  }

  /** The next commit or write-back for the stored version that comes to its end, accepted or not, releases
      those who wait for it. */
  lemma ArmedVersionIsReleased(events: seq<Event>, uri: Uri, document: Document, e: Event)
    requires Terminal(e) && e.uri == uri && e.version == document.version
    ensures var armed := Run(events + [Store(uri, document)]);
            uri in armed.latches && armed.latches[uri].deferred in Run(events + [Store(uri, document), e]).completed
  {
    hide Run, LatchInv, Apply;
    var stored := events + [Store(uri, document)];
    StoreArmsItsVersion(events, uri, document);
    NoLostWaiter(stored);
    LatchOfFile(Run(stored), uri);
    RunMore(stored, e);
    assert stored + [e] == events + [Store(uri, document), e];
    ApplyGrowsMade(Run(stored), e);
    TerminalOutcomeReleases(stored, e);
  }

  /** The `i`-th event is the last to concern the file's latch, and it stores the file. */
  ghost predicate ArmedLast(events: seq<Event>, uri: Uri, i: nat) {
    && i < |events| && events[i].Store? && events[i].uri == uri
    && forall j :: i < j < |events| ==> !ArmsOrClears(events[j], uri)
  }

  predicate ArmsOrClears(e: Event, uri: Uri) {
    (e.Store? || e.Close?) && e.uri == uri
  }

  lemma LatchStep(o: Owner, e: Event, uri: Uri)
    ensures var o' := Apply(o, e);
            if e.Store? && e.uri == uri then uri in o'.latches && o'.latches[uri].version == e.document.version
            else if e.Close? && e.uri == uri then uri !in o'.latches
            else && (uri in o'.latches <==> uri in o.latches)
                 && (uri in o.latches ==> o'.latches[uri] in {o.latches[uri], o.latches[uri].(settled := true)})
  {
    hide Commit, Reject, WriteBackGate, CompileGate, Count, StoreAll;
    if e.WriteBack? || e.Compiled? || e.Release? {
      hide Arm, Clear;
      CommitLatches(o, e);
    }
  }

  /** Over every run, a file has a latch exactly when it has been stored and not closed since, and the latch
      is at the version stored last; nothing else arms a file, or takes its latch away. */
  lemma {:induction false} LatchIsLastArmed(events: seq<Event>, uri: Uri)
    ensures uri in Run(events).latches <==> exists i: nat :: ArmedLast(events, uri, i)
    ensures forall i: nat :: ArmedLast(events, uri, i) ==>
              uri in Run(events).latches && Run(events).latches[uri].version == events[i].document.version
  {
    if events != [] {
      var front, last := events[..|events| - 1], events[|events| - 1];
      LatchIsLastArmed(front, uri);
      LatchStep(Run(front), last, uri);
      hide Apply;
      assert forall i :: 0 <= i < |front| ==> front[i] == events[i];
      if last.Store? && last.uri == uri {
        assert ArmedLast(events, uri, |front|);
      }
      forall i: nat | ArmedLast(events, uri, i)
        ensures uri in Run(events).latches && Run(events).latches[uri].version == events[i].document.version
      {
        if i < |front| {
          assert !ArmsOrClears(events[|front|], uri);
          assert ArmedLast(front, uri, i);
        }
      }
      if !ArmsOrClears(last, uri) && uri in Run(front).latches {
        var i: nat :| ArmedLast(front, uri, i);
        assert ArmedLast(events, uri, i);
      }
    }
  }

  // -- Deferreds are only ever added and completed ---------------------------------------

  lemma ApplyGrowsMade(o: Owner, e: Event)
    ensures o.made <= Apply(o, e).made
  {
    hide Resolve, Clear, StoreAll, Commit, WriteBackGate, CompileGate, Count;
    if e.WriteBack? || e.Compiled? || e.Release? {
      CommitLatches(o, e);
      ResolveMakesNone(o, e.uri, e.version);
    } else if e.Close? {
      ClearMakesNone(o, e.uri);
    }
  }

  lemma ResolveMakesNone(o: Owner, uri: Uri, version: int)
    ensures Resolve(o, uri, version).made == o.made
  {
  }

  lemma ClearMakesNone(o: Owner, uri: Uri)
    ensures Clear(o, uri).made == o.made
  {
  }

  lemma {:induction false} RunGrowsMade(events: seq<Event>, k: nat)
    requires k <= |events|
    ensures Run(events[..k]).made <= Run(events).made
  {
    if k == |events| {
      assert events[..k] == events;
    } else {
      assert events[..|events| - 1][..k] == events[..k];
      RunGrowsMade(events[..|events| - 1], k);
      hide Apply;
      ApplyGrowsMade(Run(events[..|events| - 1]), events[|events| - 1]);
    }
  }

  lemma ApplyGrowsCompleted(o: Owner, e: Event)
    ensures o.completed <= Apply(o, e).completed
  {
    hide StoreAll, Commit, WriteBackGate, CompileGate, Count, Reject;
    if e.WriteBack? || e.Compiled? || e.Release? {
      hide Arm, Clear;
      CommitLatches(o, e);
    }
  }
}
