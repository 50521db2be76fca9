/** Compiles that fail: a workspace batch, whose failures are collected and released only once its whole
    pipeline has returned, and an interactive compile, which releases on a typed error. */
module WorkspaceBatch {
  import opened SymbolGraph
  import opened OwnerModel
  import opened LatchRuns

  // -- The pipeline ----------------------------------------------------------------------

  /** An entry of the batch, in the order in which its compile result is taken: the compile failed, or its
      table goes to the commit, which has its own fate. */
  datatype Item =
    | Failed(uri: Uri, version: int)
    | Produced(uri: Uri, version: int, table: Table, hasErrors: bool, fate: Fate)

  /** Taking results; releasing the failures, `k` of them done; over, with all released; or dead, after a
      commit died and took the pipeline with it. */
  datatype Phase = Taking | Releasing(k: nat) | Finished | Dead

  datatype Batch = Batch(o: Owner, next: nat, failures: seq<(Uri, int)>, phase: Phase)

  /** What the batch does next, and everything else that happens to the data-owner meanwhile. */
  datatype Move = Pipeline | Other(event: Event)

  function Take(b: Batch, item: Item): Batch {
    match item
    case Failed(uri, version) => b.(next := b.next + 1, failures := b.failures + [(uri, version)])
    case Produced(uri, version, table, hasErrors, fate) =>
      var o := Apply(b.o, Compiled(uri, version, table, hasErrors, fate));
      if fate.Completes? then b.(o := o, next := b.next + 1) else b.(o := o, phase := Dead)
  }

  function Advance(b: Batch, items: seq<Item>): Batch {
    match b.phase
    case Taking => if b.next < |items| then Take(b, items[b.next]) else b.(phase := Releasing(0))
    case Releasing(k) =>
      if k < |b.failures|
      then b.(o := Apply(b.o, Release(b.failures[k].0, b.failures[k].1)), phase := Releasing(k + 1))
      else b.(phase := Finished)
    case _ => b
  }

  function Moved(b: Batch, items: seq<Item>, m: Move): Batch {
    match m
    case Pipeline => Advance(b, items)
    case Other(e) => b.(o := Apply(b.o, e))
  }

  function Begin(o: Owner): Batch { Batch(o, 0, [], Taking) }

  function Play(o: Owner, items: seq<Item>, moves: seq<Move>): Batch {
    if moves == [] then Begin(o) else Moved(Play(o, items, moves[..|moves| - 1]), items, moves[|moves| - 1])
  }

  predicate NoCommitDies(items: seq<Item>) {
    forall i :: 0 <= i < |items| && items[i].Produced? ==> items[i].fate.Completes?
  }

  // -- What every run of a batch keeps ---------------------------------------------------

  /** Where the batch is agrees with what its commits did. */
  ghost predicate Progress(b: Batch, items: seq<Item>) {
    && b.next <= |items|
    && (forall i :: 0 <= i < b.next ==> items[i].Produced? ==> items[i].fate.Completes?)
    && (forall i :: 0 <= i < b.next && items[i].Failed? ==> Collected(b, items[i].uri, items[i].version))
    && (b.phase.Releasing? || b.phase.Finished? ==> b.next == |items|)
    && (b.phase.Dead? ==> !NoCommitDies(items))
    && (b.phase.Releasing? ==> b.phase.k <= |b.failures|)
  }

  ghost predicate Collected(b: Batch, uri: Uri, version: int) {
    exists k :: 0 <= k < |b.failures| && b.failures[k] == (uri, version)
  }

  /** How many failures have been released. */
  function ReleasedUpTo(b: Batch): nat {
    match b.phase
    case Releasing(k) => k
    case Finished => |b.failures|
    case _ => 0
  }

  lemma AdvanceKeepsProgress(b: Batch, items: seq<Item>)
    requires Progress(b, items)
    ensures Progress(Advance(b, items), items)
  {
    hide Apply;
    var b' := Advance(b, items);
    if b.phase.Taking? && b.next < |items| {
      if items[b.next].Failed? {
        assert b'.failures[|b.failures|] == (items[b.next].uri, items[b.next].version);
      }
      forall i | 0 <= i < b'.next && items[i].Failed? ensures Collected(b', items[i].uri, items[i].version) {
        if i < b.next {
          var k :| 0 <= k < |b.failures| && b.failures[k] == (items[i].uri, items[i].version);
          assert b'.failures[k] == b.failures[k];
        }
      }
    }
  }

  lemma {:induction false} PlayKeepsProgress(o: Owner, items: seq<Item>, moves: seq<Move>)
    ensures Progress(Play(o, items, moves), items)
  {
    hide Apply;
    if moves != [] {
      var front := moves[..|moves| - 1];
      PlayKeepsProgress(o, items, front);
      AdvanceKeepsProgress(Play(o, items, front), items);
    }
  }

  /** A batch that is over has finished exactly when none of its commits died. */
  lemma FinishedExactlyWhenNoCommitDies(o: Owner, items: seq<Item>, moves: seq<Move>)
    requires Play(o, items, moves).phase in {Finished, Dead}
    ensures Play(o, items, moves).phase == Finished <==> NoCommitDies(items)
  {
    hide Play;
    PlayKeepsProgress(o, items, moves);
  }

  /** How many steps the pipeline has ahead of it at most. */
  function StepsLeft(b: Batch, items: seq<Item>): nat
    requires Progress(b, items)
  {
    match b.phase
    case Taking => 2 * (|items| - b.next) + |b.failures| + 2
    case Releasing(k) => |b.failures| - k + 1
    case _ => 0
  }

  function PipelineSteps(moves: seq<Move>): nat {
    if moves == [] then 0 else PipelineSteps(moves[..|moves| - 1]) + if moves[|moves| - 1].Pipeline? then 1 else 0
  }

  lemma MoveUsesUpSteps(b: Batch, items: seq<Item>, m: Move)
    requires Progress(b, items) && Progress(Moved(b, items, m), items)
    ensures StepsLeft(Moved(b, items, m), items) + (if m.Pipeline? then 1 else 0)
            <= if StepsLeft(b, items) == 0 then 1 else StepsLeft(b, items)
  {
    hide Apply, Collected;
  }

  lemma {:induction false} StepsAreUsedUp(o: Owner, items: seq<Item>, moves: seq<Move>)
    ensures Progress(Play(o, items, moves), items)
    ensures StepsLeft(Play(o, items, moves), items) > 0 ==>
              StepsLeft(Play(o, items, moves), items) + PipelineSteps(moves) <= 2 * |items| + 2
  {
    PlayKeepsProgress(o, items, moves);
    if moves != [] {
      var front := moves[..|moves| - 1];
      StepsAreUsedUp(o, items, front);
      hide Progress, Moved;
      MoveUsesUpSteps(Play(o, items, front), items, moves[|moves| - 1]);
    }
  }

  /** Every batch is over after twice as many steps of its pipeline as it has entries, and two more, whatever
      else happens in between. */
  lemma PipelineEnds(o: Owner, items: seq<Item>, moves: seq<Move>)
    requires PipelineSteps(moves) >= 2 * |items| + 2
    ensures Play(o, items, moves).phase in {Finished, Dead}
  {
    hide Play, Progress, PipelineSteps;
    StepsAreUsedUp(o, items, moves);
    BusyHasStepsLeft(Play(o, items, moves), items);
  }

  lemma BusyHasStepsLeft(b: Batch, items: seq<Item>)
    requires Progress(b, items)
    ensures StepsLeft(b, items) == 0 ==> b.phase in {Finished, Dead}
  {
  }

  /** What a move does to the data-owner: nothing, or one event. */
  ghost predicate OneEvent(o: Owner, o': Owner, e: Event) {
    o' == o || o' == Apply(o, e)
  }

  function EventOf(b: Batch, items: seq<Item>, m: Move): Event {
    match m
    case Other(e) => e
    case Pipeline =>
      if b.phase.Taking? && b.next < |items| && items[b.next].Produced? then
        var item := items[b.next];
        Compiled(item.uri, item.version, item.table, item.hasErrors, item.fate)
      else if b.phase.Releasing? && b.phase.k < |b.failures| then
        Release(b.failures[b.phase.k].0, b.failures[b.phase.k].1)
      else DropCacheEntry("")
  }

  lemma MoveIsOneEvent(b: Batch, items: seq<Item>, m: Move)
    ensures OneEvent(b.o, Moved(b, items, m).o, EventOf(b, items, m))
  {
    hide Apply;
  }

  // -- Finished batches release ----------------------------------------------------------

  /** Every Deferred below `base` that was made for a failure released so far is completed. */
  ghost predicate ReleasedDone(b: Batch, base: nat) {
    base <= |b.o.made| && LatchInv(b.o)
    && forall k, d :: 0 <= k < ReleasedUpTo(b) && k < |b.failures| && 0 <= d < base && b.o.made[d] == b.failures[k] ==>
         d in b.o.completed
  }

  lemma ReleasesDone(b: Batch, items: seq<Item>, m: Move, base: nat)
    requires ReleasedDone(b, base) && Progress(b, items)
    ensures ReleasedDone(Moved(b, items, m), base)
  {
    hide Apply, LatchInv;
    var b', e := Moved(b, items, m), EventOf(b, items, m);
    MoveIsOneEvent(b, items, m);
    ApplyKeepsLatchInv(b.o, e);
    ApplyGrowsMade(b.o, e);
    ApplyGrowsCompleted(b.o, e);
    if m.Pipeline? && b.phase.Releasing? && b.phase.k < |b.failures| {
      ReleaseReleases(b.o, e);
    }
  }

  lemma ReleaseReleases(o: Owner, e: Event)
    requires LatchInv(o) && e.Release?
    ensures NobodyWaits(Apply(o, e), e.uri, e.version)
  {
    hide LatchInv;
    CommitLatches(o, e);
    ApplyKeepsLatchInv(o, e);
    WaitersAreOfTheOpenLatch(Apply(o, e), e.uri, e.version);
  }

  lemma {:induction false} PlayReleasesDone(events: seq<Event>, items: seq<Item>, moves: seq<Move>)
    ensures ReleasedDone(Play(Run(events), items, moves), |Run(events).made|)
  {
    hide Run, Moved, LatchInv, Progress;
    if moves == [] {
      NoLostWaiter(events);
    } else {
      var front := moves[..|moves| - 1];
      PlayReleasesDone(events, items, front);
      PlayKeepsProgress(Run(events), items, front);
      ReleasesDone(Play(Run(events), items, front), items, moves[|moves| - 1], |Run(events).made|);
    }
  }

  /** Whatever else happens meanwhile: once a batch has finished, nobody who was waiting for one of its
      failed entries when it began is waiting any more. */
  lemma FinishedBatchReleasesItsFailures(events: seq<Event>, items: seq<Item>, moves: seq<Move>, i: nat, d: nat)
    requires i < |items| && items[i].Failed? && Play(Run(events), items, moves).phase == Finished
    requires d < |Run(events).made| && Run(events).made[d] == (items[i].uri, items[i].version)
    ensures d in Play(Run(events), items, moves).o.completed
  {
    hide Run, Play;
    var b := Play(Run(events), items, moves);
    PlayReleasesDone(events, items, moves);
    PlayKeepsProgress(Run(events), items, moves);
    PlayKeepsMade(events, items, moves);
    assert Collected(b, items[i].uri, items[i].version);
  }

  lemma {:induction false} PlayKeepsMade(events: seq<Event>, items: seq<Item>, moves: seq<Move>)
    ensures Run(events).made <= Play(Run(events), items, moves).o.made
  {
    if moves != [] {
      var front, m := moves[..|moves| - 1], moves[|moves| - 1];
      PlayKeepsMade(events, items, front);
      hide Run, Moved, Apply;
      var b := Play(Run(events), items, front);
      MoveIsOneEvent(b, items, m);
      ApplyGrowsMade(b.o, EventOf(b, items, m));
    }
  }

  // -- Dead batches strand ---------------------------------------------------------------

  /** The event settles or replaces the latch of a file that is open at this version. */
  predicate TouchesLatch(e: Event, uri: Uri, version: int) {
    match e
    case Store(u, document) => u == uri && document.version != version
    case Close(u) => u == uri
    case WriteBack(u, v, _, _, fate) => u == uri && v == version && fate.Completes?
    case Compiled(u, v, _, _, fate) => u == uri && v == version && fate.Completes?
    case Release(u, v) => u == uri && v == version
    case _ => false
  }

  /** The file's latch is open at this version and holds this Deferred. */
  ghost predicate OpenWith(o: Owner, uri: Uri, version: int, d: nat) {
    LatchInv(o) && OpenLatch(o, uri, version) && o.latches[uri].deferred == d && d !in o.completed
  }

  lemma OthersLeaveItOpen(o: Owner, e: Event, uri: Uri, version: int, d: nat)
    requires OpenWith(o, uri, version, d) && !TouchesLatch(e, uri, version)
    ensures OpenWith(Apply(o, e), uri, version, d)
  {
    hide LatchInv, StoreAll, Commit, Reject, WriteBackGate, CompileGate, Count;
    ApplyKeepsLatchInv(o, e);
    if e.WriteBack? || e.Compiled? || e.Release? {
      hide Apply, Arm, Clear;
      CommitLatches(o, e);
    }
    SettledIsCompleted(Apply(o, e), uri);
  }

  lemma SettledIsCompleted(o: Owner, uri: Uri)
    requires LatchInv(o) && uri in o.latches
    ensures o.latches[uri].settled <==> o.latches[uri].deferred in o.completed
  {
    assert LatchMatches(o, uri);
  }

  /** Nothing but the batch's own failure concerns the latch: no other event touches it, and the batch has
      no other entry that commits to the same file and version. */
  ghost predicate LeftAlone(items: seq<Item>, moves: seq<Move>, uri: Uri, version: int) {
    && (forall i :: 0 <= i < |moves| && moves[i].Other? ==> !TouchesLatch(moves[i].event, uri, version))
    && (forall i :: 0 <= i < |items| && items[i].Produced? ==> items[i].uri != uri || items[i].version != version)
  }

  lemma {:induction false} OpenUntilReleasing(events: seq<Event>, items: seq<Item>, moves: seq<Move>,
                                              uri: Uri, version: int, d: nat)
    requires OpenWith(Run(events), uri, version, d) && LeftAlone(items, moves, uri, version)
    ensures var b := Play(Run(events), items, moves);
            b.phase.Taking? || b.phase.Dead? ==> OpenWith(b.o, uri, version, d)
  {
    hide Run, Apply, OpenWith, TouchesLatch;
    if moves != [] {
      var front, m := moves[..|moves| - 1], moves[|moves| - 1];
      assert forall i :: 0 <= i < |front| ==> front[i] == moves[i];
      OpenUntilReleasing(events, items, front, uri, version, d);
      var b := Play(Run(events), items, front);
      if b.phase.Taking? || b.phase.Dead? {
        MoveIsOneEvent(b, items, m);
        BatchLeavesItAlone(b, items, m, uri, version);
        if Moved(b, items, m).o != b.o {
          OthersLeaveItOpen(b.o, EventOf(b, items, m), uri, version, d);
        }
      }
    }
  }

  lemma BatchLeavesItAlone(b: Batch, items: seq<Item>, m: Move, uri: Uri, version: int)
    requires b.phase.Taking? || b.phase.Dead?
    requires m.Other? ==> !TouchesLatch(m.event, uri, version)
    requires forall i :: 0 <= i < |items| && items[i].Produced? ==> items[i].uri != uri || items[i].version != version
    ensures !TouchesLatch(EventOf(b, items, m), uri, version)
  {
  }

  /** A failed entry whose latch is open, and which nothing else concerns, is released by a batch that is
      over exactly when none of the batch's commits died. */
  lemma FailureReleasedExactlyWhenNoCommitDies(events: seq<Event>, items: seq<Item>, moves: seq<Move>, i: nat)
    requires i < |items| && items[i].Failed?
    requires OpenLatch(Run(events), items[i].uri, items[i].version)
    requires LeftAlone(items, moves, items[i].uri, items[i].version)
    requires Play(Run(events), items, moves).phase in {Finished, Dead}
    ensures Run(events).latches[items[i].uri].deferred in Play(Run(events), items, moves).o.completed <==> NoCommitDies(items)
  {
    hide Run, Play, LeftAlone, NoCommitDies;
    var o, uri, version := Run(events), items[i].uri, items[i].version;
    NoLostWaiter(events);
    assert LatchMatches(o, uri);
    FinishedExactlyWhenNoCommitDies(o, items, moves);
    if NoCommitDies(items) {
      FinishedBatchReleasesItsFailures(events, items, moves, i, o.latches[uri].deferred);
    } else {
      OpenUntilReleasing(events, items, moves, uri, version, o.latches[uri].deferred);
    }
  }

  // -- Entries that compiled -------------------------------------------------------------

  /** No commit up to and including that of entry `i` dies. */
  predicate NoneDiesUpTo(items: seq<Item>, i: nat)
    requires i < |items|
  {
    NoCommitDies(items[..i + 1])
  }

  /** Nothing but entry `i` itself concerns its latch. */
  ghost predicate OthersLeave(items: seq<Item>, moves: seq<Move>, i: nat)
    requires i < |items|
  {
    && (forall m :: 0 <= m < |moves| && moves[m].Other? ==> !TouchesLatch(moves[m].event, items[i].uri, items[i].version))
    && (forall j :: 0 <= j < |items| && j != i ==> items[j].uri != items[i].uri || items[j].version != items[i].version)
  }

  /** A dead pipeline stands at the entry whose commit died. */
  ghost predicate DeadAtItsCommit(b: Batch, items: seq<Item>) {
    b.phase.Dead? ==> b.next < |items| && items[b.next].Produced? && !items[b.next].fate.Completes?
  }

  lemma {:induction false} PlayDiesAtACommit(o: Owner, items: seq<Item>, moves: seq<Move>)
    ensures DeadAtItsCommit(Play(o, items, moves), items)
  {
    hide Apply;
    if moves != [] {
      PlayDiesAtACommit(o, items, moves[..|moves| - 1]);
    }
  }

  /** A batch that is over has taken entry `i`, and its commit has run to the end, exactly when no commit up to
      it died. */
  lemma TakenExactlyWhenNoneDies(o: Owner, items: seq<Item>, moves: seq<Move>, i: nat)
    requires i < |items| && Play(o, items, moves).phase in {Finished, Dead}
    ensures i < Play(o, items, moves).next <==> NoneDiesUpTo(items, i)
  {
    hide Play;
    PlayKeepsProgress(o, items, moves);
    PlayDiesAtACommit(o, items, moves);
    var b := Play(o, items, moves);
    if i < b.next {
      assert forall j :: 0 <= j <= i ==> items[..i + 1][j] == items[j];
    } else {
      assert items[..i + 1][b.next] == items[b.next];
    }
  }

  /** Where the latch of a compiled entry is: open until the entry is taken, and its Deferred completed from
      then on. */
  ghost predicate TakenReleases(b: Batch, items: seq<Item>, i: nat, d: nat)
    requires i < |items|
  {
    && LatchInv(b.o)
    && (b.next <= i ==> OpenWith(b.o, items[i].uri, items[i].version, d))
    && (b.next > i ==> d in b.o.completed)
  }

  lemma CompletedCommitReleases(o: Owner, e: Event, d: nat)
    requires e.Compiled? && e.fate.Completes? && OpenWith(o, e.uri, e.version, d)
    ensures d in Apply(o, e).completed
  {
    hide Apply, LatchInv, Arm, Clear;
    CommitLatches(o, e);
  }

  lemma TakingReleases(b: Batch, items: seq<Item>, m: Move, i: nat, d: nat)
    requires i < |items| && items[i].Produced? && TakenReleases(b, items, i, d) && Progress(b, items)
    requires m.Other? ==> !TouchesLatch(m.event, items[i].uri, items[i].version)
    requires forall j :: 0 <= j < |items| && j != i ==> items[j].uri != items[i].uri || items[j].version != items[i].version
    ensures TakenReleases(Moved(b, items, m), items, i, d)
  {
    hide Apply, LatchInv, OpenWith;
    var e := EventOf(b, items, m);
    MoveIsOneEvent(b, items, m);
    ApplyKeepsLatchInv(b.o, e);
    ApplyGrowsCompleted(b.o, e);
    if b.next <= i {
      if m.Pipeline? && b.phase.Taking? && b.next == i && items[i].fate.Completes? {
        CompletedCommitReleases(b.o, e, d);
      } else if b.next <= i {
        OthersLeaveItOpen(b.o, e, items[i].uri, items[i].version, d);
      }
    }
  }

  lemma {:induction false} PlayTakingReleases(events: seq<Event>, items: seq<Item>, moves: seq<Move>, i: nat, d: nat)
    requires i < |items| && items[i].Produced? && OthersLeave(items, moves, i)
    requires OpenWith(Run(events), items[i].uri, items[i].version, d)
    ensures TakenReleases(Play(Run(events), items, moves), items, i, d)
  {
    hide Run, Moved, TouchesLatch, OpenWith, LatchInv, Progress;
    if moves == [] {
      NoLostWaiter(events);
    } else {
      var front, m := moves[..|moves| - 1], moves[|moves| - 1];
      assert forall k :: 0 <= k < |front| ==> front[k] == moves[k];
      PlayTakingReleases(events, items, front, i, d);
      PlayKeepsProgress(Run(events), items, front);
      TakingReleases(Play(Run(events), items, front), items, m, i, d);
    }
  }

  /** Every entry of a batch that is over, its latch open at the start and nothing else concerning it: a
      failed one has been released exactly when no commit of the batch died, and a compiled one exactly
      when no commit up to its own died. */
  lemma EntryReleasedExactly(events: seq<Event>, items: seq<Item>, moves: seq<Move>, i: nat)
    requires i < |items| && OpenLatch(Run(events), items[i].uri, items[i].version) && OthersLeave(items, moves, i)
    requires Play(Run(events), items, moves).phase in {Finished, Dead}
    ensures Run(events).latches[items[i].uri].deferred in Play(Run(events), items, moves).o.completed
            <==> if items[i].Failed? then NoCommitDies(items) else NoneDiesUpTo(items, i)
  {
    hide Run, Play, TouchesLatch, NoCommitDies, NoneDiesUpTo;
    if items[i].Failed? {
      FailureReleasedExactlyWhenNoCommitDies(events, items, moves, i);
    } else {
      var d := Run(events).latches[items[i].uri].deferred;
      NoLostWaiter(events);
      SettledIsCompleted(Run(events), items[i].uri);
      PlayTakingReleases(events, items, moves, i, d);
      TakenExactlyWhenNoneDies(Run(events), items, moves, i);
    }
  }

  /** Two files are opened and compiled in one batch.  The first fails to compile and the commit of the
      second dies: the first one's awaiters are left to their timeout. */
  lemma AnotherEntrysDefectStrands()
    ensures exists events, items: seq<Item>, moves ::
              && |items| == 2 && items[0] == Failed("a", 1) && items[1].uri == "b"
              && OpenLatch(Run(events), "a", 1)
              && Play(Run(events), items, moves).phase == Dead
              && Run(events).latches["a"].deferred !in Play(Run(events), items, moves).o.completed
  {
    var session := [Store("a", Document(1, "")), Store("b", Document(1, ""))];
    var items := [Failed("a", 1), Produced("b", 1, Table(1, map[], [], false), false, DiesFirst)];
    var moves := [Pipeline, Pipeline];
    TwoFilesOpen(session);
    hide Run, Apply, OpenLatch;
    SecondCommitKills(Run(session), items, moves);
    hide Play;
    assert LeftAlone(items, moves, "a", 1);
    FailureReleasedExactlyWhenNoCommitDies(session, items, moves, 0);
  }

  lemma SecondCommitKills(o: Owner, items: seq<Item>, moves: seq<Move>)
    requires |items| == 2 && items[0].Failed? && items[1].Produced? && !items[1].fate.Completes?
    requires moves == [Pipeline, Pipeline]
    ensures Play(o, items, moves).phase == Dead && !NoCommitDies(items)
  {
    hide Apply;
    assert moves[..1] == [Pipeline] && [Pipeline][..0] == [];
    assert Play(o, items, []) == Begin(o);
    assert Play(o, items, [Pipeline]).next == 1;
  }

  lemma TwoFilesOpen(events: seq<Event>)
    requires events == [Store("a", Document(1, "")), Store("b", Document(1, ""))]
    ensures OpenLatch(Run(events), "a", 1)
  {
    var first := events[..1];
    assert first[..0] == [];
    assert first == [events[0]];
    assert Run([]) == FRESH;
    assert Run(first) == Apply(FRESH, events[0]);
    assert Run(events) == Apply(Run(first), events[1]);
  }

  // -- The interactive compile -----------------------------------------------------------

  /** How an interactive compile ends in the pool: with a table to commit, with a typed error, or with a
      defect, which the release on error does not see. */
  datatype Outcome = CompiledTable(table: Table, hasErrors: bool, fate: Fate) | TypedError | Defect

  /** `CompileDocument`, after its compile. */
  function Interactive(o: Owner, uri: Uri, version: int, outcome: Outcome): Owner {
    match outcome
    case CompiledTable(table, hasErrors, fate) => Apply(o, Compiled(uri, version, table, hasErrors, fate))
    case TypedError => Apply(o, Release(uri, version))
    case Defect => o
  }

  /** An interactive compile leaves nobody waiting for its version exactly when the latch was not open at
      it, the pool reported a typed error, or its commit ran to the end. */
  lemma InteractiveReleasesExactly(events: seq<Event>, uri: Uri, version: int, outcome: Outcome)
    ensures NobodyWaits(Interactive(Run(events), uri, version, outcome), uri, version) <==>
            !OpenLatch(Run(events), uri, version) || outcome.TypedError? || (outcome.CompiledTable? && outcome.fate.Completes?)
  {
    hide Run, LatchInv, Apply, NobodyWaits, OpenLatch;
    var o := Run(events);
    NoLostWaiter(events);
    match outcome
    case CompiledTable(table, hasErrors, fate) =>
      var e := Compiled(uri, version, table, hasErrors, fate);
      if fate.Completes? {
        TerminalOutcomeReleases(events, e);
      } else {
        DefectStrandsExactlyTheOpenLatch(events, e);
      }
    case TypedError => TerminalOutcomeReleases(events, Release(uri, version));
    case Defect => WaitersAreOfTheOpenLatch(o, uri, version);
  }
}
