/** `AwaitSymbolReadiness`: snapshot through the serial queue, await outside it, look again.

    The system is the two-tier queue running over the data-owner's state, together with any number
    of callers, each in one phase of the handler. */
module Readiness {
  import opened OwnerModel
  import opened TieredQueue
  import opened QueueBounds
  import opened LatchRuns
  import opened VersionRuns

  /** What is put on the queue: the two peeks of a waiter, and the handlers' events. */
  datatype Job =
    | PeekJob(waiter: nat, uri: Uri, requested: int)
    | RecheckJob(waiter: nat, uri: Uri, requested: int)
    | EventJob(event: Event)

  datatype Reply = Peeked(snapshot: Snapshot) | Rechecked(current: bool) | Applied

  function Exec(o: Owner, job: Job): (Owner, Reply) {
    match job
    case PeekJob(_, uri, requested) => (o, Peeked(Peek(o, uri, requested)))
    case RecheckJob(_, uri, requested) => (o, Rechecked(SymbolsAreCurrent(o, uri, requested)))
    case EventJob(e) => (Apply(o, e), Applied)
  }

  datatype Verdict = Ready | NoCompilePending | StaleVersion | TimedOut

  /** `basis` is the queued read the verdict rests on. */
  datatype Stage = Peeking(id: nat) | Awaiting(deferred: nat) | Rechecking(id: nat) | Answered(verdict: Verdict, basis: nat)

  datatype Waiter = Waiter(uri: Uri, requested: int, stage: Stage)

  datatype System = System(q: Queues<Owner, Job, Reply>, waiters: seq<Waiter>)

  const BOOT := System(Start(FRESH), [])

  datatype Move =
    | Call(uri: Uri, requested: int)
    | Resume(waiter: nat)       // what the waiter was waiting for has happened
    | Timeout(waiter: nat)
    | Handle(event: Event)      // a handler offers its effect on the write queue
    | OffQueue(event: Event)    // a step that does not go through the queue
    | Fiber                     // the queue's fiber takes its next action

  predicate GoesAroundTheQueue(e: Event) {
    e.Release? || e.DropDocument? || e.DropCacheEntry?
  }

  /** What the move does on the queues, if anything. */
  function QueueStep(s: System, m: Move): seq<Step<Job>> {
    match m
    case Call(uri, requested) => [OfferRead(PeekJob(|s.waiters|, uri, requested))]
    case Resume(w) =>
      if w < |s.waiters| && s.waiters[w].stage.Awaiting? && s.waiters[w].stage.deferred in s.q.store.completed
      then [OfferRead(RecheckJob(w, s.waiters[w].uri, s.waiters[w].requested))]
      else []
    case Timeout(_) => []
    case Handle(e) => [OfferWrite(EventJob(e))]
    case OffQueue(e) => if GoesAroundTheQueue(e) then [Aside(EventJob(e))] else []
    case Fiber => [Act]
  }

  /** What a waiter makes of the Deferred it was waiting for. */
  function Resumed(s: System, waiter: Waiter): Stage {
    match waiter.stage
    case Peeking(id) =>
      if id in s.q.done && s.q.done[id].Peeked? then
        match s.q.done[id].snapshot
        case ReadyNow => Answered(Ready, id)
        case NoLatch => Answered(NoCompilePending, id)
        case Superseded => Answered(StaleVersion, id)
        case Await(deferred) => Awaiting(deferred)
      else waiter.stage
    case Awaiting(deferred) => if deferred in s.q.store.completed then Rechecking(|s.q.offered|) else waiter.stage
    case Rechecking(id) =>
      if id in s.q.done && s.q.done[id].Rechecked?
      then Answered(if s.q.done[id].current then Ready else StaleVersion, id)
      else waiter.stage
    case Answered(_, _) => waiter.stage
  }

  function WaitersAfter(s: System, m: Move): seq<Waiter> {
    match m
    case Call(uri, requested) => s.waiters + [Waiter(uri, requested, Peeking(|s.q.offered|))]
    case Resume(w) =>
      if w < |s.waiters| then s.waiters[w := s.waiters[w].(stage := Resumed(s, s.waiters[w]))] else s.waiters
    case Timeout(w) =>
      if w < |s.waiters| && s.waiters[w].stage.Awaiting?
      then s.waiters[w := s.waiters[w].(stage := Answered(TimedOut, s.waiters[w].stage.deferred))]
      else s.waiters
    case _ => s.waiters
  }

  function Moved(s: System, m: Move): System {
    var steps := QueueStep(s, m);
    System(if steps == [] then s.q else Next(Exec, s.q, steps[0]), WaitersAfter(s, m))
  }

  function Play(moves: seq<Move>): System {
    if moves == [] then BOOT else Moved(Play(moves[..|moves| - 1]), moves[|moves| - 1])
  }

  /** The queue's part of a run. */
  function Trace(moves: seq<Move>): seq<Step<Job>> {
    if moves == [] then []
    else Trace(moves[..|moves| - 1]) + QueueStep(Play(moves[..|moves| - 1]), moves[|moves| - 1])
  }

  lemma {:induction false} PlayIsQueueRun(moves: seq<Move>)
    ensures Play(moves).q == After(Exec, Start(FRESH), Trace(moves))
  {
    hide Next;
    if moves != [] {
      var front := moves[..|moves| - 1];
      PlayIsQueueRun(front);
      var steps := QueueStep(Play(front), moves[|moves| - 1]);
      if steps == [] {
        assert Trace(moves) == Trace(front);
      } else {
        assert Trace(moves)[..|Trace(moves)| - 1] == Trace(front);
      }
    }
  }

  lemma QueueInv(moves: seq<Move>)
    ensures Inv(Exec, FRESH, Play(moves).q)
  {
    hide Inv, Play, After;
    PlayIsQueueRun(moves);
    RunKeepsInv(Exec, FRESH, Trace(moves));
  }

  // -- The data-owner's history inside the system ----------------------------------------

  /** The handlers' events among the items that ran. */
  function EventsOf(items: seq<Item<Job>>): seq<Event> {
    if items == [] then []
    else
      EventsOf(items[..|items| - 1])
      + if items[|items| - 1].job.EventJob? then [items[|items| - 1].job.event] else []
  }

  lemma {:induction false} ReplayIsRun(items: seq<Item<Job>>)
    ensures Replay(Exec, FRESH, items) == Run(EventsOf(items))
  {
    hide Apply, Peek, SymbolsAreCurrent;
    if items != [] {
      var front, last := items[..|items| - 1], items[|items| - 1];
      ReplayIsRun(front);
      if last.job.EventJob? {
        RunMore(EventsOf(front), last.job.event);
      } else {
        assert EventsOf(items) == EventsOf(front);
      }
    }
  }

  /** The owner as read `id` found it: the state after the events that ran before it. */
  ghost predicate Found(s: System, id: nat, events: seq<Event>) {
    exists p :: 0 <= p < |s.q.log| && s.q.log[p].id == id && events == EventsOf(s.q.log[..p])
  }

  /** The exit of a queued read is its query on the owner it found. */
  lemma ReadFindsOwner(moves: seq<Move>, id: nat)
    requires id in Play(moves).q.done
    ensures var s := Play(moves);
            && id < |s.q.offered|
            && exists events :: Found(s, id, events) && s.q.done[id] == Exec(Run(events), s.q.offered[id].job).1
  {
    hide Play, Exec, Accounted, Conserved, After, Run, EventsOf, Replay;
    var s := Play(moves);
    QueueInv(moves);
    PlayIsQueueRun(moves);
    RunsOneAtATime(Exec, FRESH, Trace(moves));
    var p :| 0 <= p < |s.q.log| && s.q.log[p].id == id;
    assert Offered(s.q, s.q.log[p]);
    ReplayIsRun(s.q.log[..p]);
    assert Found(s, id, EventsOf(s.q.log[..p]));
  }

  // -- What every waiter keeps -----------------------------------------------------------

  ghost predicate Asked(s: System, id: nat, job: Job) {
    id < |s.q.offered| && s.q.offered[id] == Item(id, Read, job)
  }

  /** The verdict is what the deciding peek says. */
  ghost predicate DecidedBy(s: System, w: nat, waiter: Waiter, verdict: Verdict, basis: nat) {
    && basis in s.q.done
    && (|| (&& Asked(s, basis, PeekJob(w, waiter.uri, waiter.requested))
            && s.q.done[basis] == Peeked(match verdict
                                         case Ready => ReadyNow
                                         case NoCompilePending => NoLatch
                                         case _ => Superseded))
        || (&& Asked(s, basis, RecheckJob(w, waiter.uri, waiter.requested))
            && verdict != NoCompilePending
            && s.q.done[basis] == Rechecked(verdict == Ready)))
  }

  /** A first peek of the waiter sent it to wait for this Deferred. */
  ghost predicate SentToWait(s: System, w: nat, waiter: Waiter, deferred: nat) {
    exists id :: Asked(s, id, PeekJob(w, waiter.uri, waiter.requested))
                 && id in s.q.done && s.q.done[id] == Peeked(Await(deferred))
  }

  ghost predicate WaiterOk(s: System, w: nat, waiter: Waiter) {
    match waiter.stage
    case Peeking(id) => Asked(s, id, PeekJob(w, waiter.uri, waiter.requested))
    case Awaiting(deferred) => SentToWait(s, w, waiter, deferred)
    case Rechecking(id) => Asked(s, id, RecheckJob(w, waiter.uri, waiter.requested))
    case Answered(verdict, basis) =>
      if verdict == TimedOut then SentToWait(s, w, waiter, basis) else DecidedBy(s, w, waiter, verdict, basis)
  }

  ghost predicate Grows(s: System, s': System) {
    && s.q.offered <= s'.q.offered
    && (forall id :: id in s.q.done ==> id in s'.q.done && s'.q.done[id] == s.q.done[id])
  }

  lemma GrowingKeepsWaiter(s: System, s': System, w: nat, waiter: Waiter)
    requires WaiterOk(s, w, waiter) && Grows(s, s')
    ensures WaiterOk(s', w, waiter)
  {
  }

  lemma MovedGrows(moves: seq<Move>, m: Move)
    ensures Grows(Play(moves), Moved(Play(moves), m))
  {
    hide Play, Next, Exec, Inv;
    var s := Play(moves);
    QueueInv(moves);
    var steps := QueueStep(s, m);
    if steps != [] {
      NextExtends(Exec, FRESH, s.q, steps[0]);
    }
  }

  lemma MoveKeepsWaiter(s: System, m: Move, w: nat)
    requires Grows(s, Moved(s, m)) && w < |Moved(s, m).waiters|
    requires w < |s.waiters| ==> WaiterOk(s, w, s.waiters[w])
    ensures WaiterOk(Moved(s, m), w, Moved(s, m).waiters[w])
  {
    hide Turn, Bypass, Exec;
    if w < |s.waiters| {
      hide Next, WaiterOk;
      GrowingKeepsWaiter(s, Moved(s, m), w, s.waiters[w]);
      if m == Resume(w) {
        ResumeKeepsWaiter(s, w);
      } else if m == Timeout(w) {
        TimeoutKeepsWaiter(s, w);
      }
    }
  }

  lemma ResumeKeepsWaiter(s: System, w: nat)
    requires w < |s.waiters| && WaiterOk(s, w, s.waiters[w]) && Grows(s, Moved(s, Resume(w)))
    ensures WaiterOk(Moved(s, Resume(w)), w, Moved(s, Resume(w)).waiters[w])
  {
    hide Turn, Bypass, Exec;
  }

  lemma TimeoutKeepsWaiter(s: System, w: nat)
    requires w < |s.waiters| && WaiterOk(s, w, s.waiters[w])
    ensures WaiterOk(Moved(s, Timeout(w)), w, Moved(s, Timeout(w)).waiters[w])
  {
  }

  /** Over every run, every waiter is where its queued reads have brought it. */
  lemma {:induction false} WaitersAreOk(moves: seq<Move>, w: nat)
    requires w < |Play(moves).waiters|
    ensures WaiterOk(Play(moves), w, Play(moves).waiters[w])
  {
    hide Moved, WaiterOk;
    if moves != [] {
      var front, m := moves[..|moves| - 1], moves[|moves| - 1];
      MovedGrows(front, m);
      if w < |Play(front).waiters| {
        WaitersAreOk(front, w);
      }
      MoveKeepsWaiter(Play(front), m, w);
    }
  }

  // -- Answers ---------------------------------------------------------------------------

  /** The data-owner as some read of waiter `w` found it, and the events that had led there. */
  ghost predicate FoundBy(s: System, w: nat, uri: Uri, requested: int, id: nat, events: seq<Event>) {
    && Found(s, id, events)
    && (Asked(s, id, PeekJob(w, uri, requested)) || Asked(s, id, RecheckJob(w, uri, requested)))
  }

  /** There is a table, and where there is a latch, the cached version has reached the latch's, and the
      requested one unless that is negative; -1 stands for nothing cached. */
  predicate UpToDate(o: Owner, uri: Uri, requested: int) {
    && uri in o.graph
    && (uri in o.latches ==>
          var cached := if uri in o.cache then o.cache[uri].version else -1;
          o.latches[uri].version <= cached && (requested >= 0 ==> requested <= cached))
  }

  /** The file's latch has moved past the version asked for. */
  predicate Overtaken(o: Owner, uri: Uri, requested: int) {
    uri in o.latches && 0 <= requested < o.latches[uri].version
  }

  lemma CurrentMeansUpToDate(o: Owner, uri: Uri, requested: int)
    ensures SymbolsAreCurrent(o, uri, requested) <==> UpToDate(o, uri, requested)
  {
  }

  /** What each answer says about the owner the deciding peek found. */
  ghost predicate AnswerHolds(s: System, waiter: Waiter, events: seq<Event>)
    requires waiter.stage.Answered? && waiter.stage.basis < |s.q.offered|
  {
    var o := Run(events);
    match waiter.stage.verdict
    case Ready => UpToDate(o, waiter.uri, waiter.requested)
    case NoCompilePending => waiter.uri !in o.graph && waiter.uri !in o.latches
    case StaleVersion =>
      && !UpToDate(o, waiter.uri, waiter.requested)
      && (s.q.offered[waiter.stage.basis].job.PeekJob? ==> Overtaken(o, waiter.uri, waiter.requested))
    case TimedOut => true
  }

  /** Every answer but a timeout is true of the data-owner its deciding peek found. */
  lemma AnswersHold(moves: seq<Move>, w: nat)
    requires w < |Play(moves).waiters| && Play(moves).waiters[w].stage.Answered?
    requires Play(moves).waiters[w].stage.verdict != TimedOut
    ensures var s, waiter := Play(moves), Play(moves).waiters[w];
            && waiter.stage.basis < |s.q.offered|
            && exists events ::
                 FoundBy(s, w, waiter.uri, waiter.requested, waiter.stage.basis, events) && AnswerHolds(s, waiter, events)
  {
    hide Play, Run, Found, SymbolsAreCurrent, UpToDate;
    var s, waiter := Play(moves), Play(moves).waiters[w];
    WaitersAreOk(moves, w);
    ReadFindsOwner(moves, waiter.stage.basis);
    var events :| Found(s, waiter.stage.basis, events)
                  && s.q.done[waiter.stage.basis] == Exec(Run(events), s.q.offered[waiter.stage.basis].job).1;
    assert FoundBy(s, w, waiter.uri, waiter.requested, waiter.stage.basis, events);
    CurrentMeansUpToDate(Run(events), waiter.uri, waiter.requested);
    if waiter.uri !in Run(events).latches {
      WithoutLatch(Run(events), waiter.uri, waiter.requested);
    }
  }

  lemma WithoutLatch(o: Owner, uri: Uri, requested: int)
    requires uri !in o.latches
    ensures UpToDate(o, uri, requested) <==> uri in o.graph
  {
  }

  /** Where the first peek takes a waiter, by latch, cache and graph of the owner the peek found. */
  ghost predicate FirstStep(o: Owner, uri: Uri, requested: int, id: nat, next: Stage) {
    && (next == Answered(Ready, id) <==> UpToDate(o, uri, requested))
    && (next == Answered(NoCompilePending, id) <==> uri !in o.graph && uri !in o.latches)
    && (next == Answered(StaleVersion, id) <==> !UpToDate(o, uri, requested) && Overtaken(o, uri, requested))
    && (next.Awaiting? <==>
          !UpToDate(o, uri, requested) && uri in o.latches && (requested < 0 || o.latches[uri].version <= requested))
    && (next.Awaiting? ==> next.deferred == o.latches[uri].deferred)
  }

  /** In every run, a waiter whose first peek is done goes on to wait for its file's latch exactly when the
      symbols are not up to date and the latch has not overtaken the request; otherwise it answers. */
  lemma FirstPeekDecides(moves: seq<Move>, w: nat)
    requires w < |Play(moves).waiters| && Play(moves).waiters[w].stage.Peeking?
    requires Play(moves).waiters[w].stage.id in Play(moves).q.done
    ensures var s, waiter := Play(moves), Play(moves).waiters[w];
            exists events ::
              && FoundBy(s, w, waiter.uri, waiter.requested, waiter.stage.id, events)
              && FirstStep(Run(events), waiter.uri, waiter.requested, waiter.stage.id, Moved(s, Resume(w)).waiters[w].stage)
  {
    hide Play, Run, Found, SymbolsAreCurrent, UpToDate, Next;
    var s, waiter := Play(moves), Play(moves).waiters[w];
    WaitersAreOk(moves, w);
    ReadFindsOwner(moves, waiter.stage.id);
    var events :| Found(s, waiter.stage.id, events)
                  && s.q.done[waiter.stage.id] == Exec(Run(events), s.q.offered[waiter.stage.id].job).1;
    assert FoundBy(s, w, waiter.uri, waiter.requested, waiter.stage.id, events);
    var o := Run(events);
    CurrentMeansUpToDate(o, waiter.uri, waiter.requested);
    if waiter.uri !in o.latches {
      WithoutLatch(o, waiter.uri, waiter.requested);
    }
  }

  /** Only a waiter whose first peek found a pending latch, neither up to date nor overtaken, waits for its
      Deferred or times out on it. */
  lemma WaitingMeansPending(moves: seq<Move>, w: nat)
    requires w < |Play(moves).waiters|
    requires var stage := Play(moves).waiters[w].stage;
             stage.Awaiting? || (stage.Answered? && stage.verdict == TimedOut)
    ensures var s, waiter := Play(moves), Play(moves).waiters[w];
            var deferred := if waiter.stage.Awaiting? then waiter.stage.deferred else waiter.stage.basis;
            exists id, events ::
              && FoundBy(s, w, waiter.uri, waiter.requested, id, events)
              && FirstStep(Run(events), waiter.uri, waiter.requested, id, Awaiting(deferred))
  {
    hide Play, Run, Found, SymbolsAreCurrent, UpToDate;
    var s, waiter := Play(moves), Play(moves).waiters[w];
    var deferred := if waiter.stage.Awaiting? then waiter.stage.deferred else waiter.stage.basis;
    WaitersAreOk(moves, w);
    assert SentToWait(s, w, waiter, deferred);
    var id: nat :| Asked(s, id, PeekJob(w, waiter.uri, waiter.requested)) && id in s.q.done && s.q.done[id] == Peeked(Await(deferred));
    ReadFindsOwner(moves, id);
    var events :| Found(s, id, events) && s.q.done[id] == Exec(Run(events), s.q.offered[id].job).1;
    assert FoundBy(s, w, waiter.uri, waiter.requested, id, events);
    CurrentMeansUpToDate(Run(events), waiter.uri, waiter.requested);
  }

  /** In every run, a waiter whose second peek is done answers ready exactly when the symbols were up to
      date at that peek, and that its version is stale otherwise. */
  lemma SecondPeekDecides(moves: seq<Move>, w: nat)
    requires w < |Play(moves).waiters| && Play(moves).waiters[w].stage.Rechecking?
    requires Play(moves).waiters[w].stage.id in Play(moves).q.done
    ensures var s, waiter := Play(moves), Play(moves).waiters[w];
            var id := waiter.stage.id;
            exists events ::
              && FoundBy(s, w, waiter.uri, waiter.requested, id, events)
              && Moved(s, Resume(w)).waiters[w].stage
                 == Answered(if UpToDate(Run(events), waiter.uri, waiter.requested) then Ready else StaleVersion, id)
  {
    hide Play, Run, Found, SymbolsAreCurrent, UpToDate, Next;
    var s, waiter := Play(moves), Play(moves).waiters[w];
    WaitersAreOk(moves, w);
    ReadFindsOwner(moves, waiter.stage.id);
    var events :| Found(s, waiter.stage.id, events)
                  && s.q.done[waiter.stage.id] == Exec(Run(events), s.q.offered[waiter.stage.id].job).1;
    assert FoundBy(s, w, waiter.uri, waiter.requested, waiter.stage.id, events);
    CurrentMeansUpToDate(Run(events), waiter.uri, waiter.requested);
  }

  /** A ready answer whose deciding peek saw a latch, for a required version from 0 up, rests on an
      accepted commit at that version or later, met while the stored document had exactly it,
      whatever woke the waiter up. */
  lemma ReadyAnswerRestsOnCommit(moves: seq<Move>, w: nat)
    requires w < |Play(moves).waiters| && Play(moves).waiters[w].stage.Answered?
    requires Play(moves).waiters[w].stage.verdict == Ready
    ensures var s, waiter := Play(moves), Play(moves).waiters[w];
            exists events ::
              && FoundBy(s, w, waiter.uri, waiter.requested, waiter.stage.basis, events)
              && waiter.uri in Run(events).graph
              && (waiter.uri in Run(events).latches ==>
                    var required := RequiredVersion(Run(events).latches[waiter.uri], waiter.requested);
                    required >= 0 ==> exists version :: EverCommitted(events, waiter.uri, version) && version >= required)
  {
    hide Play, Run, Found, FoundBy, EverCommitted, UpToDate;
    var s, waiter := Play(moves), Play(moves).waiters[w];
    AnswersHold(moves, w);
    var events :| FoundBy(s, w, waiter.uri, waiter.requested, waiter.stage.basis, events)
                  && AnswerHolds(s, waiter, events);
    CurrentMeansUpToDate(Run(events), waiter.uri, waiter.requested);
    if waiter.uri in Run(events).latches && RequiredVersion(Run(events).latches[waiter.uri], waiter.requested) >= 0 {
      ReadyNeedsCommit(events, waiter.uri, waiter.requested);
    }
  }

  // -- Progress --------------------------------------------------------------------------

  function StagesLeft(stage: Stage): nat {
    match stage
    case Peeking(_) => 3
    case Awaiting(_) => 2
    case Rechecking(_) => 1
    case Answered(_, _) => 0
  }

  /** What the waiter is waiting for has happened. */
  predicate Awake(s: System, waiter: Waiter) {
    match waiter.stage
    case Peeking(id) => id in s.q.done
    case Awaiting(deferred) => deferred in s.q.store.completed
    case Rechecking(id) => id in s.q.done
    case Answered(_, _) => false
  }

  lemma MoveAdvances(s: System, m: Move, w: nat)
    requires w < |s.waiters|
    ensures w < |Moved(s, m).waiters|
    ensures var was, now := s.waiters[w], Moved(s, m).waiters[w];
            && now.uri == was.uri && now.requested == was.requested
            && (now.stage == was.stage || StagesLeft(now.stage) < StagesLeft(was.stage))
            && (m == Resume(w) && Awake(s, was) && was.stage.Awaiting? ==> now.stage.Rechecking?)
  {
    hide Next, QueueStep;
  }

  /** Over any run a waiter only moves towards its answer, and an answer never changes. */
  lemma {:induction false} StagesOnlyAdvance(moves: seq<Move>, k: nat, w: nat)
    requires k <= |moves| && w < |Play(moves[..k]).waiters|
    ensures w < |Play(moves).waiters|
    ensures var was, now := Play(moves[..k]).waiters[w], Play(moves).waiters[w];
            && now.uri == was.uri && now.requested == was.requested
            && (now.stage == was.stage || StagesLeft(now.stage) < StagesLeft(was.stage))
  {
    if k == |moves| {
      assert moves[..k] == moves;
    } else {
      var front := moves[..|moves| - 1];
      assert front[..k] == moves[..k];
      StagesOnlyAdvance(front, k, w);
      hide Moved;
      MoveAdvances(Play(front), moves[|moves| - 1], w);
    }
  }

  /** Once what a waiter waits for has happened, its next step takes it forward. */
  lemma AwakeWaiterAdvances(moves: seq<Move>, w: nat)
    requires w < |Play(moves).waiters| && Awake(Play(moves), Play(moves).waiters[w])
    ensures w < |Moved(Play(moves), Resume(w)).waiters|
    ensures StagesLeft(Moved(Play(moves), Resume(w)).waiters[w].stage) < StagesLeft(Play(moves).waiters[w].stage)
  {
    hide Play, Next, Found;
    var s, waiter := Play(moves), Play(moves).waiters[w];
    WaitersAreOk(moves, w);
    if waiter.stage.Peeking? || waiter.stage.Rechecking? {
      ReadFindsOwner(moves, waiter.stage.id);
    }
  }

  /** The timer, too, always ends the wait for a latch. */
  lemma TimerAnswers(s: System, w: nat)
    requires w < |s.waiters| && s.waiters[w].stage.Awaiting?
    ensures w < |Moved(s, Timeout(w)).waiters| && Moved(s, Timeout(w)).waiters[w].stage.Answered?
    ensures Moved(s, Timeout(w)).waiters[w].stage.verdict == TimedOut
  {
  }

  function Fibers(moves: seq<Move>): nat {
    if moves == [] then 0 else Fibers(moves[..|moves| - 1]) + if moves[|moves| - 1].Fiber? then 1 else 0
  }

  lemma ActsMore(steps: seq<Step<Job>>, more: seq<Step<Job>>)
    requires |more| <= 1
    ensures Acts(steps + more) == Acts(steps) + if more != [] && more[0].Act? then 1 else 0
  {
    if more == [] {
      assert steps + more == steps;
    } else {
      assert (steps + more)[..|steps|] == steps;
    }
  }

  lemma OnlyFiberActs(s: System, m: Move)
    ensures |QueueStep(s, m)| <= 1 && (QueueStep(s, m) == [Act] <==> m.Fiber?)
    ensures QueueStep(s, m) != [] && QueueStep(s, m)[0].Act? ==> m.Fiber?
  {
  }

  lemma {:induction false} FibersAreActs(moves: seq<Move>)
    ensures Acts(Trace(moves)) == Fibers(moves)
  {
    if moves != [] {
      var front, m := moves[..|moves| - 1], moves[|moves| - 1];
      FibersAreActs(front);
      hide Play, QueueStep, Acts;
      OnlyFiberActs(Play(front), m);
      ActsMore(Trace(front), QueueStep(Play(front), m));
    }
  }

  lemma {:induction false} TraceExtends(moves: seq<Move>, k: nat)
    requires k <= |moves|
    ensures Trace(moves[..k]) <= Trace(moves)
  {
    if k == |moves| {
      assert moves[..k] == moves;
    } else {
      assert moves[..|moves| - 1][..k] == moves[..k];
      TraceExtends(moves[..|moves| - 1], k);
    }
  }

  /** A waiter's queued read is never blocked, whatever latches are open: until it has run, at most
      one write runs, and the fiber takes a number of actions bounded when the waiter began to wait. */
  lemma QueuedReadIsServed(moves: seq<Move>, k: nat, w: nat, id: nat)
    requires k <= |moves| && w < |Play(moves[..k]).waiters|
    requires Play(moves[..k]).waiters[w].stage in {Peeking(id), Rechecking(id)}
    requires id !in Play(moves).q.done
    ensures WritesRun(Play(moves).q.log) <= WritesRun(Play(moves[..k]).q.log) + 1
    ensures Fibers(moves) < Fibers(moves[..k]) + ActionsBeforeRead(Play(moves[..k]).q, id)
  {
    hide Play, After, Trace, Acts, WritesRun, ActionsBeforeRead;
    WaitersAreOk(moves[..k], w);
    PlayIsQueueRun(moves);
    PlayIsQueueRun(moves[..k]);
    TraceExtends(moves, k);
    FibersAreActs(moves);
    FibersAreActs(moves[..k]);
    var n := |Trace(moves[..k])|;
    assert Trace(moves)[..n] == Trace(moves[..k]);
    ReadWaitsForOneWrite(Exec, FRESH, Trace(moves), n, id);
  }

  /** A recheck ends, if it ends, in one of two verdicts, on its own read. */
  ghost predicate RecheckStage(stage: Stage, id: nat) {
    stage == Rechecking(id) || (stage.Answered? && stage.basis == id && stage.verdict in {Ready, StaleVersion})
  }

  lemma MoveOnRecheck(s: System, m: Move, w: nat, id: nat)
    requires w < |s.waiters| && RecheckStage(s.waiters[w].stage, id)
    ensures w < |Moved(s, m).waiters| && RecheckStage(Moved(s, m).waiters[w].stage, id)
  {
    hide Next, QueueStep;
  }

  lemma {:induction false} RecheckEndsInVerdict(moves: seq<Move>, k: nat, w: nat, id: nat)
    requires k <= |moves| && w < |Play(moves[..k]).waiters| && Play(moves[..k]).waiters[w].stage == Rechecking(id)
    ensures w < |Play(moves).waiters| && RecheckStage(Play(moves).waiters[w].stage, id)
  {
    if k == |moves| {
      assert moves[..k] == moves;
    } else {
      var front := moves[..|moves| - 1];
      assert front[..k] == moves[..k];
      RecheckEndsInVerdict(front, k, w, id);
      hide Moved, RecheckStage;
      MoveOnRecheck(Play(front), moves[|moves| - 1], w, id);
    }
  }

  /** What it takes to end the wait of `w` from `a` on: its timer fires; or its latch has settled, it takes a
      step, the fiber then takes as many actions as may be ahead of its read, and it takes another. */
  ghost predicate WaitEnds(moves: seq<Move>, a: nat, b: nat, w: nat)
    requires a < |moves| && w < |Play(moves[..a]).waiters| && Play(moves[..a]).waiters[w].stage.Awaiting?
  {
    || moves[a] == Timeout(w)
    || (&& a < b < |moves|
        && Play(moves[..a]).waiters[w].stage.deferred in Play(moves[..a]).q.store.completed
        && moves[a] == Resume(w) == moves[b]
        && Fibers(moves[..b]) >= Fibers(moves[..a + 1])
                                 + ActionsBeforeRead(Play(moves[..a + 1]).q, |Play(moves[..a]).q.offered|))
  }

  lemma PlayMore(moves: seq<Move>, a: nat)
    requires a < |moves|
    ensures Play(moves[..a + 1]) == Moved(Play(moves[..a]), moves[a])
  {
    assert moves[..a + 1][..a] == moves[..a];
  }

  /** Once its latch has settled or its timer fires, a waiter is answered after two steps of its own and a
      number of the fiber's that is bounded when the first of them offers its read. */
  lemma WaitingEndsInAnswer(moves: seq<Move>, a: nat, b: nat, w: nat)
    requires a < |moves| && w < |Play(moves[..a]).waiters| && Play(moves[..a]).waiters[w].stage.Awaiting?
    requires WaitEnds(moves, a, b, w)
    ensures w < |Play(moves).waiters| && Play(moves).waiters[w].stage.Answered?
    ensures Play(moves).waiters[w].stage.verdict in {Ready, StaleVersion, TimedOut}
  {
    hide Play, Fibers, ActionsBeforeRead;
    PlayMore(moves, a);
    if moves[a] == Timeout(w) {
      TimerAnswers(Play(moves[..a]), w);
      hide Moved;
      StagesOnlyAdvance(moves, a + 1, w);
    } else {
      var id := |Play(moves[..a]).q.offered|;
      assert Play(moves[..a + 1]).waiters[w].stage == Rechecking(id);
      hide Moved;
      RecheckedInTime(moves, a + 1, b, w, id);
      StagesOnlyAdvance(moves, b + 1, w);
    }
  }

  lemma RecheckedInTime(moves: seq<Move>, a: nat, b: nat, w: nat, id: nat)
    requires a <= b < |moves| && moves[b] == Resume(w)
    requires w < |Play(moves[..a]).waiters| && Play(moves[..a]).waiters[w].stage == Rechecking(id)
    requires Fibers(moves[..b]) >= Fibers(moves[..a]) + ActionsBeforeRead(Play(moves[..a]).q, id)
    ensures w < |Play(moves[..b + 1]).waiters|
    ensures var stage := Play(moves[..b + 1]).waiters[w].stage;
            stage.Answered? && stage.verdict in {Ready, StaleVersion}
  {
    hide Play, Fibers, ActionsBeforeRead, WritesRun, Moved;
    var upTo := moves[..b];
    assert upTo[..a] == moves[..a];
    if id !in Play(upTo).q.done {
      QueuedReadIsServed(upTo, a, w, id);
    }
    RecheckEndsInVerdict(upTo, a, w, id);
    PlayMore(moves, b);
    var after := moves[..b + 1];
    assert after[..b] == upTo && after[..a] == moves[..a];
    RecheckEndsInVerdict(after, a, w, id);
    if Play(upTo).waiters[w].stage == Rechecking(id) {
      AwakeWaiterAdvances(upTo, w);
    } else {
      StagesOnlyAdvance(after, b, w);
    }
  }

  /** That number is at most five more than the reads and writes the queue holds. */
  lemma ActionsAreBounded(q: Queues<Owner, Job, Reply>, id: nat)
    ensures ActionsBeforeRead(q, id) <= |q.batch| + |q.readQueue| + |q.chunk| + 5
  {
  }

  // -- The latch a waiter holds ----------------------------------------------------------

  lemma {:induction false} EventsOfExtends(items: seq<Item<Job>>, p: nat)
    requires p <= |items|
    ensures EventsOf(items[..p]) <= EventsOf(items)
  {
    if p == |items| {
      assert items[..p] == items;
    } else {
      assert items[..|items| - 1][..p] == items[..p];
      EventsOfExtends(items[..|items| - 1], p);
    }
  }

  /** The data-owner inside the system is the one the handled events lead to. */
  lemma StoreIsRun(moves: seq<Move>)
    ensures Play(moves).q.store == Run(EventsOf(Play(moves).q.log))
  {
    hide Play, After, Exec, Run, EventsOf, Replay;
    PlayIsQueueRun(moves);
    RunsOneAtATime(Exec, FRESH, Trace(moves));
    ReplayIsRun(Play(moves).q.log);
  }

  /** No waiter is lost: the Deferred it holds was made for its file, and it is completed or it is
      the one of that file's open latch, which any terminal outcome of that version releases. */
  lemma AwaitedLatchIsOpenOrReleased(moves: seq<Move>, w: nat)
    requires w < |Play(moves).waiters| && Play(moves).waiters[w].stage.Awaiting?
    ensures var o, d := Play(moves).q.store, Play(moves).waiters[w].stage.deferred;
            && d < |o.made| && o.made[d].0 == Play(moves).waiters[w].uri
            && (d in o.completed || (OpenLatch(o, o.made[d].0, o.made[d].1) && o.latches[o.made[d].0].deferred == d))
  {
    hide Play, Run, EventsOf, SymbolsAreCurrent, RequiredVersion;
    var s, waiter := Play(moves), Play(moves).waiters[w];
    var d := waiter.stage.deferred;
    WaitersAreOk(moves, w);
    var id: nat :| Asked(s, id, PeekJob(w, waiter.uri, waiter.requested)) && id in s.q.done && s.q.done[id] == Peeked(Await(d));
    ReadFindsOwner(moves, id);
    var events :| Found(s, id, events) && s.q.done[id] == Exec(Run(events), s.q.offered[id].job).1;
    var p :| 0 <= p < |s.q.log| && s.q.log[p].id == id && events == EventsOf(s.q.log[..p]);
    HeldDeferred(events, waiter.uri, d);
    EventsOfExtends(s.q.log, p);
    var all := EventsOf(s.q.log);
    assert all[..|events|] == events;
    RunGrowsMade(all, |events|);
    StoreIsRun(moves);
    NoLostWaiter(all);
    if d !in s.q.store.completed {
      LatchOfDeferred(Run(all), d);
    }
  }

  lemma HeldDeferred(events: seq<Event>, uri: Uri, d: nat)
    requires uri in Run(events).latches && Run(events).latches[uri].deferred == d
    ensures d < |Run(events).made| && Run(events).made[d].0 == uri
  {
    hide Run;
    NoLostWaiter(events);
    assert LatchMatches(Run(events), uri);
  }

  lemma LatchOfDeferred(o: Owner, d: nat)
    requires LatchInv(o) && d < |o.made| && d !in o.completed
    ensures OpenLatch(o, o.made[d].0, o.made[d].1) && o.latches[o.made[d].0].deferred == d
  {
    assert NotLost(o, d);
    assert LatchMatches(o, o.made[d].0);
  }

  // -- Reads and writes ------------------------------------------------------------------

  /** Peeks are queued as reads, handlers' effects as writes; only steps that go around the queue are neither. */
  ghost predicate RightTier(item: Item<Job>) {
    if item.job.EventJob? then item.tier == Write || (item.tier == Outside && GoesAroundTheQueue(item.job.event))
    else item.tier == Read
  }

  lemma MoveOffersRightTier(s: System, m: Move)
    requires forall i :: 0 <= i < |s.q.offered| ==> RightTier(s.q.offered[i])
    ensures var s' := Moved(s, m);
            forall i :: 0 <= i < |s'.q.offered| ==> RightTier(s'.q.offered[i])
  {
    hide Next, WaitersAfter;
    var steps := QueueStep(s, m);
    if steps != [] {
      StepOffers(s.q, steps[0]);
    }
  }

  lemma {:induction false} OffersRightTier(moves: seq<Move>, i: nat)
    requires i < |Play(moves).q.offered|
    ensures RightTier(Play(moves).q.offered[i])
  {
    if moves != [] {
      var front := moves[..|moves| - 1];
      forall j | 0 <= j < |Play(front).q.offered| ensures RightTier(Play(front).q.offered[j]) {
        OffersRightTier(front, j);
      }
      hide Moved, RightTier;
      MoveOffersRightTier(Play(front), moves[|moves| - 1]);
    }
  }

  /** In every run, whatever is queued as a read leaves the data-owner as it is, so that each answer is the
      same as after the events before it alone. */
  lemma ReadsChangeNothing(moves: seq<Move>)
    ensures ReadsOnly(Exec, Play(moves).q.offered)
    ensures forall p :: 0 <= p < |Play(moves).q.log| ==> RightTier(Play(moves).q.log[p])
  {
    hide Play, Peek, SymbolsAreCurrent, Apply, Conserved, Accounted, History;
    forall i | 0 <= i < |Play(moves).q.offered| ensures RightTier(Play(moves).q.offered[i]) {
      OffersRightTier(moves, i);
    }
    QueueInv(moves);
    forall p | 0 <= p < |Play(moves).q.log| ensures RightTier(Play(moves).q.log[p]) {
      assert Offered(Play(moves).q, Play(moves).q.log[p]);
    }
  }

  // -- How many reads a waiter uses ------------------------------------------------------

  predicate ReadOf(item: Item<Job>, w: nat) {
    (item.job.PeekJob? || item.job.RecheckJob?) && item.job.waiter == w
  }

  function ReadsBy(items: seq<Item<Job>>, w: nat): nat {
    if items == [] then 0 else ReadsBy(items[..|items| - 1], w) + if ReadOf(items[|items| - 1], w) then 1 else 0
  }

  lemma ReadsByMore(items: seq<Item<Job>>, item: Item<Job>, w: nat)
    ensures ReadsBy(items + [item], w) == ReadsBy(items, w) + if ReadOf(item, w) then 1 else 0
  {
    assert (items + [item])[..|items|] == items;
  }

  function ReadsUsed(stage: Stage): nat {
    match stage
    case Peeking(_) => 1
    case Awaiting(_) => 1
    case Rechecking(_) => 2
    case Answered(_, _) => 2
  }

  lemma StepOffers(q: Queues<Owner, Job, Reply>, step: Step<Job>)
    ensures Next(Exec, q, step).offered
            == match step
               case OfferRead(job) => q.offered + [Item(|q.offered|, Read, job)]
               case OfferWrite(job) => q.offered + [Item(|q.offered|, Write, job)]
               case Aside(job) => q.offered + [Item(|q.offered|, Outside, job)]
               case Act => q.offered
  {
    hide Exec;
  }

  lemma MoveUsesReads(s: System, m: Move, w: nat)
    requires ReadsBy(s.q.offered, w) <= if w < |s.waiters| then ReadsUsed(s.waiters[w].stage) else 0
    ensures var s' := Moved(s, m);
            ReadsBy(s'.q.offered, w) <= if w < |s'.waiters| then ReadsUsed(s'.waiters[w].stage) else 0
  {
    hide Next, ReadsBy;
    var steps := QueueStep(s, m);
    if steps != [] {
      StepOffers(s.q, steps[0]);
      match steps[0]
      case OfferRead(job) => ReadsByMore(s.q.offered, Item(|s.q.offered|, Read, job), w);
      case OfferWrite(job) => ReadsByMore(s.q.offered, Item(|s.q.offered|, Write, job), w);
      case Aside(job) => ReadsByMore(s.q.offered, Item(|s.q.offered|, Outside, job), w);
      case Act =>
    }
  }

  /** No waiter ever uses more than two queued reads, and one that has not been called none. */
  lemma {:induction false} AtMostTwoReads(moves: seq<Move>, w: nat)
    ensures var s := Play(moves);
            ReadsBy(s.q.offered, w) <= if w < |s.waiters| then ReadsUsed(s.waiters[w].stage) else 0
    ensures ReadsBy(Play(moves).q.offered, w) <= 2
  {
    if moves != [] {
      AtMostTwoReads(moves[..|moves| - 1], w);
      hide Moved, ReadsBy;
      MoveUsesReads(Play(moves[..|moves| - 1]), moves[|moves| - 1], w);
    }
  }
}
