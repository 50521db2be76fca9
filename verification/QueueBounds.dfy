/** How long an offered effect waits, whatever else keeps arriving. */
module QueueBounds {
  import opened TieredQueue

  function IndexOf<J>(items: seq<Item<J>>, id: nat): (i: nat)
    ensures i <= |items|
    ensures i < |items| ==> items[i].id == id
    ensures i == |items| ==> forall j :: 0 <= j < |items| ==> items[j].id != id
  {
    if items == [] || items[0].id == id then 0 else 1 + IndexOf(items[1..], id)
  }

  predicate Holds<J>(items: seq<Item<J>>, id: nat) {
    IndexOf(items, id) < |items|
  }

  lemma {:induction false} IndexAfterOffer<J>(items: seq<Item<J>>, item: Item<J>, id: nat)
    requires Holds(items, id)
    ensures IndexOf(items + [item], id) == IndexOf(items, id)
  {
    if items[0].id != id {
      assert (items + [item])[1..] == items[1..] + [item];
      IndexAfterOffer(items[1..], item, id);
    }
  }

  /** How many actions of the fiber can pass before read `id` has run. */
  function ActionsBeforeRead<S, J, R>(q: Queues<S, J, R>, id: nat): nat {
    if id in q.done then 0
    else if Holds(q.batch, id) then IndexOf(q.batch, id) + 1
    else IndexOf(q.readQueue, id) + match q.phase
                                    case Top => 2
                                    case Draining => |q.batch| + 5
                                    case Writing => |q.chunk| + 3
  }

  /** How many writes can run before read `id` does: the one in flight or next, at most. */
  function WritesBeforeRead<S, J, R>(q: Queues<S, J, R>, id: nat): nat {
    if id in q.done || Holds(q.batch, id) || q.phase == Top then 0
    else if q.phase == Draining then 1
    else |q.chunk|
  }

  /** How many rounds can begin before write `id` has run, when `k` writes are ahead of it. */
  function RoundsBeforeWrite<S, J, R>(q: Queues<S, J, R>, id: nat): nat {
    if id in q.done || Holds(q.chunk, id) then 0
    else IndexOf(q.writeQueue, id) + if q.phase == Draining then 0 else 1
  }

  /** How many actions are left of the round the fiber is in. */
  function ActionsLeftInRound<S, J, R>(q: Queues<S, J, R>): nat {
    match q.phase
    case Top => 0
    case Draining => |q.batch| + 3
    case Writing => |q.chunk| + 1
  }

  ghost predicate IsRead<S, J, R>(q: Queues<S, J, R>, id: nat) {
    id < |q.offered| && q.offered[id].tier == Read
  }

  ghost predicate IsWrite<S, J, R>(q: Queues<S, J, R>, id: nat) {
    id < |q.offered| && q.offered[id].tier == Write
  }

  lemma UnrunReadIsHeld<S, J, R>(q: Queues<S, J, R>, id: nat)
    requires Accounted(q) && IsRead(q, id) && id !in q.done
    ensures Holds(q.batch, id) || Holds(q.readQueue, id)
  {
    assert Pending(q, id);
    assert q.offered[id] !in PendingWrites(q);
    var i :| 0 <= i < |PendingReads(q)| && PendingReads(q)[i] == q.offered[id];
    assert if i < |q.batch| then q.batch[i].id == id else q.readQueue[i - |q.batch|].id == id;
  }

  lemma UnrunWriteIsHeld<S, J, R>(q: Queues<S, J, R>, id: nat)
    requires Accounted(q) && IsWrite(q, id) && id !in q.done
    ensures Holds(q.chunk, id) || Holds(q.writeQueue, id)
  {
    assert Pending(q, id);
    assert q.offered[id] !in PendingReads(q);
    var i :| 0 <= i < |PendingWrites(q)| && PendingWrites(q)[i] == q.offered[id];
    assert if i < |q.chunk| then q.chunk[i].id == id else q.writeQueue[i - |q.chunk|].id == id;
  }

  function WritesRun<J>(log: seq<Item<J>>): nat { |OfTier(log, Write)| }

  lemma HeadTiers<S, J, R>(q: Queues<S, J, R>)
    requires Accounted(q)
    ensures q.batch != [] ==> q.batch[0].tier == Read
    ensures q.chunk != [] ==> q.chunk[0].tier == Write
  {
    assert q.batch != [] ==> PendingReads(q)[0] == q.batch[0];
    assert q.chunk != [] ==> PendingWrites(q)[0] == q.chunk[0];
  }

  lemma StepForRead<S, J, R>(exec: (S, J) -> (S, R), q: Queues<S, J, R>, s: Step<J>, id: nat)
    requires Accounted(q) && Shape(q) && IsRead(q, id) && id !in q.done
    ensures var q' := Next(exec, q, s);
            id !in q'.done ==>
              && WritesRun(q'.log) + WritesBeforeRead(q', id) <= WritesRun(q.log) + WritesBeforeRead(q, id)
              && (if s.Act? then 1 else 0) + ActionsBeforeRead(q', id) <= ActionsBeforeRead(q, id)
  {
    hide Accounted, OfTier;
    UnrunReadIsHeld(q, id);
    HeadTiers(q);
    var q' := Next(exec, q, s);
    match s
    case OfferRead(job) =>
      if !Holds(q.batch, id) {
        IndexAfterOffer(q.readQueue, Item(|q.offered|, Read, job), id);
      }
    case OfferWrite(job) =>
    case Aside(job) => LogAppend(q.log, Item(|q.offered|, Outside, job), Write);
    case Act =>
      if q.phase == Draining && q.batch != [] {
        LogAppend(q.log, q.batch[0], Write);
      } else if q.phase == Writing && q.chunk != [] {
        LogAppend(q.log, q.chunk[0], Write);
      }
  }

  function Acts<J>(steps: seq<Step<J>>): nat {
    if steps == [] then 0 else Acts(steps[..|steps| - 1]) + if steps[|steps| - 1].Act? then 1 else 0
  }

  /** How many rounds begin during the run. */
  function Rounds<S, J, R>(exec: (S, J) -> (S, R), store: S, steps: seq<Step<J>>): nat
    decreases |steps|
  {
    if steps == [] then 0
    else
      var front := steps[..|steps| - 1];
      Rounds(exec, store, front)
      + if steps[|steps| - 1].Act? && After(exec, Start(store), front).phase == Top then 1 else 0
  }

  /** From the moment a read has been offered until it has run, at most one write runs, and the
      fiber takes a number of actions bounded at that moment, whatever keeps arriving. */
  lemma {:induction false} ReadWaitsForOneWrite<S, J, R>(exec: (S, J) -> (S, R), store: S, steps: seq<Step<J>>, k: nat, id: nat)
    requires k <= |steps|
    requires IsRead(After(exec, Start(store), steps[..k]), id)
    ensures var q, mid := After(exec, Start(store), steps), After(exec, Start(store), steps[..k]);
            && IsRead(q, id)
            && (id !in q.done ==>
                  && WritesRun(q.log) <= WritesRun(mid.log) + 1
                  && WritesRun(q.log) + WritesBeforeRead(q, id) <= WritesRun(mid.log) + WritesBeforeRead(mid, id)
                  && Acts(steps) + ActionsBeforeRead(q, id) <= Acts(steps[..k]) + ActionsBeforeRead(mid, id)
                  && Acts(steps) < Acts(steps[..k]) + ActionsBeforeRead(mid, id))
    decreases |steps|
  {
    hide Accounted, Completed, History, Conserved, OfTier, ActionsBeforeRead, WritesBeforeRead, IndexOf, Next, WritesRun;
    var q, mid := After(exec, Start(store), steps), After(exec, Start(store), steps[..k]);
    RunKeepsInv(exec, store, steps[..k]);
    RunKeepsInv(exec, store, steps);
    if k == |steps| {
      assert steps[..k] == steps;
    } else {
      var front, last := steps[..|steps| - 1], steps[|steps| - 1];
      assert front[..k] == steps[..k];
      ReadWaitsForOneWrite(exec, store, front, k, id);
      RunKeepsInv(exec, store, front);
      var p := After(exec, Start(store), front);
      NextExtends(exec, store, p, last);
      if id !in q.done {
        StepForRead(exec, p, last, id);
      }
    }
    AtMostOneWriteAhead(mid, id);
    if id !in q.done {
      SomeActionLeft(q, id);
    }
  }

  lemma AtMostOneWriteAhead<S, J, R>(q: Queues<S, J, R>, id: nat)
    requires Shape(q)
    ensures WritesBeforeRead(q, id) <= 1
  {
  }

  lemma SomeActionLeft<S, J, R>(q: Queues<S, J, R>, id: nat)
    requires id !in q.done
    ensures ActionsBeforeRead(q, id) > 0
  {
  }

  lemma StepForWrite<S, J, R>(exec: (S, J) -> (S, R), q: Queues<S, J, R>, s: Step<J>, id: nat)
    requires Accounted(q) && Shape(q) && IsWrite(q, id) && id !in q.done
    ensures var q' := Next(exec, q, s);
            id !in q'.done ==>
              (if s.Act? && q.phase == Top then 1 else 0) + RoundsBeforeWrite(q', id) <= RoundsBeforeWrite(q, id)
  {
    hide Accounted, OfTier;
    UnrunWriteIsHeld(q, id);
    HeadTiers(q);
    if s.OfferWrite? && !Holds(q.chunk, id) {
      IndexAfterOffer(q.writeQueue, Item(|q.offered|, Write, s.job), id);
    }
  }

  /** A write with `k` writes ahead of it runs within `k + 1` rounds of the loop, however many reads
      keep arriving: while it has not run, at most that many rounds have begun. */
  lemma {:induction false} WriteRunsWithinRounds<S, J, R>(exec: (S, J) -> (S, R), store: S, steps: seq<Step<J>>, k: nat, id: nat)
    requires k <= |steps|
    requires IsWrite(After(exec, Start(store), steps[..k]), id)
    ensures var q, mid := After(exec, Start(store), steps), After(exec, Start(store), steps[..k]);
            && IsWrite(q, id)
            && (id !in q.done ==>
                  && Rounds(exec, store, steps) + RoundsBeforeWrite(q, id)
                     <= Rounds(exec, store, steps[..k]) + RoundsBeforeWrite(mid, id)
                  && Rounds(exec, store, steps) <= Rounds(exec, store, steps[..k]) + IndexOf(mid.writeQueue, id) + 1)
    decreases |steps|
  {
    hide Accounted, Completed, History, Conserved, OfTier, IndexOf, Next, RoundsBeforeWrite, Holds;
    var q, mid := After(exec, Start(store), steps), After(exec, Start(store), steps[..k]);
    if k == |steps| {
      assert steps[..k] == steps;
    } else {
      var front, last := steps[..|steps| - 1], steps[|steps| - 1];
      assert front[..k] == steps[..k];
      WriteRunsWithinRounds(exec, store, front, k, id);
      RunKeepsInv(exec, store, front);
      var p := After(exec, Start(store), front);
      NextExtends(exec, store, p, last);
      if id !in q.done {
        StepForWrite(exec, p, last, id);
      }
    }
    RoundsAhead(mid, id);
  }

  lemma RoundsAhead<S, J, R>(q: Queues<S, J, R>, id: nat)
    ensures RoundsBeforeWrite(q, id) <= IndexOf(q.writeQueue, id) + 1
  {
  }

  /** No round goes on for ever: reads that arrive during it wait for the next one. */
  lemma {:induction false} RoundsEnd<S, J, R>(exec: (S, J) -> (S, R), store: S, steps: seq<Step<J>>, k: nat)
    requires k <= |steps|
    requires Rounds(exec, store, steps) == Rounds(exec, store, steps[..k])
    ensures var q, mid := After(exec, Start(store), steps), After(exec, Start(store), steps[..k]);
            Acts(steps) + ActionsLeftInRound(q) <= Acts(steps[..k]) + ActionsLeftInRound(mid)
    decreases |steps|
  {
    hide Accounted, Completed, History, Conserved, OfTier;
    if k == |steps| {
      assert steps[..k] == steps;
    } else {
      var front, last := steps[..|steps| - 1], steps[|steps| - 1];
      assert front[..k] == steps[..k];
      RoundsGrow(exec, store, front, k);
      RoundsEnd(exec, store, front, k);
      RunKeepsInv(exec, store, front);
    }
  }

  lemma {:induction false} RoundsGrow<S, J, R>(exec: (S, J) -> (S, R), store: S, steps: seq<Step<J>>, k: nat)
    requires k <= |steps|
    ensures Rounds(exec, store, steps[..k]) <= Rounds(exec, store, steps)
    decreases |steps|
  {
    if k == |steps| {
      assert steps[..k] == steps;
    } else {
      assert steps[..|steps| - 1][..k] == steps[..k];
      RoundsGrow(exec, store, steps[..|steps| - 1], k);
    }
  }
}
