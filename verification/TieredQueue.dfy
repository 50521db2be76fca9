/** The data-owner's two-tier serial queue: one daemon fiber drains every pending read,
    then runs at most one write, and completes one Deferred per item.

    The model is a transition system over values (`Queues`, `Next`), so that callers may
    offer items between any two actions of the fiber.  The store `S`, the effects `J`
    and their exits `R` are arbitrary: `exec` says what running an effect on a store does,
    and an exit may well be a failure. */
module TieredQueue {

  datatype Tier = Read | Write | Outside

  /** An offered effect; `id` names its Deferred. */
  datatype Item<J> = Item(id: nat, tier: Tier, job: J)

  /** Where the fiber stands in one round of its loop. */
  datatype Phase = Top | Draining | Writing

  datatype Queues<S, J, R> = Queues(
    readQueue: seq<Item<J>>,  // queues.read
    writeQueue: seq<Item<J>>, // queues.write
    batch: seq<Item<J>>,      // the reads taken by this round and not yet run
    chunk: seq<Item<J>>,      // the write taken by this round and not yet run
    phase: Phase,
    store: S,
    done: map<nat, R>,        // completed Deferreds and their exits
    offered: seq<Item<J>>,    // every item ever offered, in offer order
    log: seq<Item<J>>,        // every item ever run, in the order it ran
    before: seq<S>)           // the store each of them found

  function Start<S, J, R>(store: S): Queues<S, J, R> {
    Queues([], [], [], [], Top, store, map[], [], [], [])
  }

  /** `Queue.offer` on one of the two queues. */
  function Offer<S, J, R>(q: Queues<S, J, R>, tier: Tier, job: J): Queues<S, J, R>
    requires tier != Outside
  {
    var item := Item(|q.offered|, tier, job);
    var q' := q.(offered := q.offered + [item]);
    if tier == Read then q'.(readQueue := q.readQueue + [item]) else q'.(writeQueue := q.writeQueue + [item])
  }

  /** `processItem`: run the effect, then complete its own Deferred with the exit. */
  function Process<S, J, R>(exec: (S, J) -> (S, R), q: Queues<S, J, R>, item: Item<J>): Queues<S, J, R> {
    var (store', exit) := exec(q.store, item.job);
    q.(store := store', done := q.done[item.id := exit], log := q.log + [item], before := q.before + [q.store])
  }

  /** An access to the store that does not go through the queues; it is instantaneous. */
  function Bypass<S, J, R>(exec: (S, J) -> (S, R), q: Queues<S, J, R>, job: J): Queues<S, J, R> {
    var item := Item(|q.offered|, Outside, job);
    Process(exec, q.(offered := q.offered + [item]), item)
  }

  /** The fiber's next action. */
  function Turn<S, J, R>(exec: (S, J) -> (S, R), q: Queues<S, J, R>): Queues<S, J, R> {
    match q.phase
    case Top => q.(batch := q.readQueue, readQueue := [], phase := Draining)
    case Draining =>
      if q.batch != [] then Process(exec, q.(batch := q.batch[1..]), q.batch[0])
      else if q.writeQueue != [] then q.(chunk := [q.writeQueue[0]], writeQueue := q.writeQueue[1..], phase := Writing)
      else q.(chunk := [], phase := Writing)
    case Writing =>
      if q.chunk != [] then Process(exec, q.(chunk := q.chunk[1..]), q.chunk[0])
      else q.(phase := Top)
  }

  datatype Step<J> = OfferRead(job: J) | OfferWrite(job: J) | Aside(job: J) | Act

  function Next<S, J, R>(exec: (S, J) -> (S, R), q: Queues<S, J, R>, s: Step<J>): Queues<S, J, R> {
    match s
    case OfferRead(job) => Offer(q, Read, job)
    case OfferWrite(job) => Offer(q, Write, job)
    case Aside(job) => Bypass(exec, q, job)
    case Act => Turn(exec, q)
  }

  function After<S, J, R>(exec: (S, J) -> (S, R), q: Queues<S, J, R>, steps: seq<Step<J>>): Queues<S, J, R>
    decreases |steps|
  {
    if steps == [] then q
    else Next(exec, After(exec, q, steps[..|steps| - 1]), steps[|steps| - 1])
  }

  // ---------------------------------------------------------------------------------
  // The one-at-a-time store the queues are compared with
  // ---------------------------------------------------------------------------------

  function OfTier<J>(items: seq<Item<J>>, tier: Tier): seq<Item<J>> {
    if items == [] then []
    else OfTier(items[..|items| - 1], tier)
         + (if items[|items| - 1].tier == tier then [items[|items| - 1]] else [])
  }

  /** The store after running `items` one at a time. */
  function Replay<S, J, R>(exec: (S, J) -> (S, R), store: S, items: seq<Item<J>>): S {
    if items == [] then store
    else exec(Replay(exec, store, items[..|items| - 1]), items[|items| - 1].job).0
  }

  /** Everything but the reads: the only items that may change the store. */
  function Changes<J>(items: seq<Item<J>>): seq<Item<J>> {
    if items == [] then []
    else Changes(items[..|items| - 1])
         + (if items[|items| - 1].tier != Read then [items[|items| - 1]] else [])
  }

  /** Effects offered through `dataOwnerRead` leave the store as it is. */
  ghost predicate ReadsOnly<S(!new), J, R>(exec: (S, J) -> (S, R), items: seq<Item<J>>) {
    forall i, s :: 0 <= i < |items| && items[i].tier == Read ==> exec(s, items[i].job).0 == s
  }

  lemma {:induction false} ReplayChanges<S(!new), J, R>(exec: (S, J) -> (S, R), store: S, items: seq<Item<J>>)
    requires ReadsOnly(exec, items)
    ensures Replay(exec, store, items) == Replay(exec, store, Changes(items))
  {
    if items != [] {
      var front, last := items[..|items| - 1], items[|items| - 1];
      ReplayChanges(exec, store, front);
      if last.tier != Read {
        assert Changes(items)[..|Changes(items)| - 1] == Changes(front);
      } else {
        assert Changes(items) == Changes(front);
      }
    }
  }

  // ---------------------------------------------------------------------------------
  // What every step keeps
  // ---------------------------------------------------------------------------------

  /** Each tier is first in, first out: what was offered is what ran, then what this round
      has taken, then what still waits. */
  ghost predicate Conserved<S, J, R>(q: Queues<S, J, R>) {
    && OfTier(q.offered, Read) == OfTier(q.log, Read) + q.batch + q.readQueue
    && OfTier(q.offered, Write) == OfTier(q.log, Write) + q.chunk + q.writeQueue
    && OfTier(q.offered, Outside) == OfTier(q.log, Outside)
  }

  ghost predicate Shape<S, J, R>(q: Queues<S, J, R>) {
    && (q.phase == Top ==> q.batch == [] && q.chunk == [])
    && (q.phase == Draining ==> q.chunk == [])
    && (q.phase == Writing ==> q.batch == [] && |q.chunk| <= 1)
  }

  function PendingReads<S, J, R>(q: Queues<S, J, R>): seq<Item<J>> { q.batch + q.readQueue }

  function PendingWrites<S, J, R>(q: Queues<S, J, R>): seq<Item<J>> { q.chunk + q.writeQueue }

  /** `items` wait for their turn: offered earlier to later, none of them run. */
  ghost predicate Waiting<S, J, R>(q: Queues<S, J, R>, items: seq<Item<J>>, tier: Tier) {
    && (forall i :: 0 <= i < |items| ==> Offered(q, items[i]) && items[i].tier == tier && items[i].id !in q.done)
    && (forall i, j :: 0 <= i < j < |items| ==> items[i].id < items[j].id)
  }

  ghost predicate Offered<S, J, R>(q: Queues<S, J, R>, item: Item<J>) {
    item.id < |q.offered| && q.offered[item.id] == item
  }

  ghost predicate Pending<S, J, R>(q: Queues<S, J, R>, id: nat) {
    id < |q.offered| && (q.offered[id] in PendingReads(q) || q.offered[id] in PendingWrites(q))
  }

  ghost predicate NoneLost<S, J, R>(q: Queues<S, J, R>) {
    && (forall i :: 0 <= i < |q.offered| ==> q.offered[i].id == i && (i in q.done || Pending(q, i)))
    && (forall id :: id in q.done ==> id < |q.offered|)
  }

  /** Every Deferred is accounted for: completed, or its item is still on the way. */
  ghost predicate Accounted<S, J, R>(q: Queues<S, J, R>) {
    && Waiting(q, PendingReads(q), Read)
    && Waiting(q, PendingWrites(q), Write)
    && NoneLost(q)
  }

  /** `q.before` is the history of a one-at-a-time store that starts as `store` and runs the log. */
  ghost predicate History<S, J, R>(exec: (S, J) -> (S, R), store: S, q: Queues<S, J, R>) {
    && |q.before| == |q.log|
    && (if q.log == [] then q.store == store
        else q.before[0] == store && q.store == exec(q.before[|q.log| - 1], q.log[|q.log| - 1].job).0)
    && (forall p :: 0 < p < |q.log| ==> q.before[p] == exec(q.before[p - 1], q.log[p - 1].job).0)
  }

  /** The completed Deferreds are those of the log, each completed by its own effect. */
  ghost predicate Completed<S, J, R>(exec: (S, J) -> (S, R), q: Queues<S, J, R>) {
    && |q.before| == |q.log|
    && (forall p :: 0 <= p < |q.log| ==>
          && Offered(q, q.log[p])
          && q.log[p].id in q.done
          && q.done[q.log[p].id] == exec(q.before[p], q.log[p].job).1)
    && (forall id :: id in q.done ==> exists p :: 0 <= p < |q.log| && q.log[p].id == id)
    && (forall i, j :: 0 <= i < j < |q.log| ==> q.log[i].id != q.log[j].id)
  }

  ghost predicate Inv<S, J, R>(exec: (S, J) -> (S, R), store: S, q: Queues<S, J, R>) {
    Conserved(q) && Shape(q) && Accounted(q) && History(exec, store, q) && Completed(exec, q)
  }

  /** Two states that differ only in what still waits. */
  ghost predicate SamePast<S, J, R>(q: Queues<S, J, R>, q': Queues<S, J, R>) {
    q'.offered == q.offered && q'.done == q.done && q'.log == q.log && q'.before == q.before && q'.store == q.store
  }

  lemma ProcessKeepsHistory<S, J, R>(exec: (S, J) -> (S, R), store: S, q: Queues<S, J, R>, q0: Queues<S, J, R>, item: Item<J>)
    requires History(exec, store, q) && q0.log == q.log && q0.before == q.before && q0.store == q.store
    ensures History(exec, store, Process(exec, q0, item))
  {
  }

  lemma ProcessCompletesItsOwn<S, J, R>(exec: (S, J) -> (S, R), q: Queues<S, J, R>, q0: Queues<S, J, R>, item: Item<J>)
    requires Completed(exec, q) && SamePast(q, q0) && Offered(q, item) && item.id !in q.done
    ensures var q' := Process(exec, q0, item);
            forall p :: 0 <= p < |q'.log| ==>
              && Offered(q', q'.log[p])
              && q'.log[p].id in q'.done
              && q'.done[q'.log[p].id] == exec(q'.before[p], q'.log[p].job).1
  {
    var q' := Process(exec, q0, item);
    forall p | 0 <= p < |q'.log|
      ensures Offered(q', q'.log[p]) && q'.log[p].id in q'.done
              && q'.done[q'.log[p].id] == exec(q'.before[p], q'.log[p].job).1
    {
      if p < |q.log| {
        assert q.log[p].id in q.done;
      }
    }
  }

  lemma ProcessKeepsCompleted<S, J, R>(exec: (S, J) -> (S, R), q: Queues<S, J, R>, q0: Queues<S, J, R>, item: Item<J>)
    requires Completed(exec, q) && SamePast(q, q0) && Offered(q, item) && item.id !in q.done
    ensures Completed(exec, Process(exec, q0, item))
  {
    hide Offered;
    var q' := Process(exec, q0, item);
    ProcessCompletesItsOwn(exec, q, q0, item);
    forall id | id in q'.done ensures exists p :: 0 <= p < |q'.log| && q'.log[p].id == id {
      if id == item.id {
        assert q'.log[|q.log|].id == id;
      } else {
        var p :| 0 <= p < |q.log| && q.log[p].id == id;
        assert q'.log[p].id == id;
      }
    }
  }

  /** `item` is the next pending item of its tier in `q`, and `q0` is `q` without it. */
  ghost predicate FirstOut<S, J, R>(q: Queues<S, J, R>, q0: Queues<S, J, R>, item: Item<J>) {
    && SamePast(q, q0)
    && (|| (PendingReads(q) == [item] + PendingReads(q0) && PendingWrites(q0) == PendingWrites(q))
        || (PendingWrites(q) == [item] + PendingWrites(q0) && PendingReads(q0) == PendingReads(q)))
  }

  lemma FirstIsOffered<S, J, R>(q: Queues<S, J, R>, q0: Queues<S, J, R>, item: Item<J>)
    requires Accounted(q) && FirstOut(q, q0, item)
    ensures Offered(q, item) && item.id !in q.done
    ensures item.tier == if PendingReads(q) == [item] + PendingReads(q0) then Read else Write
  {
    assert PendingReads(q) == [item] + PendingReads(q0) ==> PendingReads(q)[0] == item;
    assert PendingWrites(q) == [item] + PendingWrites(q0) ==> PendingWrites(q)[0] == item;
  }

  lemma StillWaiting<S, J, R>(q: Queues<S, J, R>, q': Queues<S, J, R>, items: seq<Item<J>>, tier: Tier, id: nat)
    requires Waiting(q, items, tier) && q'.offered == q.offered && q'.done.Keys == q.done.Keys + {id}
    requires forall i :: 0 <= i < |items| ==> items[i].id != id
    ensures Waiting(q', items, tier)
  {
  }

  lemma RestWaiting<S, J, R>(q: Queues<S, J, R>, item: Item<J>, items: seq<Item<J>>, tier: Tier)
    requires Waiting(q, [item] + items, tier)
    ensures Waiting(q, items, tier) && forall i :: 0 <= i < |items| ==> items[i].id != item.id
  {
    var all := [item] + items;
    assert all[0] == item;
    forall i | 0 <= i < |items| ensures items[i] == all[i + 1] {}
  }

  lemma OthersWaiting<S, J, R>(q: Queues<S, J, R>, item: Item<J>, items: seq<Item<J>>, tier: Tier)
    requires Waiting(q, items, tier) && Offered(q, item) && item.tier != tier
    ensures forall i :: 0 <= i < |items| ==> items[i].id != item.id
  {
  }

  lemma ProcessKeepsAccounted<S, J, R>(exec: (S, J) -> (S, R), q: Queues<S, J, R>, q0: Queues<S, J, R>, item: Item<J>)
    requires Accounted(q) && FirstOut(q, q0, item)
    ensures Accounted(Process(exec, q0, item))
  {
    hide Waiting, NoneLost, Offered;
    var q' := Process(exec, q0, item);
    FirstIsOffered(q, q0, item);
    if PendingReads(q) == [item] + PendingReads(q0) {
      RestWaiting(q, item, PendingReads(q0), Read);
      OthersWaiting(q, item, PendingWrites(q0), Write);
    } else {
      RestWaiting(q, item, PendingWrites(q0), Write);
      OthersWaiting(q, item, PendingReads(q0), Read);
    }
    StillWaiting(q, q', PendingReads(q'), Read, item.id);
    StillWaiting(q, q', PendingWrites(q'), Write, item.id);
    ProcessLosesNone(exec, q, q0, item);
  }

  lemma ProcessLosesNone<S, J, R>(exec: (S, J) -> (S, R), q: Queues<S, J, R>, q0: Queues<S, J, R>, item: Item<J>)
    requires NoneLost(q) && FirstOut(q, q0, item) && Offered(q, item)
    ensures NoneLost(Process(exec, q0, item))
  {
    var q' := Process(exec, q0, item);
    forall i | 0 <= i < |q'.offered| ensures q'.offered[i].id == i && (i in q'.done || Pending(q', i)) {
      if i !in q'.done {
        assert Pending(q, i) && q.offered[i] != item;
      }
    }
  }

  lemma LogAppend<J>(items: seq<Item<J>>, item: Item<J>, tier: Tier)
    ensures OfTier(items + [item], tier) == OfTier(items, tier) + (if item.tier == tier then [item] else [])
  {
    assert (items + [item])[..|items|] == items;
  }

  /** Running the first pending item keeps everything but the queues' shape. */
  lemma ProcessKeeps<S, J, R>(exec: (S, J) -> (S, R), store: S, q: Queues<S, J, R>, q0: Queues<S, J, R>, item: Item<J>)
    requires Inv(exec, store, q) && FirstOut(q, q0, item)
    ensures var q' := Process(exec, q0, item);
            Accounted(q') && History(exec, store, q') && Completed(exec, q')
  {
    hide Conserved, Accounted, History, Completed, PendingReads, PendingWrites, Offered, Process;
    FirstIsOffered(q, q0, item);
    ProcessKeepsHistory(exec, store, q, q0, item);
    ProcessKeepsCompleted(exec, q, q0, item);
    ProcessKeepsAccounted(exec, q, q0, item);
  }

  lemma SamePending<S, J, R>(q: Queues<S, J, R>, q': Queues<S, J, R>)
    requires Accounted(q) && PendingReads(q') == PendingReads(q) && PendingWrites(q') == PendingWrites(q)
    requires q'.offered == q.offered && q'.done == q.done
    ensures Accounted(q')
  {
    forall i | 0 <= i < |q'.offered| ensures q'.offered[i].id == i && (i in q'.done || Pending(q', i)) {
      if i !in q'.done {
        assert Pending(q, i);
      }
    }
  }

  lemma RunRead<S, J, R>(exec: (S, J) -> (S, R), store: S, q: Queues<S, J, R>)
    requires Inv(exec, store, q) && q.phase == Draining && q.batch != []
    ensures Inv(exec, store, Turn(exec, q))
  {
    hide Accounted, History, Completed, OfTier;
    var item, q0 := q.batch[0], q.(batch := q.batch[1..]);
    assert q.batch == [item] + q0.batch;
    assert PendingReads(q) == [item] + PendingReads(q0);
    ProcessKeeps(exec, store, q, q0, item);
    FirstIsOffered(q, q0, item);
    LogAppend(q.log, item, Read);
    LogAppend(q.log, item, Write);
    LogAppend(q.log, item, Outside);
  }

  lemma RunWrite<S, J, R>(exec: (S, J) -> (S, R), store: S, q: Queues<S, J, R>)
    requires Inv(exec, store, q) && q.phase == Writing && q.chunk != []
    ensures Inv(exec, store, Turn(exec, q))
  {
    hide Accounted, History, Completed, OfTier;
    var item, q0 := q.chunk[0], q.(chunk := q.chunk[1..]);
    assert q.chunk == [item] + q0.chunk;
    assert PendingWrites(q) == [item] + PendingWrites(q0);
    ProcessKeeps(exec, store, q, q0, item);
    FirstIsOffered(q, q0, item);
    LogAppend(q.log, item, Read);
    LogAppend(q.log, item, Write);
    LogAppend(q.log, item, Outside);
  }

  lemma TurnKeepsInv<S, J, R>(exec: (S, J) -> (S, R), store: S, q: Queues<S, J, R>)
    requires Inv(exec, store, q)
    ensures Inv(exec, store, Turn(exec, q))
  {
    if q.phase == Draining && q.batch != [] {
      hide *;
      RunRead(exec, store, q);
    } else if q.phase == Writing && q.chunk != [] {
      hide *;
      RunWrite(exec, store, q);
    } else {
      Regroup(exec, store, q);
    }
  }

  lemma Regroup<S, J, R>(exec: (S, J) -> (S, R), store: S, q: Queues<S, J, R>)
    requires Inv(exec, store, q)
    requires q.phase == Draining ==> q.batch == []
    requires q.phase == Writing ==> q.chunk == []
    ensures Inv(exec, store, Turn(exec, q))
  {
    hide Accounted, Completed, History, OfTier;
    var q' := Turn(exec, q);
    assert PendingReads(q') == PendingReads(q);
    assert PendingWrites(q') == PendingWrites(q);
    SamePending(q, q');
    SameCompleted(exec, q, q');
    SameHistory(exec, store, q, q');
  }

  lemma SameHistory<S, J, R>(exec: (S, J) -> (S, R), store: S, q: Queues<S, J, R>, q': Queues<S, J, R>)
    requires History(exec, store, q) && SamePast(q, q')
    ensures History(exec, store, q')
  {
  }

  lemma SameCompleted<S, J, R>(exec: (S, J) -> (S, R), q: Queues<S, J, R>, q': Queues<S, J, R>)
    requires Completed(exec, q) && SamePast(q, q')
    ensures Completed(exec, q')
  {
  }

  lemma OfferKeepsInv<S, J, R>(exec: (S, J) -> (S, R), store: S, q: Queues<S, J, R>, tier: Tier, job: J)
    requires Inv(exec, store, q) && tier != Outside
    ensures Inv(exec, store, Offer(q, tier, job))
  {
    hide Accounted, Completed, OfTier;
    var item, q' := Item(|q.offered|, tier, job), Offer(q, tier, job);
    LogAppend(q.offered, item, Read);
    LogAppend(q.offered, item, Write);
    LogAppend(q.offered, item, Outside);
    OfferKeepsAccounted(q, tier, job);
    OfferKeepsCompleted(exec, q, q', item);
  }

  lemma OfferKeepsWaiting<S, J, R>(q: Queues<S, J, R>, q': Queues<S, J, R>, items: seq<Item<J>>, tier: Tier, item: Item<J>)
    requires Waiting(q, items, tier) && item.id == |q.offered| && item.id !in q.done
    requires q'.offered == q.offered + [item] && q'.done == q.done
    ensures Waiting(q', items, tier)
    ensures item.tier == tier ==> Waiting(q', items + [item], tier)
  {
  }

  lemma OfferLosesNone<S, J, R>(q: Queues<S, J, R>, tier: Tier, job: J)
    requires NoneLost(q) && tier != Outside
    ensures NoneLost(Offer(q, tier, job))
  {
    var q', item := Offer(q, tier, job), Item(|q.offered|, tier, job);
    assert PendingReads(q') == PendingReads(q) + if tier == Read then [item] else [];
    assert PendingWrites(q') == PendingWrites(q) + if tier == Read then [] else [item];
    forall i | 0 <= i < |q'.offered| ensures q'.offered[i].id == i && (i in q'.done || Pending(q', i)) {
      if i < |q.offered| {
        assert i in q.done || Pending(q, i);
      } else if tier == Read {
        assert PendingReads(q')[|PendingReads(q)|] == item;
      } else {
        assert PendingWrites(q')[|PendingWrites(q)|] == item;
      }
    }
  }

  lemma OfferKeepsAccounted<S, J, R>(q: Queues<S, J, R>, tier: Tier, job: J)
    requires Accounted(q) && tier != Outside
    ensures Accounted(Offer(q, tier, job))
  {
    hide Waiting, NoneLost;
    var q', item := Offer(q, tier, job), Item(|q.offered|, tier, job);
    FreshId(q);
    OfferLosesNone(q, tier, job);
    OfferKeepsWaiting(q, q', PendingReads(q), Read, item);
    OfferKeepsWaiting(q, q', PendingWrites(q), Write, item);
    assert PendingReads(q') == if tier == Read then PendingReads(q) + [item] else PendingReads(q);
    assert PendingWrites(q') == if tier == Read then PendingWrites(q) else PendingWrites(q) + [item];
  }

  lemma OfferKeepsCompleted<S, J, R>(exec: (S, J) -> (S, R), q: Queues<S, J, R>, q': Queues<S, J, R>, item: Item<J>)
    requires Completed(exec, q) && q'.offered == q.offered + [item]
    requires q'.done == q.done && q'.log == q.log && q'.before == q.before
    ensures Completed(exec, q')
  {
    forall p | 0 <= p < |q'.log|
      ensures Offered(q', q'.log[p]) && q'.log[p].id in q'.done
              && q'.done[q'.log[p].id] == exec(q'.before[p], q'.log[p].job).1
    {
      assert Offered(q, q.log[p]);
    }
  }

  lemma FreshId<S, J, R>(q: Queues<S, J, R>)
    requires Accounted(q)
    ensures |q.offered| !in q.done
  {
  }

  lemma BypassKeepsInv<S, J, R>(exec: (S, J) -> (S, R), store: S, q: Queues<S, J, R>, job: J)
    requires Inv(exec, store, q)
    ensures Inv(exec, store, Bypass(exec, q, job))
  {
    hide Accounted, Completed, History, OfTier;
    var item := Item(|q.offered|, Outside, job);
    var q1 := q.(offered := q.offered + [item]);
    LogAppend(q.offered, item, Read);
    LogAppend(q.offered, item, Write);
    LogAppend(q.offered, item, Outside);
    LogAppend(q.log, item, Read);
    LogAppend(q.log, item, Write);
    LogAppend(q.log, item, Outside);
    FreshId(q);
    OfferKeepsCompleted(exec, q, q1, item);
    ProcessKeepsHistory(exec, store, q, q1, item);
    ProcessKeepsCompleted(exec, q1, q1, item);
    BypassKeepsAccounted(exec, q, job);
  }

  lemma BypassKeepsAccounted<S, J, R>(exec: (S, J) -> (S, R), q: Queues<S, J, R>, job: J)
    requires Accounted(q)
    ensures Accounted(Bypass(exec, q, job))
  {
    var q' := Bypass(exec, q, job);
    assert PendingReads(q') == PendingReads(q) && PendingWrites(q') == PendingWrites(q);
    forall i | 0 <= i < |q'.offered| ensures q'.offered[i].id == i && (i in q'.done || Pending(q', i)) {
      if i < |q.offered| {
        assert i in q.done || Pending(q, i);
      }
    }
  }

  lemma {:induction false} RunKeepsInv<S, J, R>(exec: (S, J) -> (S, R), store: S, steps: seq<Step<J>>)
    ensures Inv(exec, store, After(exec, Start(store), steps))
    decreases |steps|
  {
    hide Accounted, Completed, History, OfTier;
    if steps == [] {
      StartInv(exec, store);
    } else {
      var front, last := steps[..|steps| - 1], steps[|steps| - 1];
      RunKeepsInv(exec, store, front);
      NextKeepsInv(exec, store, After(exec, Start(store), front), last);
    }
  }

  lemma StartInv<S, J, R>(exec: (S, J) -> (S, R), store: S)
    ensures Inv(exec, store, Start(store))
  {
  }

  lemma NextKeepsInv<S, J, R>(exec: (S, J) -> (S, R), store: S, q: Queues<S, J, R>, s: Step<J>)
    requires Inv(exec, store, q)
    ensures Inv(exec, store, Next(exec, q, s))
  {
    hide Inv, Offer, Bypass, Turn;
    match s
    case OfferRead(job) => OfferKeepsInv(exec, store, q, Read, job);
    case OfferWrite(job) => OfferKeepsInv(exec, store, q, Write, job);
    case Aside(job) => BypassKeepsInv(exec, store, q, job);
    case Act => TurnKeepsInv(exec, store, q);
  }

  // ---------------------------------------------------------------------------------
  // Main results over every run
  // ---------------------------------------------------------------------------------

  lemma {:induction false} HistoryIsReplay<S, J, R>(exec: (S, J) -> (S, R), store: S, q: Queues<S, J, R>, p: nat)
    requires History(exec, store, q) && p <= |q.log|
    ensures Replay(exec, store, q.log[..p]) == if p == |q.log| then q.store else q.before[p]
  {
    if p > 0 {
      HistoryIsReplay(exec, store, q, p - 1);
      assert q.log[..p][..p - 1] == q.log[..p - 1];
    }
  }

  /** The store the queues hold, and the exit every Deferred was completed with, are those of a
      store that runs the log one effect at a time. */
  lemma RunsOneAtATime<S, J, R>(exec: (S, J) -> (S, R), store: S, steps: seq<Step<J>>)
    ensures var q := After(exec, Start(store), steps);
            && q.store == Replay(exec, store, q.log)
            && (forall p :: 0 <= p < |q.log| ==>
                  && q.log[p].id in q.done
                  && q.done[q.log[p].id] == exec(Replay(exec, store, q.log[..p]), q.log[p].job).1)
  {
    hide Accounted, After;
    var q := After(exec, Start(store), steps);
    RunKeepsInv(exec, store, steps);
    HistoryIsReplay(exec, store, q, |q.log|);
    assert q.log[..|q.log|] == q.log;
    forall p | 0 <= p < |q.log|
      ensures q.log[p].id in q.done && q.done[q.log[p].id] == exec(Replay(exec, store, q.log[..p]), q.log[p].job).1
    {
      HistoryIsReplay(exec, store, q, p);
    }
  }

  /** Every read returns what it finds after exactly the changes run before it. */
  lemma ReadSeesTheChangesBeforeIt<S(!new), J, R>(exec: (S, J) -> (S, R), store: S, steps: seq<Step<J>>, p: nat)
    requires ReadsOnly(exec, After(exec, Start(store), steps).log)
    requires p < |After(exec, Start(store), steps).log|
    ensures var q := After(exec, Start(store), steps);
            && q.log[p].id in q.done
            && q.done[q.log[p].id] == exec(Replay(exec, store, Changes(q.log[..p])), q.log[p].job).1
  {
    hide After, Replay, Changes;
    RunsOneAtATime(exec, store, steps);
    ReplayChanges(exec, store, After(exec, Start(store), steps).log[..p]);
  }

  /** Every offered effect is run at most once; it has completed its own Deferred exactly when it
      has run, and otherwise it is still on the way. */
  lemma RunsExactlyOnce<S, J, R>(exec: (S, J) -> (S, R), store: S, steps: seq<Step<J>>, id: nat)
    requires id < |After(exec, Start(store), steps).offered|
    ensures var q := After(exec, Start(store), steps);
            && q.offered[id].id == id
            && (id in q.done <==> exists p :: 0 <= p < |q.log| && q.log[p] == q.offered[id])
            && (forall p, p' :: 0 <= p < |q.log| && 0 <= p' < |q.log| && q.log[p].id == id == q.log[p'].id ==> p == p')
            && (id !in q.done <==> Pending(q, id))
  {
    hide After;
    RunKeepsInv(exec, store, steps);
  }

  /** Each tier runs in offer order. */
  lemma TiersRunInOfferOrder<S, J, R>(exec: (S, J) -> (S, R), store: S, steps: seq<Step<J>>)
    ensures var q := After(exec, Start(store), steps);
            && OfTier(q.log, Write) <= OfTier(q.offered, Write)
            && OfTier(q.log, Read) <= OfTier(q.offered, Read)
  {
    hide After, Accounted, Completed, History, OfTier;
    RunKeepsInv(exec, store, steps);
  }

  /** An effect that had completed before another one was offered precedes it in the log, and a
      completed Deferred never changes. */
  lemma {:induction false} CompletedComeFirst<S, J, R>(exec: (S, J) -> (S, R), store: S, steps: seq<Step<J>>, k: nat)
    requires k <= |steps|
    ensures var q, mid := After(exec, Start(store), steps), After(exec, Start(store), steps[..k]);
            && mid.log <= q.log
            && mid.offered <= q.offered
            && (forall id :: id in mid.done ==> id in q.done && q.done[id] == mid.done[id])
            && (forall p :: 0 <= p < |q.log| && q.log[p].id >= |mid.offered| ==> p >= |mid.log|)
    decreases |steps|
  {
    hide Accounted, Completed, History, OfTier;
    var q, mid := After(exec, Start(store), steps), After(exec, Start(store), steps[..k]);
    if k == |steps| {
      assert steps[..k] == steps;
    } else {
      var front, last := steps[..|steps| - 1], steps[|steps| - 1];
      assert front[..k] == steps[..k];
      CompletedComeFirst(exec, store, front, k);
      RunKeepsInv(exec, store, front);
      NextExtends(exec, store, After(exec, Start(store), front), last);
    }
    RunKeepsInv(exec, store, steps[..k]);
    LogIsOffered(exec, mid);
  }

  lemma LogIsOffered<S, J, R>(exec: (S, J) -> (S, R), q: Queues<S, J, R>)
    requires Completed(exec, q)
    ensures forall p :: 0 <= p < |q.log| ==> q.log[p].id < |q.offered|
  {
    forall p | 0 <= p < |q.log| ensures q.log[p].id < |q.offered| {
      assert Offered(q, q.log[p]);
    }
  }

  lemma NextExtends<S, J, R>(exec: (S, J) -> (S, R), store: S, q: Queues<S, J, R>, s: Step<J>)
    requires Inv(exec, store, q)
    ensures var q' := Next(exec, q, s);
            && q.log <= q'.log && q.offered <= q'.offered
            && (forall id :: id in q.done ==> id in q'.done && q'.done[id] == q.done[id])
  {
    hide Completed, History, OfTier;
    if s.Act? && q.phase == Draining && q.batch != [] {
      assert PendingReads(q)[0] == q.batch[0];
    } else if s.Act? && q.phase == Writing && q.chunk != [] {
      assert PendingWrites(q)[0] == q.chunk[0];
    } else if s.Aside? {
      FreshId(q);
    }
  }
}
