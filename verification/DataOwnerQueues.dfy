/** The loop itself, over mutable queues, against the transition system. */
module DataOwnerQueues {
  import opened TieredQueue

  /** The fiber's next `n` actions. */
  function Turns<S, J, R>(exec: (S, J) -> (S, R), q: Queues<S, J, R>, n: nat): Queues<S, J, R> {
    if n == 0 then q else Turn(exec, Turns(exec, q, n - 1))
  }

  lemma {:induction false} TurnsAdd<S, J, R>(exec: (S, J) -> (S, R), q: Queues<S, J, R>, m: nat, n: nat)
    ensures Turns(exec, Turns(exec, q, m), n) == Turns(exec, q, m + n)
  {
    hide Turn;
    if n > 0 {
      TurnsAdd(exec, q, m, n - 1);
    }
  }

  lemma OneTurn<S, J, R>(exec: (S, J) -> (S, R), q: Queues<S, J, R>)
    ensures Turns(exec, q, 1) == Turn(exec, q)
  {
    assert Turns(exec, q, 0) == q;
  }

  /** Processing an item leaves the queues alone. */
  lemma ProcessFields<S, J, R>(exec: (S, J) -> (S, R), q: Queues<S, J, R>, item: Item<J>)
    ensures var q' := Process(exec, q, item);
            && q'.readQueue == q.readQueue && q'.writeQueue == q.writeQueue && q'.batch == q.batch && q'.chunk == q.chunk
            && q'.phase == q.phase && q'.offered == q.offered && q'.log == q.log + [item]
  {
  }

  class DataOwnerQueues<S, J, R> {
    const exec: (S, J) -> (S, R)
    var readQueue: seq<Item<J>>
    var writeQueue: seq<Item<J>>
    var store: S
    var done: map<nat, R>
    var next: nat
    // What the loop is in the middle of, and what has happened so far.
    ghost var batch: seq<Item<J>>
    ghost var chunk: seq<Item<J>>
    ghost var phase: Phase
    ghost var offered: seq<Item<J>>
    ghost var log: seq<Item<J>>
    ghost var before: seq<S>

    ghost function State(): Queues<S, J, R>
      reads this
    {
      Queues(readQueue, writeQueue, batch, chunk, phase, store, done, offered, log, before)
    }

    ghost predicate Valid()
      reads this
    {
      next == |offered|
    }

    constructor (exec: (S, J) -> (S, R), store: S)
      ensures Valid() && this.exec == exec && State() == Start(store)
    {
      this.exec, this.store := exec, store;
      readQueue, writeQueue, done, next := [], [], map[], 0;
      batch, chunk, phase, offered, log, before := [], [], Top, [], [], [];
    }

    /** `dataOwnerRead`, up to the await of its Deferred. */
    method OfferRead(job: J) returns (id: nat)
      requires Valid()
      modifies this
      ensures Valid() && id == old(next) && State() == Offer(old(State()), Read, job)
    {
      id := next;
      readQueue := readQueue + [Item(id, Read, job)];
      next := next + 1;
      offered := offered + [Item(id, Read, job)];
    }

    /** `dataOwnerWrite`, up to the await of its Deferred. */
    method OfferWrite(job: J) returns (id: nat)
      requires Valid()
      modifies this
      ensures Valid() && id == old(next) && State() == Offer(old(State()), Write, job)
    {
      id := next;
      writeQueue := writeQueue + [Item(id, Write, job)];
      next := next + 1;
      offered := offered + [Item(id, Write, job)];
    }

    method ProcessItem(item: Item<J>)
      modifies this
      ensures State() == Process(exec, old(State()), item) && next == old(next)
    {
      log, before := log + [item], before + [store];
      var (store', exit) := exec(store, item.job);
      store := store';
      done := done[item.id := exit];
    }

    /** `takeAll` on the reads, and each of them run in order. */
    method DrainReads()
      requires Valid() && phase == Top && batch == [] && chunk == []
      modifies this
      ensures Valid() && phase == Draining && batch == [] && chunk == [] && offered == old(offered)
      ensures readQueue == [] && writeQueue == old(writeQueue) && log == old(log) + old(readQueue)
      ensures State() == Turns(exec, old(State()), 1 + |old(readQueue)|)
    {
      ghost var start := State();
      var readItems := readQueue;
      readQueue := [];
      batch, phase := readItems, Draining;
      OneTurn(exec, start);
      assert State() == Turn(exec, start);
      var i := 0;
      while i < |readItems|
        invariant 0 <= i <= |readItems|
        invariant Valid() && phase == Draining && chunk == [] && batch == readItems[i..]
        invariant readQueue == [] && writeQueue == start.writeQueue && offered == start.offered
        invariant log == start.log + readItems[..i]
        invariant State() == Turns(exec, start, 1 + i)
      {
        hide Process, Turns;
        ghost var here := State();
        OneTurn(exec, here);
        TurnsAdd(exec, start, 1 + i, 1);
        batch := batch[1..];
        ProcessFields(exec, State(), readItems[i]);
        ProcessItem(readItems[i]);
        i := i + 1;
      }
    }

    /** `takeUpTo` one write, run if there was one. */
    method RunOneWrite()
      requires Valid() && phase == Draining && batch == [] && chunk == []
      modifies this
      ensures Valid() && phase == Top && batch == [] && chunk == [] && offered == old(offered)
      ensures readQueue == old(readQueue)
      ensures writeQueue == if old(writeQueue) == [] then [] else old(writeQueue)[1..]
      ensures log == old(log) + if old(writeQueue) == [] then [] else [old(writeQueue)[0]]
      ensures State() == Turns(exec, old(State()), if old(writeQueue) == [] then 2 else 3)
    {
      hide Process, Turns;
      ghost var start := State();
      var writeItems := if |writeQueue| > 0 then [writeQueue[0]] else [];
      writeQueue := if |writeQueue| > 0 then writeQueue[1..] else [];
      chunk, phase := writeItems, Writing;
      OneTurn(exec, start);
      ghost var taken, turns := State(), 1;
      if |writeItems| > 0 {
        chunk := [];
        assert taken.chunk[1..] == [];
        ProcessFields(exec, State(), writeItems[0]);
        ProcessItem(writeItems[0]);
        OneTurn(exec, taken);
        TurnsAdd(exec, start, 1, 1);
        turns := 2;
      }
      OneTurn(exec, State());
      TurnsAdd(exec, start, turns, 1);
      phase := Top;
    }

    /** One round of the loop when nothing arrives during it: every read that was waiting runs, in
        order, and then the oldest write, if there is one. */
    method RunRound()
      requires Valid() && phase == Top && batch == [] && chunk == []
      modifies this
      ensures Valid() && phase == Top && batch == [] && chunk == [] && offered == old(offered)
      ensures readQueue == []
      ensures writeQueue == if old(writeQueue) == [] then [] else old(writeQueue)[1..]
      ensures log == old(log) + old(readQueue) + (if old(writeQueue) == [] then [] else [old(writeQueue)[0]])
      ensures State() == Turns(exec, old(State()), |old(readQueue)| + (if old(writeQueue) == [] then 3 else 4))
    {
      hide Turns;
      ghost var start := State();
      DrainReads();
      RunOneWrite();
      TurnsAdd(exec, start, 1 + |start.readQueue|, if start.writeQueue == [] then 2 else 3);
    }
  }
}
