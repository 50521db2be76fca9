/** Replacing the `findMissingArtifact` handler: register, replace, revert to the default, with
    handles that may be stale, disposed again, or never disposed. */
module HandlerReplacement {

  /** What answers the request: the built-in `notFound` fallback, or a handler of the host's. */
  datatype Handling<H> = Fallback | Custom(handler: H)

  /** A disposable in the core's cleanup list: a registration of this method, or something else's. */
  datatype Disposable = Artifact(id: nat) | Other(id: nat)

  /** `live` holds the connection's registrations of the method, `handles` what each call returned. */
  datatype Surface<H> = Surface(
    current: nat,
    live: map<nat, Handling<H>>,
    cleanup: seq<Disposable>,
    next: nat,
    handles: seq<nat>)

  function Remove(cleanup: seq<Disposable>, d: Disposable): seq<Disposable> {
    if cleanup == [] then []
    else Remove(cleanup[..|cleanup| - 1], d) + if cleanup[|cleanup| - 1] == d then [] else [cleanup[|cleanup| - 1]]
  }

  /** Register a handler and make it the current one. */
  function Enter<H>(s: Surface<H>, handling: Handling<H>): Surface<H> {
    s.(current := s.next, live := s.live[s.next := handling], cleanup := s.cleanup + [Artifact(s.next)], next := s.next + 1)
  }

  /** Take the current registration out of the cleanup list and dispose it. */
  function Leave<H>(s: Surface<H>): Surface<H> {
    s.(live := s.live - {s.current}, cleanup := Remove(s.cleanup, Artifact(s.current)))
  }

  function Created<H>(): Surface<H> {
    Enter(Surface(0, map[], [], 0, []), Fallback)
  }

  datatype Op<H> =
    | Register(handler: H)
    | DisposeHandle(k: nat)     // the handle of the k-th registration, however often
    | AddOther(id: nat)
    | DropOther(id: nat)

  function Apply<H>(s: Surface<H>, op: Op<H>): Surface<H> {
    match op
    case Register(handler) =>
      var s' := Enter(Leave(s), Custom(handler));
      s'.(handles := s.handles + [s'.current])
    case DisposeHandle(k) =>
      if k < |s.handles| && s.current == s.handles[k] then Enter(Leave(s), Fallback) else s
    case AddOther(id) => s.(cleanup := s.cleanup + [Other(id)])
    case DropOther(id) => s.(cleanup := Remove(s.cleanup, Other(id)))
  }

  function Run<H>(ops: seq<Op<H>>): Surface<H> {
    if ops == [] then Created() else Apply(Run(ops[..|ops| - 1]), ops[|ops| - 1])
  }

  // -- What every run keeps --------------------------------------------------------------

  function Count(cleanup: seq<Disposable>, d: Disposable): nat {
    multiset(cleanup)[d]
  }

  ghost predicate OneRegistration<H>(s: Surface<H>) {
    && s.live.Keys == {s.current}
    && s.current < s.next
    && (forall i :: 0 <= i < |s.handles| ==> s.handles[i] < s.next)
    && (forall i, j :: 0 <= i < j < |s.handles| ==> s.handles[i] < s.handles[j])
    && (forall id :: Count(s.cleanup, Artifact(id)) == if id == s.current then 1 else 0)
  }

  lemma {:induction false} RemoveCounts(cleanup: seq<Disposable>, d: Disposable, e: Disposable)
    ensures Count(Remove(cleanup, d), e) == if e == d then 0 else Count(cleanup, e)
  {
    if cleanup != [] {
      RemoveCounts(cleanup[..|cleanup| - 1], d, e);
      assert cleanup == cleanup[..|cleanup| - 1] + [cleanup[|cleanup| - 1]];
    }
  }

  lemma LeaveThenEnter<H>(s: Surface<H>, handling: Handling<H>)
    requires OneRegistration(s)
    ensures OneRegistration(Enter(Leave(s), handling))
  {
    var s' := Enter(Leave(s), handling);
    forall id ensures Count(s'.cleanup, Artifact(id)) == if id == s'.current then 1 else 0 {
      RemoveCounts(s.cleanup, Artifact(s.current), Artifact(id));
    }
  }

  lemma ApplyKeepsOne<H>(s: Surface<H>, op: Op<H>)
    requires OneRegistration(s)
    ensures OneRegistration(Apply(s, op))
  {
    hide Remove;
    match op
    case Register(handler) => LeaveThenEnter(s, Custom(handler));
    case DisposeHandle(k) => LeaveThenEnter(s, Fallback);
    case AddOther(id) =>
    case DropOther(id) =>
      forall a ensures Count(Remove(s.cleanup, Other(id)), Artifact(a)) == Count(s.cleanup, Artifact(a)) {
        RemoveCounts(s.cleanup, Other(id), Artifact(a));
      }
  }

  /** After any registrations and disposals in any order, exactly one registration of the method is
      live, and it is in the cleanup list exactly once, with no other registration of the method. */
  lemma {:induction false} ExactlyOneIsLive<H>(ops: seq<Op<H>>)
    ensures OneRegistration(Run(ops))
  {
    if ops != [] {
      ExactlyOneIsLive(ops[..|ops| - 1]);
      ApplyKeepsOne(Run(ops[..|ops| - 1]), ops[|ops| - 1]);
    }
  }

  function Registrations<H>(ops: seq<Op<H>>): nat {
    if ops == [] then 0 else Registrations(ops[..|ops| - 1]) + if ops[|ops| - 1].Register? then 1 else 0
  }

  /** The last registration of the run. */
  ghost predicate LastRegistered<H>(ops: seq<Op<H>>, i: nat) {
    && i < |ops| && ops[i].Register?
    && (forall j :: i < j < |ops| ==> !ops[j].Register?)
  }

  /** The operation disposes the newest of `n` handles. */
  predicate DisposesNewest<H>(op: Op<H>, n: nat) {
    op.DisposeHandle? && op.k + 1 == n
  }

  /** Its handle has been disposed since. */
  ghost predicate RevertedSince<H>(ops: seq<Op<H>>, i: nat) {
    exists j :: i < j < |ops| && DisposesNewest(ops[j], Registrations(ops))
  }

  lemma RevertedMore<H>(ops: seq<Op<H>>, i: nat)
    requires LastRegistered(ops, i) && i < |ops| - 1
    ensures var front := ops[..|ops| - 1];
            && LastRegistered(front, i) && Registrations(front) == Registrations(ops)
            && (RevertedSince(ops, i) <==> RevertedSince(front, i) || DisposesNewest(ops[|ops| - 1], Registrations(ops)))
  {
    var front := ops[..|ops| - 1];
    if j :| i < j < |ops| && DisposesNewest(ops[j], Registrations(ops)) {
      assert j < |front| ==> front[j] == ops[j];
    }
    if j :| i < j < |front| && DisposesNewest(front[j], Registrations(front)) {
      assert ops[j] == front[j];
    }
  }

  lemma {:induction false} HandlesAreCounted<H>(ops: seq<Op<H>>)
    ensures |Run(ops).handles| == Registrations(ops)
  {
    if ops != [] {
      HandlesAreCounted(ops[..|ops| - 1]);
    }
  }

  /** `handler`, the last one registered, is in force, or the fallback is because its handle has been
      disposed. */
  ghost predicate InForce<H>(s: Surface<H>, handler: H, reverted: bool) {
    && s.current in s.live
    && s.live[s.current] == (if reverted then Fallback else Custom(handler))
    && |s.handles| > 0
    && (if reverted then s.current !in s.handles else s.current == s.handles[|s.handles| - 1])
  }

  lemma RegisteringPutsInForce<H>(s: Surface<H>, handler: H)
    ensures InForce(Apply(s, Register(handler)), handler, false)
  {
    hide Remove;
  }

  lemma OnlyItsHandleReverts<H>(s: Surface<H>, op: Op<H>, handler: H, reverted: bool)
    requires OneRegistration(s) && InForce(s, handler, reverted) && !op.Register?
    ensures InForce(Apply(s, op), handler, reverted || DisposesNewest(op, |s.handles|))
  {
    hide Remove;
  }

  /** The handler in force is the last one registered, unless its own handle has been disposed since;
      disposing older handles, or the same one again, changes nothing. */
  lemma {:induction false} LastRegisteredIsInForce<H>(ops: seq<Op<H>>, i: nat)
    requires LastRegistered(ops, i)
    ensures InForce(Run(ops), ops[i].handler, RevertedSince(ops, i))
  {
    hide Apply, InForce, OneRegistration;
    var front, last := ops[..|ops| - 1], ops[|ops| - 1];
    if i == |ops| - 1 {
      RegisteringPutsInForce(Run(front), ops[i].handler);
    } else {
      RevertedMore(ops, i);
      LastRegisteredIsInForce(front, i);
      ExactlyOneIsLive(front);
      HandlesAreCounted(front);
      OnlyItsHandleReverts(Run(front), last, ops[i].handler, RevertedSince(front, i));
    }
  }

  /** Before any registration the fallback answers. */
  lemma {:induction false} FallbackUntilRegistered<H>(ops: seq<Op<H>>)
    requires Registrations(ops) == 0
    ensures Run(ops).live == map[Run(ops).current := Fallback]
  {
    if ops != [] {
      FallbackUntilRegistered(ops[..|ops| - 1]);
      HandlesAreCounted(ops[..|ops| - 1]);
    }
  }

  // -- The rest of the cleanup list ------------------------------------------------------

  /** What in the list is not a registration of this method, in order. */
  function Others(cleanup: seq<Disposable>): seq<Disposable> {
    if cleanup == [] then []
    else Others(cleanup[..|cleanup| - 1]) + if cleanup[|cleanup| - 1].Other? then [cleanup[|cleanup| - 1]] else []
  }

  lemma {:induction false} OthersStay(cleanup: seq<Disposable>, id: nat)
    ensures Others(Remove(cleanup, Artifact(id))) == Others(cleanup)
  {
    if cleanup != [] {
      var front, last := cleanup[..|cleanup| - 1], cleanup[|cleanup| - 1];
      OthersStay(front, id);
      OthersMore(Remove(front, Artifact(id)), last);
      assert Remove(front, Artifact(id)) + [] == Remove(front, Artifact(id));
    }
  }

  lemma OthersMore(cleanup: seq<Disposable>, d: Disposable)
    ensures Others(cleanup + [d]) == Others(cleanup) + if d.Other? then [d] else []
  {
    assert (cleanup + [d])[..|cleanup|] == cleanup;
  }

  /** Registering a handler, or disposing a handle, leaves everything else in the cleanup list where it is,
      in order, and what is registered then comes last. */
  lemma RegistrationsLeaveOthersInOrder<H>(s: Surface<H>, op: Op<H>)
    requires op.Register? || op.DisposeHandle?
    ensures var s' := Apply(s, op);
            && Others(s'.cleanup) == Others(s.cleanup)
            && (s'.current != s.current ==> s'.cleanup != [] && s'.cleanup[|s'.cleanup| - 1] == Artifact(s'.current))
  {
    hide Remove, Others;
    OthersStay(s.cleanup, s.current);
    OthersMore(Remove(s.cleanup, Artifact(s.current)), Artifact(s.next));
  }

  lemma {:induction false} OthersWithout(cleanup: seq<Disposable>, id: nat)
    ensures Others(Remove(cleanup, Other(id))) == Remove(Others(cleanup), Other(id))
  {
    if cleanup != [] {
      var front, last := cleanup[..|cleanup| - 1], cleanup[|cleanup| - 1];
      OthersWithout(front, id);
      RemoveMore(Others(front), last, Other(id));
      OthersMore(Remove(front, Other(id)), last);
      assert Others(front) + [] == Others(front);
      assert Remove(front, Other(id)) + [] == Remove(front, Other(id));
    }
  }

  lemma RemoveMore(cleanup: seq<Disposable>, last: Disposable, d: Disposable)
    ensures Remove(cleanup + [last], d) == Remove(cleanup, d) + if last == d then [] else [last]
  {
    assert (cleanup + [last])[..|cleanup|] == cleanup;
  }

  /** What else was added and not dropped since, in the order of adding. */
  function Added<H>(ops: seq<Op<H>>): seq<Disposable> {
    if ops == [] then []
    else
      var before := Added(ops[..|ops| - 1]);
      match ops[|ops| - 1]
      case AddOther(id) => before + [Other(id)]
      case DropOther(id) => Remove(before, Other(id))
      case _ => before
  }

  /** After any run the rest of the cleanup list is what was added and not dropped, in that order. */
  lemma {:induction false} OthersAreAsAdded<H>(ops: seq<Op<H>>)
    ensures Others(Run(ops).cleanup) == Added(ops)
  {
    if ops != [] {
      var s, op := Run(ops[..|ops| - 1]), ops[|ops| - 1];
      OthersAreAsAdded(ops[..|ops| - 1]);
      hide Remove, Others;
      match op
      case AddOther(id) => OthersMore(s.cleanup, Other(id));
      case DropOther(id) => OthersWithout(s.cleanup, id);
      case _ => RegistrationsLeaveOthersInOrder(s, op);
    }
  }

  // -- The surface itself ----------------------------------------------------------------

  class ApexMethodSurface<H> {
    var currentDisposable: nat
    var live: map<nat, Handling<H>>
    var cleanup: seq<Disposable>
    var next: nat
    ghost var handles: seq<nat>

    ghost function State(): Surface<H>
      reads this
    {
      Surface(currentDisposable, live, cleanup, next, handles)
    }

    constructor ()
      ensures State() == Created()
    {
      currentDisposable, next, handles := 0, 1, [];
      live, cleanup := map[0 := Fallback], [Artifact(0)];
    }

    method RegisterIncoming(handling: Handling<H>) returns (id: nat)
      modifies this`live, this`next
      ensures id == old(next) && next == old(next) + 1 && live == old(live)[id := handling]
    {
      id := next;
      live := live[id := handling];
      next := next + 1;
    }

    /** `removeCleanup` */
    method RemoveCleanup(d: Disposable)
      modifies this`cleanup
      ensures cleanup == Remove(old(cleanup), d)
    {
      var kept := [];
      for i := 0 to |cleanup|
        invariant kept == Remove(cleanup[..i], d)
      {
        assert cleanup[..i + 1][..i] == cleanup[..i];
        if cleanup[i] != d {
          kept := kept + [cleanup[i]];
        }
      }
      assert cleanup[..|cleanup|] == cleanup;
      cleanup := kept;
    }

    /** `onFindMissingArtifact` */
    method OnFindMissingArtifact(handler: H) returns (handle: nat)
      modifies this
      ensures State() == Apply(old(State()), Register(handler))
      ensures handles == old(handles) + [handle]
    {
      RemoveCleanup(Artifact(currentDisposable));
      live := live - {currentDisposable};
      handle := RegisterIncoming(Custom(handler));
      currentDisposable := handle;
      cleanup := cleanup + [Artifact(handle)];
      handles := handles + [handle];
    }

    /** The returned handle's `dispose`. */
    method DisposeOf(ghost k: nat, handle: nat)
      requires k < |handles| && handles[k] == handle
      modifies this
      ensures State() == Apply(old(State()), DisposeHandle(k))
    {
      if currentDisposable != handle {
        return;
      }
      RemoveCleanup(Artifact(handle));
      live := live - {handle};
      var fallback := RegisterIncoming(Fallback);
      currentDisposable := fallback;
      cleanup := cleanup + [Artifact(fallback)];
    }
  }
}
