/** `dispose`: close the construction scope once. */
module ClientTeardown {

  datatype Action = Cleaned(disposable: nat) | TransportClosed

  /** What the cleanup finalizer runs: last registered first, up to and including the first disposable
      that throws. */
  function Unwind(cleanup: seq<nat>, throws: set<nat>): seq<Action> {
    if cleanup == [] then []
    else
      var last := cleanup[|cleanup| - 1];
      [Cleaned(last)] + if last in throws then [] else Unwind(cleanup[..|cleanup| - 1], throws)
  }

  /** The whole teardown: the cleanup finalizer, registered last, runs first; the transport's, registered
      first, runs last, and runs even when the other died. */
  function Teardown(cleanup: seq<nat>, throws: set<nat>): seq<Action> {
    Unwind(cleanup, throws) + [TransportClosed]
  }

  function Reversed(s: seq<nat>): seq<Action> {
    if s == [] then [] else [Cleaned(s[|s| - 1])] + Reversed(s[..|s| - 1])
  }

  lemma {:induction false} ReversedAt(s: seq<nat>, k: nat)
    ensures |Reversed(s)| == |s|
    ensures k < |s| ==> Reversed(s)[k] == Cleaned(s[|s| - 1 - k])
  {
    if s != [] {
      ReversedAt(s[..|s| - 1], if k == 0 then 0 else k - 1);
    }
  }

  predicate NoneThrowsEarly(cleanup: seq<nat>, throws: set<nat>) {
    forall i :: 0 < i < |cleanup| ==> cleanup[i] !in throws
  }

  lemma NoneEarlyStep(cleanup: seq<nat>, throws: set<nat>)
    requires cleanup != []
    ensures NoneThrowsEarly(cleanup, throws) <==>
            NoneThrowsEarly(cleanup[..|cleanup| - 1], throws)
            && (|cleanup| == 1 || cleanup[|cleanup| - 1] !in throws)
  {
  }

  lemma SameAfter(x: Action, s: seq<Action>, t: seq<Action>)
    ensures [x] + s == [x] + t <==> s == t
    ensures [x] + s <= [x] + t <==> s <= t
  {
    assert ([x] + s)[1..] == s && ([x] + t)[1..] == t;
  }

  /** Every cleanup runs, in reverse registration order, exactly when none but the first registered
      throws; otherwise those registered before the one that threw are skipped. */
  lemma {:induction false} AllCleanedExactlyWhenNoneThrowsEarly(cleanup: seq<nat>, throws: set<nat>)
    ensures Unwind(cleanup, throws) == Reversed(cleanup) <==> NoneThrowsEarly(cleanup, throws)
    ensures Unwind(cleanup, throws) <= Reversed(cleanup)
  {
    if cleanup != [] {
      hide NoneThrowsEarly;
      var front, last := cleanup[..|cleanup| - 1], cleanup[|cleanup| - 1];
      NoneEarlyStep(cleanup, throws);
      ReversedAt(front, 0);
      SameAfter(Cleaned(last), [], Reversed(front));
      AllCleanedExactlyWhenNoneThrowsEarly(front, throws);
      SameAfter(Cleaned(last), Unwind(front, throws), Reversed(front));
      if last in throws && |cleanup| == 1 {
        NoneThrowsEarlyOfNone(front, throws);
      }
    }
  }

  lemma NoneThrowsEarlyOfNone(cleanup: seq<nat>, throws: set<nat>)
    requires cleanup == []
    ensures NoneThrowsEarly(cleanup, throws)
  {
  }

  lemma LaterOnes(cleanup: seq<nat>, throws: set<nat>, i: nat)
    requires i < |cleanup| - 1
    ensures var front, last := cleanup[..|cleanup| - 1], cleanup[|cleanup| - 1];
            (forall j :: i < j < |cleanup| ==> cleanup[j] !in throws)
            <==> last !in throws && forall j :: i < j < |front| ==> front[j] !in throws
  {
    var front := cleanup[..|cleanup| - 1];
    forall j | i < j < |cleanup| && cleanup[j] in throws && cleanup[|cleanup| - 1] !in throws
      ensures exists x :: i < x < |front| && front[x] in throws
    {
      assert front[j] in throws;
    }
  }

  /** A disposable is cleaned exactly when none registered after it throws, whatever it does itself. */
  lemma {:induction false} CleanedExactly(cleanup: seq<nat>, throws: set<nat>, i: nat)
    requires i < |cleanup|
    ensures var k := |cleanup| - 1 - i;
            (k < |Unwind(cleanup, throws)| && Unwind(cleanup, throws)[k] == Cleaned(cleanup[i]))
            <==> forall j :: i < j < |cleanup| ==> cleanup[j] !in throws
  {
    var front, last := cleanup[..|cleanup| - 1], cleanup[|cleanup| - 1];
    if i < |front| {
      CleanedExactly(front, throws, i);
      LaterOnes(cleanup, throws, i);
      var ran, k := Unwind(front, throws), |front| - i;
      hide Unwind;
      assert ([Cleaned(last)] + ran)[1..] == ran;
      assert k < |ran| + 1 ==> ([Cleaned(last)] + ran)[k] == ran[k - 1];
    }
  }

  /** The transport is closed last, and once. */
  lemma {:induction false} TransportClosesLast(cleanup: seq<nat>, throws: set<nat>, k: nat)
    ensures |Teardown(cleanup, throws)| <= |cleanup| + 1
    ensures k < |Teardown(cleanup, throws)| ==>
              (Teardown(cleanup, throws)[k] == TransportClosed <==> k == |Teardown(cleanup, throws)| - 1)
    ensures TransportClosed in Teardown(cleanup, throws)
  {
    AllCleanedExactlyWhenNoneThrowsEarly(cleanup, throws);
    ReversedAt(cleanup, k);
  }

  lemma UnwindNothing(throws: set<nat>)
    ensures Unwind([], throws) == []
  {
  }

  lemma UnwindStep(cleanup: seq<nat>, i: nat, throws: set<nat>, ran: seq<Action>)
    requires i < |cleanup|
    ensures ran + Unwind(cleanup[..i + 1], throws)
            == (ran + [Cleaned(cleanup[i])]) + if cleanup[i] in throws then [] else Unwind(cleanup[..i], throws)
  {
    assert cleanup[..i + 1][..i] == cleanup[..i];
  }

  // -- Overlapping calls -----------------------------------------------------------------

  /** Calls of dispose, and the teardown that the first of them starts going on between them. */
  datatype CloseStep = Call | Proceed

  datatype Closing = Closing(disposed: bool, left: seq<Action>, ran: seq<Action>)

  function Close(c: Closing, cleanup: seq<nat>, throws: set<nat>, step: CloseStep): Closing {
    match step
    case Call => if c.disposed then c else c.(disposed := true, left := Teardown(cleanup, throws))
    case Proceed => if c.left == [] then c else c.(left := c.left[1..], ran := c.ran + [c.left[0]])
  }

  function CloseAll(cleanup: seq<nat>, throws: set<nat>, steps: seq<CloseStep>): Closing {
    if steps == [] then Closing(false, [], [])
    else Close(CloseAll(cleanup, throws, steps[..|steps| - 1]), cleanup, throws, steps[|steps| - 1])
  }

  /** However many calls overlap with the teardown, what has run is a first part of one teardown, and all
      of it once nothing is left. */
  lemma {:induction false} OverlappingCallsTearDownOnce(cleanup: seq<nat>, throws: set<nat>, steps: seq<CloseStep>)
    ensures var c := CloseAll(cleanup, throws, steps);
            && (c.disposed <==> Call in steps)
            && c.ran + c.left == if Call in steps then Teardown(cleanup, throws) else []
  {
    hide Teardown;
    if steps != [] {
      var front, last := steps[..|steps| - 1], steps[|steps| - 1];
      OverlappingCallsTearDownOnce(cleanup, throws, front);
      assert steps == front + [last];
      var c := CloseAll(cleanup, throws, front);
      if last.Proceed? && c.left != [] {
        assert c.ran + [c.left[0]] + c.left[1..] == c.ran + c.left;
      }
    }
  }

  class ClientCore {
    var disposed: bool
    var cleanup: seq<nat>
    ghost var actions: seq<Action>

    constructor ()
      ensures !disposed && cleanup == [] && actions == []
    {
      disposed, cleanup, actions := false, [], [];
    }

    method RegisterCleanup(d: nat)
      modifies this`cleanup
      ensures cleanup == old(cleanup) + [d]
    {
      cleanup := cleanup + [d];
    }

    /** The cleanup finalizer. */
    method RunCleanups(throws: set<nat>)
      modifies this`actions
      ensures actions == old(actions) + Unwind(cleanup, throws)
    {
      hide Unwind;
      var i := |cleanup|;
      var died := false;
      ghost var ran: seq<Action> := [];
      assert cleanup[..i] == cleanup;
      assert [] + Unwind(cleanup, throws) == Unwind(cleanup, throws);
      while i > 0 && !died
        invariant 0 <= i <= |cleanup|
        invariant actions == old(actions) + ran
        invariant Unwind(cleanup, throws) == ran + if died then [] else Unwind(cleanup[..i], throws)
        decreases i, !died
      {
        i := i - 1;
        UnwindStep(cleanup, i, throws, ran);
        actions := actions + [Cleaned(cleanup[i])];
        ran := ran + [Cleaned(cleanup[i])];
        died := cleanup[i] in throws;
      }
      UnwindNothing(throws);
      assert cleanup[..0] == [];
    }

    /** `closeScope`: only the first call does anything. */
    method Dispose(throws: set<nat>)
      modifies this`disposed, this`actions
      ensures disposed
      ensures actions == old(actions) + if old(disposed) then [] else Teardown(cleanup, throws)
    {
      if disposed {
        return;
      }
      disposed := true;
      RunCleanups(throws);
      actions := actions + [TransportClosed];
    }

    /** Any number of calls tears down exactly once, and the transport last. */
    method DisposeRepeatedly(times: nat, throws: set<nat>)
      requires !disposed && actions == []
      modifies this`disposed, this`actions
      ensures times > 0 ==> actions == Teardown(cleanup, throws)
    {
      for n := 0 to times
        invariant disposed <==> n > 0
        invariant actions == if n > 0 then Teardown(cleanup, throws) else []
      {
        Dispose(throws);
      }
    }
  }
}
