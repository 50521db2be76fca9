/** The client core's two handshakes and its teardown.

    `initialize` and `shutdown` have one shape: a guard against use after dispose, a mutex, a memo of
    the first full success, a request, and after its response a notification.  A handshake here is
    either of them; callers, transport outcomes and dispose interleave freely. */
module ClientLifecycle {
  import opened Prelude

  /** Where a call is: queued for the mutex, holding it, or finished. */
  datatype Call<R> =
    | Queued
    | Requesting
    | Answered(response: R)
    | Notifying(response: R)
    | Returned(result: R)
    | Failed
    | RefusedDisposed

  /** What goes over the wire, with the call it belongs to. */
  datatype Wire<R> = Sent(call: nat) | Responded(call: nat, response: R) | RequestFailed(call: nat) | Notified(call: nat)

  datatype Core<R> = Core(disposed: bool, calls: seq<Call<R>>, memo: Option<R>, trace: seq<Wire<R>>)

  datatype Step<R> =
    | Begin                                    // a caller calls
    | Enter(call: nat)                         // a queued call gets the mutex
    | Respond(call: nat, response: Option<R>)  // the request resolves, or fails
    | Notify(call: nat)                        // the notification is sent
    | Acknowledge(call: nat, ok: bool)         // the notification resolves, or fails
    | Dispose

  function Start<R>(): Core<R> { Core(false, [], None, []) }

  predicate Holds<R>(c: Call<R>) { c.Requesting? || c.Answered? || c.Notifying? }

  predicate MutexFree<R>(s: Core<R>) { forall i :: 0 <= i < |s.calls| ==> !Holds(s.calls[i]) }

  function Next<R>(s: Core<R>, step: Step<R>): Core<R> {
    match step
    case Begin => s.(calls := s.calls + [if s.disposed then RefusedDisposed else Queued])
    case Enter(c) =>
      if c < |s.calls| && s.calls[c].Queued? && MutexFree(s) then
        if s.memo.Some? then s.(calls := s.calls[c := Returned(s.memo.value)])
        else s.(calls := s.calls[c := Requesting], trace := s.trace + [Sent(c)])
      else s
    case Respond(c, response) =>
      if c < |s.calls| && s.calls[c].Requesting? then
        if response.Some?
        then s.(calls := s.calls[c := Answered(response.value)], trace := s.trace + [Responded(c, response.value)])
        else s.(calls := s.calls[c := Failed], trace := s.trace + [RequestFailed(c)])
      else s
    case Notify(c) =>
      if c < |s.calls| && s.calls[c].Answered? then
        s.(calls := s.calls[c := Notifying(s.calls[c].response)], trace := s.trace + [Notified(c)])
      else s
    case Acknowledge(c, ok) =>
      if c < |s.calls| && s.calls[c].Notifying? then
        if ok then s.(calls := s.calls[c := Returned(s.calls[c].response)], memo := Some(s.calls[c].response))
        else s.(calls := s.calls[c := Failed])
      else s
    case Dispose => s.(disposed := true)
  }

  function Run<R>(steps: seq<Step<R>>): Core<R> {
    if steps == [] then Start() else Next(Run(steps[..|steps| - 1]), steps[|steps| - 1])
  }

  // -- What every run keeps --------------------------------------------------------------

  ghost predicate AtMostOneHolder<R>(s: Core<R>) {
    forall i, j :: 0 <= i < |s.calls| && 0 <= j < |s.calls| && Holds(s.calls[i]) && Holds(s.calls[j]) ==> i == j
  }

  /** The trace is a sequence of finished attempts, then at most one that is still open: every
      request is answered or failed before the next is sent, and a notification is sent exactly
      after a successful response. */
  function Open<R>(trace: seq<Wire<R>>): Option<nat> {
    if trace == [] then None
    else
      var last := trace[|trace| - 1];
      if last.Sent? then Some(last.call) else None
  }

  ghost predicate WellOrdered<R>(trace: seq<Wire<R>>) {
    && (forall i :: 0 <= i < |trace| && trace[i].Sent? ==> i == 0 || trace[i - 1].RequestFailed? || trace[i - 1].Notified?)
    && (forall i :: 0 <= i < |trace| && (trace[i].Responded? || trace[i].RequestFailed?) ==>
          i > 0 && trace[i - 1] == Sent(trace[i].call))
    && (forall i :: 0 <= i < |trace| && trace[i].Notified? ==>
          i > 0 && trace[i - 1].Responded? && trace[i - 1].call == trace[i].call)
    && (forall i :: 0 <= i < |trace| - 1 && trace[i].Responded? ==> trace[i + 1] == Notified(trace[i].call))
  }

  /** The call whose response has come and whose notification has not been sent. */
  function Unnotified<R>(trace: seq<Wire<R>>): Option<nat> {
    if trace != [] && trace[|trace| - 1].Responded? then Some(trace[|trace| - 1].call) else None
  }

  /** The call of the last notification, if nothing has followed it. */
  function Notifier<R>(trace: seq<Wire<R>>): Option<nat> {
    if trace != [] && trace[|trace| - 1].Notified? then Some(trace[|trace| - 1].call) else None
  }

  predicate LastNotifierReturned<R>(s: Core<R>) {
    var c := Notifier(s.trace);
    c.Some? && c.value < |s.calls| && s.calls[c.value].Returned?
  }

  /** The calls agree with the wire: the open request is the one being awaited, the last response unless
      notified is that of the call that holds it, and the last one notified that of the call notifying,
      of the memo and of every call that has returned. */
  ghost predicate Linked<R>(s: Core<R>) {
    && (forall c :: 0 <= c < |s.calls| ==> (s.calls[c].Requesting? <==> Open(s.trace) == Some(c)))
    && (Open(s.trace).Some? ==> Open(s.trace).value < |s.calls|)
    && (forall c :: 0 <= c < |s.calls| ==> (s.calls[c].Answered? <==> Unnotified(s.trace) == Some(c)))
    && (Unnotified(s.trace).Some? ==>
          && Unnotified(s.trace).value < |s.calls|
          && s.calls[Unnotified(s.trace).value] == Answered(s.trace[|s.trace| - 1].response))
    && (forall c :: 0 <= c < |s.calls| && s.calls[c].Notifying? ==>
          LastResponse(s.trace) == Some(s.calls[c].response) && Notifier(s.trace) == Some(c))
    && (s.memo.Some? ==> MutexFree(s) && LastResponse(s.trace) == s.memo && LastNotifierReturned(s))
    && (forall c :: 0 <= c < |s.calls| && s.calls[c].Returned? ==> s.memo == Some(s.calls[c].result))
  }

  /** A call that has sent its notification waits for it, has returned, or has failed; and it has failed if
      another request has been sent since. */
  ghost predicate Resent<R>(s: Core<R>) {
    && (forall i :: 0 <= i < |s.trace| && s.trace[i].Notified? ==> PastNotification(s, s.trace[i].call))
    && (forall i, j :: 0 <= i < j < |s.trace| && s.trace[i].Notified? && s.trace[j].Sent? ==> FailedCall(s, s.trace[i].call))
  }

  ghost predicate PastNotification<R>(s: Core<R>, c: nat) {
    c < |s.calls| && (s.calls[c].Notifying? || s.calls[c].Returned? || s.calls[c].Failed?)
  }

  ghost predicate FailedCall<R>(s: Core<R>, c: nat) {
    c < |s.calls| && s.calls[c].Failed?
  }

  /** The response of the attempt just completed, if the trace ends with one. */
  function LastResponse<R>(trace: seq<Wire<R>>): Option<R> {
    if |trace| >= 2 && trace[|trace| - 2].Responded? then Some(trace[|trace| - 2].response) else None
  }

  /** Only calls that got past the guard and into the mutex appear on the wire. */
  ghost predicate Participants<R>(s: Core<R>) {
    forall i :: 0 <= i < |s.trace| ==> Took(s, s.trace[i].call)
  }

  ghost predicate Took<R>(s: Core<R>, c: nat) {
    c < |s.calls| && !s.calls[c].RefusedDisposed? && !s.calls[c].Queued?
  }

  ghost predicate Inv<R>(s: Core<R>) {
    AtMostOneHolder(s) && WellOrdered(s.trace) && Linked(s) && Participants(s) && Resent(s)
  }

  lemma ClosedTraceEnds<R>(trace: seq<Wire<R>>)
    requires WellOrdered(trace) && Open(trace).None? && Unnotified(trace).None? && trace != []
    ensures trace[|trace| - 1].RequestFailed? || trace[|trace| - 1].Notified?
  {
  }

  lemma TraceSent<R>(trace: seq<Wire<R>>, c: nat)
    requires WellOrdered(trace) && Open(trace).None? && Unnotified(trace).None?
    ensures WellOrdered(trace + [Sent(c)])
  {
    if trace != [] {
      ClosedTraceEnds(trace);
    }
  }

  lemma TraceFailed<R>(trace: seq<Wire<R>>, c: nat)
    requires WellOrdered(trace) && Open(trace) == Some(c)
    ensures WellOrdered(trace + [RequestFailed(c)])
  {
  }

  lemma TraceAnswered<R>(trace: seq<Wire<R>>, c: nat, r: R)
    requires WellOrdered(trace) && Open(trace) == Some(c)
    ensures WellOrdered(trace + [Responded(c, r)])
  {
  }

  lemma TraceNotified<R>(trace: seq<Wire<R>>, c: nat)
    requires WellOrdered(trace) && Unnotified(trace) == Some(c)
    ensures WellOrdered(trace + [Notified(c)])
  {
  }

  lemma NothingOpen<R>(s: Core<R>)
    requires Linked(s) && MutexFree(s)
    ensures Open(s.trace).None? && Unnotified(s.trace).None?
  {
  }

  // -- Who takes part --------------------------------------------------------------------

  /** Participation is kept by any step that sends for calls that take part and turns nobody away. */
  lemma TookGrows<R>(s: Core<R>, s': Core<R>)
    requires Participants(s) && |s.calls| <= |s'.calls| && s.trace <= s'.trace
    requires forall c :: 0 <= c < |s.calls| && Took(s, c) ==> Took(s', c)
    requires forall i :: |s.trace| <= i < |s'.trace| ==> Took(s', s'.trace[i].call)
    ensures Participants(s')
  {
    forall i | 0 <= i < |s'.trace| ensures Took(s', s'.trace[i].call) {
      if i < |s.trace| {
        assert s'.trace[i] == s.trace[i] && Took(s, s.trace[i].call);
      }
    }
  }

  lemma ParticipantsStay<R>(s: Core<R>, step: Step<R>)
    requires Participants(s)
    ensures Participants(Next(s, step))
  {
    hide Participants, MutexFree;
    TookGrows(s, Next(s, step));
  }

  // -- Who has notified ------------------------------------------------------------------

  lemma ResentGrows<R>(s: Core<R>, s': Core<R>)
    requires Resent(s) && |s.calls| <= |s'.calls| && s.trace <= s'.trace && |s'.trace| <= |s.trace| + 1
    requires forall c :: 0 <= c < |s.calls| && PastNotification(s, c) ==> PastNotification(s', c)
    requires forall c :: 0 <= c < |s.calls| && s.calls[c].Failed? ==> s'.calls[c].Failed?
    requires |s'.trace| > |s.trace| && s'.trace[|s.trace|].Notified? ==> PastNotification(s', s'.trace[|s.trace|].call)
    requires |s'.trace| > |s.trace| && s'.trace[|s.trace|].Sent? ==>
               forall i :: 0 <= i < |s.trace| && s.trace[i].Notified? ==> FailedCall(s, s.trace[i].call)
    ensures Resent(s')
  {
    hide PastNotification;
    assert forall i :: 0 <= i < |s.trace| ==> s'.trace[i] == s.trace[i];
    forall i | 0 <= i < |s'.trace| && s'.trace[i].Notified? ensures PastNotification(s', s'.trace[i].call) {
      if i < |s.trace| {
        assert PastNotification(s, s.trace[i].call);
        NotifiedIsACall(s, s.trace[i].call);
      }
    }
    forall i, j | 0 <= i < j < |s'.trace| && s'.trace[i].Notified? && s'.trace[j].Sent?
      ensures FailedCall(s', s'.trace[i].call)
    {
      assert FailedCall(s, s.trace[i].call);
    }
  }

  lemma NotifiedIsACall<R>(s: Core<R>, c: nat)
    requires PastNotification(s, c)
    ensures c < |s.calls|
  {
  }

  /** With the mutex free and nothing memoised, every notification so far has failed. */
  lemma FreeWithoutMemo<R>(s: Core<R>)
    requires Resent(s) && Linked(s) && MutexFree(s) && s.memo.None?
    ensures forall i :: 0 <= i < |s.trace| && s.trace[i].Notified? ==> FailedCall(s, s.trace[i].call)
  {
    forall i | 0 <= i < |s.trace| && s.trace[i].Notified? ensures FailedCall(s, s.trace[i].call) {
      assert PastNotification(s, s.trace[i].call);
    }
  }

  lemma ResentStays<R>(s: Core<R>, step: Step<R>)
    requires Resent(s) && Linked(s)
    ensures Resent(Next(s, step))
  {
    hide Linked, Resent, MutexFree;
    if step.Enter? && step.call < |s.calls| && MutexFree(s) && s.memo.None? {
      FreeWithoutMemo(s);
    }
    ResentGrows(s, Next(s, step));
  }

  // -- One step at a time ----------------------------------------------------------------

  lemma StepKeepsLinks<R>(s: Core<R>, step: Step<R>)
    requires AtMostOneHolder(s) && Linked(s)
    ensures AtMostOneHolder(Next(s, step)) && Linked(Next(s, step))
  {
    hide AtMostOneHolder, Linked, MutexFree;
    match step
    case Begin => BeginKeepsLinks(s);
    case Enter(c) => EnterKeepsLinks(s, c);
    case Respond(c, response) =>
      if c < |s.calls| && s.calls[c].Requesting? {
        if response.Some? {
          AnswerKeepsLinks(s, c, response.value);
        } else {
          FailureKeepsLinks(s, c);
        }
      }
    case Notify(c) => NotifyKeepsLinks(s, c);
    case Acknowledge(c, ok) => AcknowledgeKeepsLinks(s, c, ok);
    case Dispose => DisposeKeepsLinks(s);
  }

  lemma BeginKeepsLinks<R>(s: Core<R>)
    requires AtMostOneHolder(s) && Linked(s)
    ensures AtMostOneHolder(Next(s, Begin)) && Linked(Next(s, Begin))
  {
  }

  lemma DisposeKeepsLinks<R>(s: Core<R>)
    requires AtMostOneHolder(s) && Linked(s)
    ensures AtMostOneHolder(Next(s, Dispose)) && Linked(Next(s, Dispose))
  {
  }

  lemma EnterKeepsLinks<R>(s: Core<R>, c: nat)
    requires AtMostOneHolder(s) && Linked(s)
    ensures var s' := Next(s, Enter(c)); AtMostOneHolder(s') && Linked(s')
  {
    if MutexFree(s) {
      NothingOpen(s);
    }
  }

  lemma AnswerKeepsLinks<R>(s: Core<R>, c: nat, response: R)
    requires AtMostOneHolder(s) && Linked(s) && c < |s.calls| && s.calls[c].Requesting?
    ensures var s' := Next(s, Respond(c, Some(response))); AtMostOneHolder(s') && Linked(s')
  {
  }

  lemma FailureKeepsLinks<R>(s: Core<R>, c: nat)
    requires AtMostOneHolder(s) && Linked(s) && c < |s.calls| && s.calls[c].Requesting?
    ensures var s' := Next(s, Respond(c, None)); AtMostOneHolder(s') && Linked(s')
  {
  }

  lemma NotifyKeepsLinks<R>(s: Core<R>, c: nat)
    requires AtMostOneHolder(s) && Linked(s)
    ensures var s' := Next(s, Notify(c)); AtMostOneHolder(s') && Linked(s')
  {
  }

  lemma AcknowledgeKeepsLinks<R>(s: Core<R>, c: nat, ok: bool)
    requires AtMostOneHolder(s) && Linked(s)
    ensures var s' := Next(s, Acknowledge(c, ok)); AtMostOneHolder(s') && Linked(s')
  {
  }

  lemma StepKeepsOrder<R>(s: Core<R>, step: Step<R>)
    requires WellOrdered(s.trace) && Linked(s)
    ensures WellOrdered(Next(s, step).trace)
  {
    hide WellOrdered;
    match step
    case Enter(c) =>
      if MutexFree(s) {
        NothingOpen(s);
        TraceSent(s.trace, c);
      }
    case Respond(c, response) =>
      if c < |s.calls| && s.calls[c].Requesting? {
        TraceFailed(s.trace, c);
        if response.Some? {
          TraceAnswered(s.trace, c, response.value);
        }
      }
    case Notify(c) =>
      if c < |s.calls| && s.calls[c].Answered? {
        TraceNotified(s.trace, c);
      }
    case _ =>
  }

  lemma StepKeepsInv<R>(s: Core<R>, step: Step<R>)
    requires Inv(s)
    ensures Inv(Next(s, step))
  {
    hide WellOrdered, Linked, Participants, AtMostOneHolder, Resent, Next;
    StepKeepsLinks(s, step);
    StepKeepsOrder(s, step);
    ParticipantsStay(s, step);
    ResentStays(s, step);
  }

  lemma StartInv<R>()
    ensures Inv<R>(Start())
  {
  }

  lemma {:induction false} RunKeepsInv<R>(steps: seq<Step<R>>)
    ensures Inv(Run(steps))
  {
    hide Inv, Next;
    if steps == [] {
      StartInv<R>();
    } else {
      RunKeepsInv(steps[..|steps| - 1]);
      StepKeepsInv(Run(steps[..|steps| - 1]), steps[|steps| - 1]);
    }
  }

  // -- Main results ----------------------------------------------------------------------

  /** Over any interleaving: at most one call is inside the handshake, requests never overlap, a notification
      follows only a successful response, and nothing else does; all callers that return get the same
      result, which is the last response on the wire. */
  lemma HandshakeOrder<R>(steps: seq<Step<R>>)
    ensures var s := Run(steps);
            && AtMostOneHolder(s)
            && WellOrdered(s.trace)
            && (forall c :: 0 <= c < |s.calls| && s.calls[c].Returned? ==> LastResponse(s.trace) == Some(s.calls[c].result))
            && (forall c, c' :: 0 <= c < |s.calls| && 0 <= c' < |s.calls| && s.calls[c].Returned? && s.calls[c'].Returned? ==>
                  s.calls[c].result == s.calls[c'].result)
  {
    hide Run, AtMostOneHolder, WellOrdered, Participants, Resent;
    RunKeepsInv(steps);
  }

  /** A request follows a successful response only when that response's notification was sent and failed. */
  lemma SecondRequestMeansFailedNotification<R>(steps: seq<Step<R>>, i: nat, j: nat)
    requires i < j < |Run(steps).trace| && Run(steps).trace[i].Responded? && Run(steps).trace[j].Sent?
    ensures var s := Run(steps);
            s.trace[i + 1] == Notified(s.trace[i].call) && FailedCall(s, s.trace[i].call)
  {
    hide Run, AtMostOneHolder, Participants, Linked, FailedCall;
    RunKeepsInv(steps);
  }

  /** After an attempt that got its response and sent its notification, the next call into the handshake
      sends the request again exactly when that notification failed. */
  lemma SendsAgainExactlyAfterFailedNotification<R>(steps: seq<Step<R>>, c: nat)
    requires c < |Run(steps).calls| && Run(steps).calls[c].Queued? && MutexFree(Run(steps))
    requires LastResponse(Run(steps).trace).Some?
    ensures var s := Run(steps);
            Next(s, Enter(c)).trace == s.trace + [Sent(c)] <==> FailedCall(s, s.trace[|s.trace| - 1].call)
  {
    hide Run, AtMostOneHolder, Participants;
    var s := Run(steps);
    RunKeepsInv(steps);
    var last := s.trace[|s.trace| - 1];
    assert s.trace[|s.trace| - 2 + 1] == Notified(s.trace[|s.trace| - 2].call);
    if s.memo.None? {
      FreeWithoutMemo(s);
    }
  }

  lemma StepAfterSuccess<R>(s: Core<R>, step: Step<R>)
    requires Inv(s) && s.memo.Some?
    ensures var s' := Next(s, step);
            && s'.trace == s.trace && s'.memo == s.memo && |s.calls| <= |s'.calls|
            && (forall c :: 0 <= c < |s.calls| && s.calls[c] != s'.calls[c] ==>
                  s.calls[c].Queued? && s'.calls[c] == Returned(s.memo.value))
            && (forall c :: |s.calls| <= c < |s'.calls| ==> s'.calls[c].Queued? || s'.calls[c].RefusedDisposed?)
  {
    hide WellOrdered, Participants, AtMostOneHolder;
  }

  /** After one full success nothing is ever sent again, and every later call that completes gets
      that first result. */
  lemma {:induction false} SuccessIsFinal<R>(steps: seq<Step<R>>, k: nat)
    requires k <= |steps| && Run(steps[..k]).memo.Some?
    ensures var s, was := Run(steps), Run(steps[..k]);
            && s.trace == was.trace && s.memo == was.memo && |was.calls| <= |s.calls|
            && (forall c :: |was.calls| <= c < |s.calls| ==>
                  s.calls[c].Queued? || s.calls[c].RefusedDisposed? || s.calls[c] == Returned(was.memo.value))
  {
    hide WellOrdered, Participants, AtMostOneHolder, Linked, Resent;
    if k == |steps| {
      assert steps[..k] == steps;
    } else {
      var front := steps[..|steps| - 1];
      assert front[..k] == steps[..k];
      SuccessIsFinal(front, k);
      RunKeepsInv(front);
      hide Next;
      StepAfterSuccess(Run(front), steps[|steps| - 1]);
    }
  }

  lemma StepAfterDispose<R>(s: Core<R>, step: Step<R>)
    requires s.disposed
    ensures var s' := Next(s, step);
            && s'.disposed && |s.calls| <= |s'.calls|
            && (forall c :: 0 <= c < |s.calls| && s.calls[c].RefusedDisposed? ==> s'.calls[c].RefusedDisposed?)
            && (forall c :: |s.calls| <= c < |s'.calls| ==> s'.calls[c].RefusedDisposed?)
  {
  }

  /** Every call made after dispose is refused, and never reaches the wire. */
  lemma {:induction false} CallsAfterDisposeAreRefused<R>(steps: seq<Step<R>>, k: nat)
    requires k <= |steps| && Run(steps[..k]).disposed
    ensures var s, was := Run(steps), Run(steps[..k]);
            && s.disposed && |was.calls| <= |s.calls|
            && (forall c :: |was.calls| <= c < |s.calls| ==> s.calls[c].RefusedDisposed?)
            && (forall i :: 0 <= i < |s.trace| ==> s.trace[i].call < |was.calls|)
  {
    hide Next, WellOrdered, AtMostOneHolder, Linked;
    RunKeepsInv(steps);
    var s := Run(steps);
    if k == |steps| {
      assert steps[..k] == steps;
    } else {
      var front := steps[..|steps| - 1];
      assert front[..k] == steps[..k];
      CallsAfterDisposeAreRefused(front, k);
      StepAfterDispose(Run(front), steps[|steps| - 1]);
    }
    forall i | 0 <= i < |s.trace| ensures s.trace[i].call < |Run(steps[..k]).calls| {
      assert Took(s, s.trace[i].call);
    }
  }

  lemma RunMore<R>(steps: seq<Step<R>>, step: Step<R>)
    ensures Run(steps + [step]) == Next(Run(steps), step)
  {
    assert (steps + [step])[..|steps|] == steps;
  }

  // -- One attempt among others ----------------------------------------------------------

  /** A step that moves the call itself on, once it is inside. */
  predicate Moves<R>(step: Step<R>, c: nat) {
    (step.Respond? || step.Notify? || step.Acknowledge?) && step.call == c
  }

  ghost predicate NoneMoves<R>(steps: seq<Step<R>>, c: nat) {
    forall i :: 0 <= i < |steps| ==> !Moves(steps[i], c)
  }

  /** Call `c` is inside the handshake, where it stands at `call`, with this trace and memo. */
  ghost predicate Inside<R>(s: Core<R>, c: nat, call: Call<R>, trace: seq<Wire<R>>, memo: Option<R>) {
    c < |s.calls| && s.calls[c] == call && Holds(call) && s.trace == trace && s.memo == memo
  }

  lemma OthersWait<R>(s: Core<R>, step: Step<R>, c: nat, call: Call<R>, trace: seq<Wire<R>>, memo: Option<R>)
    requires AtMostOneHolder(s) && Inside(s, c, call, trace, memo) && !Moves(step, c)
    ensures Inside(Next(s, step), c, call, trace, memo)
  {
  }

  /** While a call is inside, nothing but its own steps moves it, or touches the wire or the memo. */
  lemma {:induction false} InsideAlone<R>(steps: seq<Step<R>>, more: seq<Step<R>>, c: nat, call: Call<R>,
                                          trace: seq<Wire<R>>, memo: Option<R>)
    requires Inside(Run(steps), c, call, trace, memo) && NoneMoves(more, c)
    ensures Inside(Run(steps + more), c, call, trace, memo)
  {
    hide Next, Inside, WellOrdered, Linked, Participants, Resent, AtMostOneHolder;
    if more == [] {
      assert steps + more == steps;
    } else {
      var front, last := more[..|more| - 1], more[|more| - 1];
      assert !Moves(last, c);
      InsideAlone(steps, front, c, call, trace, memo);
      RunKeepsInv(steps + front);
      assert steps + more == steps + front + [last];
      RunMore(steps + front, last);
      OthersWait(Run(steps + front), last, c, call, trace, memo);
    }
  }

  lemma OwnStep<R>(s: Core<R>, step: Step<R>, c: nat, call: Call<R>, trace: seq<Wire<R>>, memo: Option<R>)
    requires Inside(s, c, call, trace, memo) && Moves(step, c)
    ensures var s' := Next(s, step);
            && (call.Requesting? && step.Respond? && step.response.Some? ==>
                  Inside(s', c, Answered(step.response.value), trace + [Responded(c, step.response.value)], memo))
            && (call.Requesting? && step.Respond? && step.response.None? ==>
                  c < |s'.calls| && s'.calls[c] == Failed && s'.trace == trace + [RequestFailed(c)] && s'.memo == memo)
            && (call.Answered? && step.Notify? ==> Inside(s', c, Notifying(call.response), trace + [Notified(c)], memo))
            && (call.Notifying? && step.Acknowledge? ==>
                  && c < |s'.calls| && s'.trace == trace
                  && s'.calls[c] == (if step.ok then Returned(call.response) else Failed)
                  && s'.memo == (if step.ok then Some(call.response) else memo))
  {
  }

  /** A queued call whose turn it is. */
  ghost predicate MayEnter<R>(s: Core<R>, c: nat) { c < |s.calls| && s.calls[c].Queued? && MutexFree(s) }

  /** Whatever others do in between: a queued call that gets the mutex with nothing memoised sends the
      request; if that fails, so does the call. */
  lemma FailedAttempt<R>(steps: seq<Step<R>>, c: nat, waiting: seq<Step<R>>)
    requires MayEnter(Run(steps), c) && Run(steps).memo.None? && NoneMoves(waiting, c)
    ensures var s, s' := Run(steps), Run(steps + [Enter(c)] + waiting + [Respond(c, None)]);
            c < |s'.calls| && s'.calls[c] == Failed && s'.memo.None? && s'.trace == s.trace + [Sent(c), RequestFailed(c)]
  {
    hide Run, Next, MutexFree;
    var s := Run(steps);
    EnterSends(steps, c);
    InsideAlone(steps + [Enter(c)], waiting, c, Requesting, s.trace + [Sent(c)], None);
    RunMore(steps + [Enter(c)] + waiting, Respond(c, None));
    OwnStep(Run(steps + [Enter(c)] + waiting), Respond(c, None), c, Requesting, s.trace + [Sent(c)], None);
  }

  lemma EnterSends<R>(steps: seq<Step<R>>, c: nat)
    requires MayEnter(Run(steps), c) && Run(steps).memo.None?
    ensures Inside(Run(steps + [Enter(c)]), c, Requesting, Run(steps).trace + [Sent(c)], None)
  {
    hide Run, MutexFree;
    RunMore(steps, Enter(c));
  }

  /** If the response comes, it is notified, and once the notification is acknowledged the call returns that
      response and it is memoised; if the notification fails, so does the call, and nothing is memoised. */
  lemma AnsweredAttempt<R>(steps: seq<Step<R>>, c: nat, response: R, ok: bool,
                           waiting: seq<Step<R>>, answered: seq<Step<R>>, notifying: seq<Step<R>>)
    requires MayEnter(Run(steps), c) && Run(steps).memo.None?
    requires NoneMoves(waiting, c) && NoneMoves(answered, c) && NoneMoves(notifying, c)
    ensures var s := Run(steps);
            var s' := Run(steps + [Enter(c)] + waiting + [Respond(c, Some(response))] + answered + [Notify(c)]
                          + notifying + [Acknowledge(c, ok)]);
            && c < |s'.calls| && s'.calls[c] == (if ok then Returned(response) else Failed)
            && s'.memo == (if ok then Some(response) else None)
            && s'.trace == s.trace + [Sent(c), Responded(c, response), Notified(c)]
  {
    hide Run, Next, MutexFree, NoneMoves;
    var sent := Run(steps).trace + [Sent(c)];
    var responded := sent + [Responded(c, response)];
    var notified := responded + [Notified(c)];
    EnterSends(steps, c);
    var s1 := steps + [Enter(c)] + waiting;
    InsideAlone(steps + [Enter(c)], waiting, c, Requesting, sent, None);
    RunMore(s1, Respond(c, Some(response)));
    OwnStep(Run(s1), Respond(c, Some(response)), c, Requesting, sent, None);
    var s2 := s1 + [Respond(c, Some(response))] + answered;
    InsideAlone(s1 + [Respond(c, Some(response))], answered, c, Answered(response), responded, None);
    RunMore(s2, Notify(c));
    OwnStep(Run(s2), Notify(c), c, Answered(response), responded, None);
    var s3 := s2 + [Notify(c)] + notifying;
    InsideAlone(s2 + [Notify(c)], notifying, c, Notifying(response), notified, None);
    RunMore(s3, Acknowledge(c, ok));
    OwnStep(Run(s3), Acknowledge(c, ok), c, Notifying(response), notified, None);
    hide Inside;
    assert notified == Run(steps).trace + [Sent(c), Responded(c, response), Notified(c)];
  }

  /** With a memoised success, a queued call that gets the mutex returns it and sends nothing. */
  lemma MemoAnswers<R>(steps: seq<Step<R>>, c: nat)
    requires MayEnter(Run(steps), c) && Run(steps).memo.Some?
    ensures var s, s' := Run(steps), Run(steps + [Enter(c)]);
            s'.calls == s.calls[c := Returned(s.memo.value)] && s'.trace == s.trace && s'.memo == s.memo
  {
    hide Run, MutexFree;
    RunMore(steps, Enter(c));
  }

  function Requests<R>(trace: seq<Wire<R>>): nat {
    if trace == [] then 0 else Requests(trace[..|trace| - 1]) + if trace[|trace| - 1].Sent? then 1 else 0
  }

  /** Some call is still queued, and there is no memoised success for it to return. */
  ghost predicate SomeoneWillSend<R>(s: Core<R>) {
    s.memo.None? && exists c :: 0 <= c < |s.calls| && s.calls[c].Queued?
  }

  lemma RequestsMore<R>(trace: seq<Wire<R>>, wire: Wire<R>)
    ensures Requests(trace + [wire]) == Requests(trace) + if wire.Sent? then 1 else 0
  {
    assert (trace + [wire])[..|trace|] == trace;
  }

  lemma NobodySends<R>(s: Core<R>, step: Step<R>)
    requires s.disposed && !SomeoneWillSend(s)
    ensures var s' := Next(s, step);
            s'.disposed && !SomeoneWillSend(s') && Requests(s'.trace) == Requests(s.trace)
  {
    hide Requests, MutexFree;
    var s' := Next(s, step);
    if s'.trace != s.trace {
      var wire := s'.trace[|s.trace|];
      assert s'.trace == s.trace + [wire];
      RequestsMore(s.trace, wire);
    }
  }

  lemma {:induction false} NobodyEverSends<R>(steps: seq<Step<R>>, more: seq<Step<R>>)
    requires Run(steps).disposed && !SomeoneWillSend(Run(steps))
    ensures Run(steps + more).disposed && !SomeoneWillSend(Run(steps + more))
    ensures Requests(Run(steps + more).trace) == Requests(Run(steps).trace)
  {
    hide Next, SomeoneWillSend;
    if more == [] {
      assert steps + more == steps;
    } else {
      var front, last := more[..|more| - 1], more[|more| - 1];
      NobodyEverSends(steps, front);
      assert steps + more == steps + front + [last];
      RunMore(steps + front, last);
      NobodySends(Run(steps + front), last);
    }
  }

  ghost predicate StillQueued<R>(s: Core<R>, c: nat) {
    s.memo.None? && c < |s.calls| && s.calls[c].Queued?
  }

  /** The holder's request, or its notification, fails: the mutex is free. */
  lemma FailureFrees<R>(s: Core<R>, h: nat, c: nat)
    requires Inv(s) && StillQueued(s, c) && h < |s.calls| && (s.calls[h].Requesting? || s.calls[h].Notifying?)
    ensures var step := if s.calls[h].Requesting? then Respond(h, None) else Acknowledge(h, false);
            var s' := Next(s, step);
            MutexFree(s') && StillQueued(s', c) && Requests(s'.trace) == Requests(s.trace)
  {
    OnlyHolder(s, h);
    hide Inv, Requests;
    RequestsMore(s.trace, RequestFailed(h));
  }

  lemma NotifyWaits<R>(s: Core<R>, h: nat, c: nat)
    requires Inv(s) && StillQueued(s, c) && h < |s.calls| && s.calls[h].Answered?
    ensures var s' := Next(s, Notify(h));
            Inv(s') && StillQueued(s', c) && h < |s'.calls| && s'.calls[h].Notifying? && Requests(s'.trace) == Requests(s.trace)
  {
    StepKeepsInv(s, Notify(h));
    hide Inv, Requests;
    RequestsMore(s.trace, Notified(h));
  }

  /** Let the call in the handshake fail, if there is one: the mutex is free and nothing is memoised. */
  lemma {:induction false} HolderFails<R>(steps: seq<Step<R>>, c: nat) returns (more: seq<Step<R>>)
    requires StillQueued(Run(steps), c)
    ensures var s := Run(steps + more);
            MutexFree(s) && StillQueued(s, c) && Requests(s.trace) == Requests(Run(steps).trace)
  {
    hide Run, Inv, Requests, StillQueued, Next;
    RunKeepsInv(steps);
    var s := Run(steps);
    if MutexFree(s) {
      more := [];
      assert steps + more == steps;
    } else {
      var h :| 0 <= h < |s.calls| && Holds(s.calls[h]);
      if s.calls[h].Answered? {
        NotifyWaits(s, h, c);
        FailureFrees(Next(s, Notify(h)), h, c);
        more := [Notify(h), Acknowledge(h, false)];
        RunMore(steps, Notify(h));
        RunMore(steps + [Notify(h)], Acknowledge(h, false));
        assert steps + more == steps + [Notify(h)] + [Acknowledge(h, false)];
      } else {
        FailureFrees(s, h, c);
        var step := if s.calls[h].Requesting? then Respond(h, None) else Acknowledge(h, false);
        more := [step];
        RunMore(steps, step);
      }
    }
  }

  /** After dispose, a request can still be sent exactly when some call was queued by then and there is
      no memoised success: the guard against use after dispose is checked before the mutex, not inside. */
  lemma {:induction false} SendsAfterDisposeExactlyWhenQueued<R>(steps: seq<Step<R>>)
    requires Run(steps).disposed
    ensures SomeoneWillSend(Run(steps)) <==>
            exists more: seq<Step<R>> :: Requests(Run(steps + more).trace) > Requests(Run(steps).trace)
  {
    hide Run;
    if SomeoneWillSend(Run(steps)) {
      var c: nat :| c < |Run(steps).calls| && Run(steps).calls[c].Queued?;
      var more := HolderFails(steps, c);
      RunMore(steps + more, Enter(c));
      RequestsMore(Run(steps + more).trace, Sent(c));
      assert steps + (more + [Enter(c)]) == steps + more + [Enter(c)];
    } else {
      forall more: seq<Step<R>> ensures Requests(Run(steps + more).trace) == Requests(Run(steps).trace) {
        NobodyEverSends(steps, more);
      }
    }
  }

  /** A call that was already queued when the core was disposed can still send its request: the guard
      is checked before the mutex, not inside it. */
  lemma QueuedCallSendsAfterDispose()
    ensures exists steps: seq<Step<int>>, k: nat ::
              && k < |steps| && Run(steps[..k]).disposed
              && |Run(steps[..k]).trace| < |Run(steps).trace|
              && Run(steps).trace[|Run(steps).trace| - 1].Sent?
  {
    var before: seq<Step<int>> := [Begin, Begin, Enter(0), Dispose];
    DisposedWhileQueued(before);
    RunMore(before, Respond(0, None));
    RunMore(before + [Respond(0, None)], Enter(1));
    var all := before + [Respond(0, None)] + [Enter(1)];
    hide Run;
    assert all[..4] == before;
    assert Run(all).trace == [Sent(0), RequestFailed(0), Sent(1)];
    assert Run(all[..4]) == Core(true, [Requesting, Queued], None, [Sent(0)]);
    assert 4 < |all| && |Run(all[..4]).trace| < |Run(all).trace| && Run(all).trace[|Run(all).trace| - 1].Sent?;
  }

  lemma DisposedWhileQueued(steps: seq<Step<int>>)
    requires steps == [Begin, Begin, Enter(0), Dispose]
    ensures Run(steps) == Core(true, [Requesting, Queued], None, [Sent(0)])
  {
    RunMore<int>([], Begin);
    RunMore<int>([] + [Begin], Begin);
    RunMore<int>([] + [Begin] + [Begin], Enter(0));
    RunMore<int>([] + [Begin] + [Begin] + [Enter(0)], Dispose);
    assert [] + [Begin] + [Begin] + [Enter(0)] + [Dispose] == steps;
    assert Run<int>([]) == Start();
    hide Run;
    assert Next<int>(Next<int>(Start(), Begin), Begin) == Core(false, [Queued, Queued], None, []);
  }

  // -- The handshake's state -------------------------------------------------------------

  /** The semaphore holds who is inside rather than searching for them. */
  class Handshake<R> {
    var disposed: bool
    var memo: Option<R>
    var holder: Option<nat>
    var calls: seq<Call<R>>
    ghost var wire: seq<Wire<R>>

    ghost function State(): Core<R>
      reads this
    {
      Core(disposed, calls, memo, wire)
    }

    ghost predicate Valid()
      reads this
    {
      && Inv(State())
      && (holder.None? ==> MutexFree(State()))
      && (holder.Some? ==> holder.value < |calls| && Holds(calls[holder.value]))
    }

    constructor ()
      ensures Valid() && State() == Start()
    {
      disposed, memo, holder, calls, wire := false, None, None, [], [];
    }

    /** The guard, then the wait for the semaphore. */
    method Begin() returns (call: nat)
      requires Valid()
      modifies this`calls
      ensures Valid() && State() == Next(old(State()), Step.Begin)
      ensures call == |old(calls)|
    {
      StepKeepsInv(State(), Step.Begin);
      hide Inv;
      call := |calls|;
      calls := calls + [if disposed then RefusedDisposed else Queued];
    }

    /** The semaphore admits a queued call: a memoised success is returned and the permit given back,
        otherwise the request is sent. */
    method Enter(call: nat)
      requires Valid() && call < |calls| && calls[call].Queued? && holder.None?
      modifies this`calls, this`holder, this`wire
      ensures Valid() && State() == Next(old(State()), Step.Enter(call))
    {
      StepKeepsInv(State(), Step.Enter(call));
      hide Inv;
      if memo.Some? {
        calls := calls[call := Returned(memo.value)];
      } else {
        holder := Some(call);
        calls := calls[call := Requesting];
        wire := wire + [Sent(call)];
      }
    }

    /** The request resolves; or it fails, and the permit is given back. */
    method Respond(response: Option<R>)
      requires Valid() && holder.Some? && calls[holder.value].Requesting?
      modifies this`calls, this`holder, this`wire
      ensures Valid() && State() == Next(old(State()), Step.Respond(old(holder).value, response))
    {
      var call := holder.value;
      StepKeepsInv(State(), Step.Respond(call, response));
      OnlyHolder(State(), call);
      hide Inv;
      if response.Some? {
        calls := calls[call := Answered(response.value)];
        wire := wire + [Responded(call, response.value)];
      } else {
        calls := calls[call := Failed];
        wire := wire + [RequestFailed(call)];
        holder := None;
      }
    }

    /** The notification is sent. */
    method Notify()
      requires Valid() && holder.Some? && calls[holder.value].Answered?
      modifies this`calls, this`wire
      ensures Valid() && State() == Next(old(State()), Step.Notify(old(holder).value))
    {
      var call := holder.value;
      StepKeepsInv(State(), Step.Notify(call));
      hide Inv;
      calls := calls[call := Notifying(calls[call].response)];
      wire := wire + [Notified(call)];
    }

    /** The notification resolves, and the success is recorded; or it fails, and nothing is. */
    method Acknowledge(ok: bool)
      requires Valid() && holder.Some? && calls[holder.value].Notifying?
      modifies this`calls, this`holder, this`memo
      ensures Valid() && State() == Next(old(State()), Step.Acknowledge(old(holder).value, ok))
    {
      var call := holder.value;
      StepKeepsInv(State(), Step.Acknowledge(call, ok));
      OnlyHolder(State(), call);
      hide Inv;
      if ok {
        memo := Some(calls[call].response);
        calls := calls[call := Returned(calls[call].response)];
      } else {
        calls := calls[call := Failed];
      }
      holder := None;
    }

    method Dispose()
      requires Valid()
      modifies this`disposed
      ensures Valid() && State() == Next(old(State()), Step.Dispose)
    {
      StepKeepsInv(State(), Step.Dispose);
      disposed := true;
    }
  }

  lemma OnlyHolder<R>(s: Core<R>, call: nat)
    requires Inv(s) && call < |s.calls| && Holds(s.calls[call])
    ensures forall i :: 0 <= i < |s.calls| && i != call ==> !Holds(s.calls[i])
  {
    hide WellOrdered, Linked, Participants;
  }
}
