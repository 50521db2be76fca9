/** What may come between the awaits of a cursor recompile: exactly which deliveries of other tables for its
    file leave what it files right, whatever the tables hold. */
module CursorInterleavings {
  import opened Prelude
  import opened SymbolGraph
  import opened CursorCache

  // -- At the filing ---------------------------------------------------------------------

  /** What is known of the file's table when a recompile files its text: that there is none, or its version
      and whether a recompile of the same text registered it last. */
  datatype Known = NoTable | From(own: bool, version: int)

  ghost predicate KnownAs(stored: Option<Stored>, content: string, known: Known) {
    match known
    case NoTable => stored.None?
    case From(own, version) =>
      stored.Some? && stored.value.table.version == version && (stored.value.text == Some(content) <==> own)
  }

  /** Whatever the compiler, the text and the table are: the entry filed is right. */
  ghost predicate RightFor(sourceVersion: Option<int>, known: Known) {
    forall compile: Compiler, uri, content, stored: Option<Stored> ::
      KnownAs(stored, content, known) && compile(content, uri).Some?
      && (stored.Some? ==> TextOk(compile, uri, stored.value)) ==>
        Settled(compile, uri, content, sourceVersion, stored)
  }

  /** An entry is filed right for all contents exactly when its table was last registered by a recompile of
      the same text at a version the request covers, or the request has no version and the table is past
      version 1. */
  lemma FilingIsRightExactly(sourceVersion: Option<int>, known: Known)
    ensures RightFor(sourceVersion, known) <==>
            && known.From?
            && ((known.own && known.version >= Base(sourceVersion)) || (sourceVersion.None? && known.version > 1))
  {
    hide Merge;
    if known.From? && ((known.own && known.version >= Base(sourceVersion)) || (sourceVersion.None? && known.version > 1)) {
      forall compile: Compiler, uri, content, stored: Option<Stored>
        | KnownAs(stored, content, known) && compile(content, uri).Some?
          && (stored.Some? ==> TextOk(compile, uri, stored.value))
        ensures Settled(compile, uri, content, sourceVersion, stored)
      {
        hide Settled, TextOk;
        FiledRightIsSettled(compile, Request(uri, Some(content), sourceVersion, true), stored);
      }
    } else {
      hide RightFor;
      SomeFilingIsWrong(sourceVersion, known);
    }
  }

  lemma SomeFilingIsWrong(sourceVersion: Option<int>, known: Known)
    requires known.NoTable? || !((known.own && known.version >= Base(sourceVersion)) || (sourceVersion.None? && known.version > 1))
    ensures !RightFor(sourceVersion, known)
  {
    hide Merge;
    var compile: Compiler := (content: string, uri: Uri) => Some(FULL_TABLE);
    var stored := match known
      case NoTable => None
      case From(own, version) =>
        if own then Some(Stored(0, FULL_TABLE.(version := version), Some("text")))
        else Some(Stored(0, PUBLIC_TABLE.(version := version), None));
    if known.From? {
      MergeSelf(FULL_TABLE.(version := known.version));
      MergeKeepsReferences(PUBLIC_TABLE.(version := known.version), FULL_TABLE.(version := known.version));
    }
    assert KnownAs(stored, "text", known);
    assert compile("text", "a").Some? && (stored.Some? ==> TextOk(compile, "a", stored.value));
    assert !Settled(compile, "a", "text", sourceVersion, stored);
  }

  // -- Between the lift and the registration ---------------------------------------------

  /** A recompile asked for `sourceVersion` was lifted to `lifted`.  A table of version `delivered` comes
      before its own is registered: for all contents, the table it leaves is right for it. */
  ghost predicate HarmlessBeforeRegistration(sourceVersion: Option<int>, lifted: int, delivered: int) {
    forall compile: Compiler, w: Worker, uri, content, table: Table, hasErrors ::
      compile(content, uri).Some? && table.version == delivered
      && RegistrationVersion(TableOf(Current(w.tables, uri)), sourceVersion) == lifted ==>
        var w1 := Deliver(w, uri, table, hasErrors, None);
        var w2 := Deliver(w1, uri, compile(content, uri).value.(version := lifted), false, Some(content));
        Settled(compile, uri, content, sourceVersion, Current(w2.tables, uri))
  }

  /** Exactly the tables up to the lifted version are harmless there, and for a request without a version
      all of them. */
  lemma HarmlessBeforeRegistrationExactly(sourceVersion: Option<int>, lifted: int, delivered: int)
    requires if sourceVersion.Some? then sourceVersion.value <= lifted else lifted == 1
    ensures HarmlessBeforeRegistration(sourceVersion, lifted, delivered) <==> delivered <= lifted || sourceVersion.None?
  {
    hide Merge;
    if delivered <= lifted || sourceVersion.None? {
      forall compile: Compiler, w: Worker, uri, content, table: Table, hasErrors
        | compile(content, uri).Some? && table.version == delivered
          && RegistrationVersion(TableOf(Current(w.tables, uri)), sourceVersion) == lifted
        ensures var w1 := Deliver(w, uri, table, hasErrors, None);
                var w2 := Deliver(w1, uri, compile(content, uri).value.(version := lifted), false, Some(content));
                Settled(compile, uri, content, sourceVersion, Current(w2.tables, uri))
      {
        hide Settled;
        NotOvertakenSettles(compile, w, uri, content, table, hasErrors, sourceVersion, lifted);
      }
    } else {
      hide HarmlessBeforeRegistration;
      OvertakingHarms(sourceVersion.value, lifted, delivered);
    }
  }

  lemma NotOvertakenSettles(compile: Compiler, w: Worker, uri: Uri, content: string, table: Table, hasErrors: bool,
                            sourceVersion: Option<int>, lifted: int)
    requires compile(content, uri).Some? && Base(sourceVersion) <= lifted
    requires table.version <= lifted || sourceVersion.None?
    requires RegistrationVersion(TableOf(Current(w.tables, uri)), sourceVersion) == lifted
    ensures var w1 := Deliver(w, uri, table, hasErrors, None);
            var w2 := Deliver(w1, uri, compile(content, uri).value.(version := lifted), false, Some(content));
            Settled(compile, uri, content, sourceVersion, Current(w2.tables, uri))
  {
    hide Merge, Register;
    var w1 := Deliver(w, uri, table, hasErrors, None);
    var incoming := compile(content, uri).value.(version := lifted);
    RegisterVersion(TableOf(Current(w.tables, uri)), table, hasErrors);
    var stored := TableOf(Current(w1.tables, uri));
    if stored.None? || stored.value.version <= lifted {
      RegisteredIsMerged(stored, incoming);
      MergedAgain(Register(stored, incoming, false), incoming);
    } else {
      StaleAgain(stored.value, compile(content, uri).value);
    }
  }

  lemma MergedAgain(t: Table, incoming: Table)
    requires t.version == incoming.version && Merge(t, incoming) == t
    ensures Register(Some(t), incoming, false) == t
  {
  }

  lemma OvertakingHarms(source: int, lifted: int, delivered: int)
    requires source <= lifted < delivered
    ensures !HarmlessBeforeRegistration(Some(source), lifted, delivered)
  {
    hide Merge;
    var compile: Compiler := (content: string, uri: Uri) => Some(FULL_TABLE);
    var w := Worker(map["a" := Stored(0, PUBLIC_TABLE.(version := lifted), None)], [], 1);
    var table := PUBLIC_TABLE.(version := delivered);
    var w1 := Deliver(w, "a", table, false, None);
    var w2 := Deliver(w1, "a", FULL_TABLE.(version := lifted), false, Some("text"));
    assert w2 == w1 && Current(w1.tables, "a") == Some(Stored(1, table, None));
    MergeKeepsReferences(table, FULL_TABLE.(version := delivered));
    assert compile("text", "a").Some? && compile("text", "a").value.(version := lifted) == FULL_TABLE.(version := lifted);
    assert !Settled(compile, "a", "text", Some(source), Current(w2.tables, "a"));
  }

  // -- Between the registration and the filing -------------------------------------------

  /** A recompile has left the right table for its request current, at version `own`.  A table of version
      `delivered` comes before it files: for all contents, the table it leaves is still right. */
  ghost predicate HarmlessBeforeFiling(sourceVersion: Option<int>, own: int, delivered: int) {
    forall compile: Compiler, w: Worker, uri, content, table: Table, hasErrors ::
      Settled(compile, uri, content, sourceVersion, Current(w.tables, uri)) && w.tables[uri].table.version == own
      && table.version == delivered ==>
        Settled(compile, uri, content, sourceVersion, Current(Deliver(w, uri, table, hasErrors, None).tables, uri))
  }

  /** Exactly the tables below the recompile's own version are harmless there, and for a request without a
      version also those past version 1. */
  lemma HarmlessBeforeFilingExactly(sourceVersion: Option<int>, own: int, delivered: int)
    requires own >= Base(sourceVersion)
    ensures HarmlessBeforeFiling(sourceVersion, own, delivered) <==>
            delivered < own || (sourceVersion.None? && delivered > 1)
  {
    hide Merge;
    if delivered < own || (sourceVersion.None? && delivered > 1) {
      forall compile: Compiler, w: Worker, uri, content, table: Table, hasErrors
        | Settled(compile, uri, content, sourceVersion, Current(w.tables, uri)) && w.tables[uri].table.version == own
          && table.version == delivered
        ensures Settled(compile, uri, content, sourceVersion, Current(Deliver(w, uri, table, hasErrors, None).tables, uri))
      {
        hide Register;
        RegisterVersion(TableOf(Current(w.tables, uri)), table, hasErrors);
        if delivered >= own {
          StaleAgain(TableOf(Current(Deliver(w, uri, table, hasErrors, None).tables, uri)).value, compile(content, uri).value);
        }
      }
    } else {
      hide HarmlessBeforeFiling;
      NewerHarms(sourceVersion, own, delivered);
    }
  }

  lemma StaleAgain(t: Table, parsed: Table)
    requires t.version > 1
    ensures Recompiled(Some(t), parsed, None) == t
  {
  }

  lemma NewerHarms(sourceVersion: Option<int>, own: int, delivered: int)
    requires Base(sourceVersion) <= own <= delivered && !(sourceVersion.None? && delivered > 1)
    ensures !HarmlessBeforeFiling(sourceVersion, own, delivered)
  {
    hide Merge;
    var compile: Compiler := (content: string, uri: Uri) => Some(FULL_TABLE);
    var mine, table := FULL_TABLE.(version := own), PUBLIC_TABLE.(version := delivered);
    var w := Worker(map["a" := Stored(0, mine, Some("text"))], [], 1);
    MergeSelf(mine);
    assert Settled(compile, "a", "text", sourceVersion, Current(w.tables, "a"));
    var w1 := Deliver(w, "a", table, false, None);
    MergeKeepsReferences(mine, table);
    MergeVersion(mine, table);
    var left := Current(w1.tables, "a").value.table;
    assert left.version == delivered && left.references == [];
    MergeKeepsReferences(left, FULL_TABLE.(version := delivered));
    assert !Settled(compile, "a", "text", sourceVersion, Current(w1.tables, "a"));
  }

  // -- Runs with harmless deliveries -----------------------------------------------------

  /** The table a step delivers: its file, its version, and the text a recompile made it from. */
  datatype Delivered = Delivered(uri: Uri, version: int, text: Option<string>)

  function Delivery(compile: Compiler, s: System, step: Step): Option<Delivered> {
    match step
    case Receive(uri, table, _) => Some(Delivered(uri, table.version, None))
    case Continue(k) =>
      if k < |s.tasks| && s.tasks[k].stage.Lifted? && compile(Text(s.tasks[k].request), s.tasks[k].request.uri).Some?
      then Some(Delivered(s.tasks[k].request.uri, s.tasks[k].stage.version, Some(Text(s.tasks[k].request))))
      else None
    case _ => None
  }

  /** The delivery is harmless for a recompile that is at this stage over this table. */
  predicate HarmlessFor(t: Task, current: Option<Stored>, version: int, text: Option<string>) {
    match t.stage
    case Lifted(lifted) => t.request.sourceVersion.Some? ==> version <= lifted
    case Registered =>
      || (current.Some? && version < current.value.table.version)
      || text == Some(Text(t.request))
      || (t.request.sourceVersion.None? && version > 1)
    case _ => true
  }

  /** The step delivers nothing that harms another reusing recompile of the same file, and does not drop
      the table of one that is about to file. */
  ghost predicate Harmless(compile: Compiler, s: System, step: Step) {
    forall k :: 0 <= k < |s.tasks| && s.tasks[k].request.reuse && step != Continue(k) ==>
      var uri, d := s.tasks[k].request.uri, Delivery(compile, s, step);
      && (d.Some? && d.value.uri == uri ==>
            HarmlessFor(s.tasks[k], Current(s.w.tables, uri), d.value.version, d.value.text))
      && !(step == Forget(uri) && s.tasks[k].stage.Registered?)
  }

  ghost predicate HarmlessRun(compile: Compiler, steps: seq<Step>) {
    forall i :: 0 <= i < |steps| ==> Harmless(compile, Run(compile, steps[..i]), steps[i])
  }

  /** A reusing recompile has not been overtaken, and what it has registered is still right for it. */
  ghost predicate OnCourse(t: Task, current: Option<Stored>) {
    t.request.reuse ==>
      match t.stage
      case Lifted(version) =>
        && version >= Base(t.request.sourceVersion)
        && (t.request.sourceVersion.Some? ==> current.None? || current.value.table.version <= version)
        && (t.request.sourceVersion.None? ==> version == 1)
      case Registered => FilesRight(t.request, current)
      case _ => true
  }

  ghost predicate AllOnCourse(s: System) {
    forall k :: 0 <= k < |s.tasks| ==>
      OnCourse(s.tasks[k], Current(s.w.tables, s.tasks[k].request.uri)) && (s.tasks[k].stage.Registered? ==> s.tasks[k].request.reuse)
  }

  /** A harmless delivery keeps a recompile on course. */
  lemma DeliveryKeepsCourse(t: Task, w: Worker, table: Table, hasErrors: bool, text: Option<string>)
    requires OnCourse(t, Current(w.tables, t.request.uri))
    requires t.request.reuse ==> HarmlessFor(t, Current(w.tables, t.request.uri), table.version, text)
    ensures OnCourse(t, Current(Deliver(w, t.request.uri, table, hasErrors, text).tables, t.request.uri))
  {
    hide Register;
    RegisterVersion(TableOf(Current(w.tables, t.request.uri)), table, hasErrors);
  }

  lemma OtherFilesStay(w: Worker, uri: Uri, table: Table, hasErrors: bool, text: Option<string>, other: Uri)
    requires other != uri
    ensures Current(Deliver(w, uri, table, hasErrors, text).tables, other) == Current(w.tables, other)
  {
  }

  /** A recompile's own step keeps it on course. */
  lemma OwnStepKeepsCourse(compile: Compiler, w: Worker, t: Task)
    requires OnCourse(t, Current(w.tables, t.request.uri)) && (t.stage.Registered? ==> t.request.reuse)
    ensures var (w', stage) := Advance(compile, w, t);
            && OnCourse(t.(stage := stage), Current(w'.tables, t.request.uri))
            && (stage.Registered? ==> t.request.reuse)
  {
    hide Register, InHand, File;
    if t.stage.Lifted? && compile(Text(t.request), t.request.uri).Some? {
      var table := compile(Text(t.request), t.request.uri).value.(version := t.stage.version);
      RegisterVersion(TableOf(Current(w.tables, t.request.uri)), table, false);
    }
  }

  lemma AdvanceDelivers(compile: Compiler, w: Worker, t: Task)
    ensures var (w', _) := Advance(compile, w, t);
            w'.tables == if t.stage.Lifted? && compile(Text(t.request), t.request.uri).Some?
                         then Deliver(w, t.request.uri,
                                      compile(Text(t.request), t.request.uri).value.(version := t.stage.version), false,
                                      Some(Text(t.request))).tables
                         else w.tables
  {
    hide Deliver, InHand;
  }

  lemma OthersStayOnCourse(compile: Compiler, s: System, step: Step, k: nat)
    requires k < |s.tasks| && step != Continue(k) && Harmless(compile, s, step)
    requires OnCourse(s.tasks[k], Current(s.w.tables, s.tasks[k].request.uri))
    ensures OnCourse(s.tasks[k], Current(Apply(compile, s, step).w.tables, s.tasks[k].request.uri))
  {
    hide OnCourse, HarmlessFor, Advance, Deliver, Begin;
    var t := s.tasks[k];
    match step
    case Receive(uri, table, hasErrors) =>
      if uri == t.request.uri {
        DeliveryKeepsCourse(t, s.w, table, hasErrors, None);
      } else {
        OtherFilesStay(s.w, uri, table, hasErrors, None, t.request.uri);
      }
    case Continue(j) =>
      if j < |s.tasks| {
        var o := s.tasks[j];
        AdvanceDelivers(compile, s.w, o);
        if o.stage.Lifted? && compile(Text(o.request), o.request.uri).Some? {
          var table := compile(Text(o.request), o.request.uri).value.(version := o.stage.version);
          if o.request.uri == t.request.uri {
            DeliveryKeepsCourse(t, s.w, table, false, Some(Text(o.request)));
          } else {
            OtherFilesStay(s.w, o.request.uri, table, false, Some(Text(o.request)), t.request.uri);
          }
        }
      }
    case Forget(uri) => ForgettingKeepsCourse(t, s.w, uri);
    case Ask(_) =>
  }

  lemma ForgettingKeepsCourse(t: Task, w: Worker, uri: Uri)
    requires OnCourse(t, Current(w.tables, t.request.uri)) && !(uri == t.request.uri && t.request.reuse && t.stage.Registered?)
    ensures OnCourse(t, Current(w.tables - {uri}, t.request.uri))
  {
  }

  lemma StepStaysOnCourse(compile: Compiler, s: System, step: Step)
    requires AllOnCourse(s) && Harmless(compile, s, step)
    ensures AllOnCourse(Apply(compile, s, step))
  {
    hide OnCourse, Harmless, Deliver, Advance;
    var s' := Apply(compile, s, step);
    forall k | 0 <= k < |s'.tasks|
      ensures OnCourse(s'.tasks[k], Current(s'.w.tables, s'.tasks[k].request.uri))
      ensures s'.tasks[k].stage.Registered? ==> s'.tasks[k].request.reuse
    {
      if k == |s.tasks| {
        BeginsOnCourse(s.w, step.request);
      } else if step == Continue(k) {
        OwnStepKeepsCourse(compile, s.w, s.tasks[k]);
      } else {
        OthersStayOnCourse(compile, s, step, k);
      }
    }
  }

  lemma BeginsOnCourse(w: Worker, r: Request)
    ensures OnCourse(Task(r, Begin(w, r)), Current(w.tables, r.uri)) && !Begin(w, r).Registered?
  {
  }

  lemma {:induction false} HarmlessRunStaysOnCourse(compile: Compiler, steps: seq<Step>, n: nat)
    requires HarmlessRun(compile, steps) && n <= |steps|
    ensures AllOnCourse(Run(compile, steps[..n]))
  {
    hide Harmless, Apply, AllOnCourse;
    if n == 0 {
      NobodyIsOffCourse();
    } else {
      HarmlessRunStaysOnCourse(compile, steps, n - 1);
      assert steps[..n][..n - 1] == steps[..n - 1] && steps[..n][n - 1] == steps[n - 1];
      StepStaysOnCourse(compile, Run(compile, steps[..n - 1]), steps[n - 1]);
    }
  }

  lemma NobodyIsOffCourse()
    ensures AllOnCourse(System(EMPTY, []))
  {
  }

  /** Runs whose deliveries are harmless in both windows are undisturbed: every text is filed right, so
      that hits refine recompiling after them. */
  lemma {:induction false} HarmlessRunsAreUndisturbed(compile: Compiler, steps: seq<Step>)
    requires HarmlessRun(compile, steps)
    ensures Undisturbed(compile, steps)
  {
    hide HarmlessRun, AllOnCourse, Unmoved, Run;
    forall i | 0 <= i < |steps| ensures Unmoved(Run(compile, steps[..i]), steps[i]) {
      HarmlessRunStaysOnCourse(compile, steps, i);
      OnCourseFilesRight(Run(compile, steps[..i]), steps[i]);
    }
  }

  lemma OnCourseFilesRight(s: System, step: Step)
    requires AllOnCourse(s)
    ensures Unmoved(s, step)
  {
    if Files(s, step) {
      assert OnCourse(s.tasks[step.task], Current(s.w.tables, s.tasks[step.task].request.uri));
    }
  }
}
