/** When a recompile succeeds, and what it leaves behind. */
module CursorAnswers {
  import opened Prelude
  import opened SymbolGraph
  import opened CursorCache

  /** The version to register at: what the caller passes, or the stored version if that is larger; 1 for a
      caller who passes none. */
  ghost predicate RegistersAt(stored: Option<Table>, sourceVersion: Option<int>, version: int) {
    match sourceVersion
    case None => version == 1
    case Some(asked) =>
      && version >= asked
      && (stored.Some? ==> version >= stored.value.version)
      && (version == asked || (stored.Some? && version == stored.value.version))
  }

  /** The file's table is the one registered for this compile, as a new object unless it was stale. */
  ghost predicate Registers(w: Worker, w': Worker, r: Request, parsed: Table) {
    var stored := TableOf(Current(w.tables, r.uri));
    exists version :: RegistersAt(stored, r.sourceVersion, version) &&
      var incoming := parsed.(version := version);
      if stored.Some? && version < stored.value.version then w'.tables == w.tables
      else w'.tables == w.tables[r.uri := Stored(w.nextId, Register(stored, incoming, false), Some(Text(r)))]
  }

  /** The request's text is filed last, with the table current after the call; older entries keep their order. */
  ghost predicate FilesLast(w: Worker, w': Worker, r: Request) {
    && w'.entries != []
    && w'.entries[|w'.entries| - 1]
       == Entry(r.uri, Text(r), if r.sourceVersion.Some? then r.sourceVersion.value else -1, Current(w'.tables, r.uri))
    && forall e :: e in w'.entries[..|w'.entries| - 1] ==> e in w.entries && e.uri != r.uri
  }

  /** A recompile answers true exactly when there is content, and the lookup hits, or the text compiles and
      resolution does not throw. */
  lemma SucceedsExactly(compile: Compiler, w: Worker, r: Request, resolution: Resolution)
    ensures Recompile(compile, w, r, resolution).1
            <==> r.content.Some? && (|| (r.reuse && Hit(w, r.uri, r.content.value, r.sourceVersion))
                                     || (compile(r.content.value, r.uri).Some? && !resolution.Throws?))
  {
    hide Hit, Install, File;
  }

  /** Without content, on a hit, and when the text does not compile, tables and entries stay; otherwise the
      file's table is the registered one, and a reusing call files its text with it. */
  lemma LeavesRegisteredTable(compile: Compiler, w: Worker, r: Request, resolution: Resolution)
    ensures var w' := Recompile(compile, w, r, resolution).0;
            if r.content.None? || (r.reuse && Hit(w, r.uri, Text(r), r.sourceVersion)) || compile(Text(r), r.uri).None?
            then w' == w
            else Registers(w, w', r, compile(Text(r), r.uri).value)
                 && if r.reuse then FilesLast(w, w', r) else w'.entries == w.entries
  {
    hide Hit, File, Install, FilesLast, Registers;
    if r.content.Some? && compile(Text(r), r.uri).Some? {
      var parsed := compile(Text(r), r.uri).value;
      InstallRegisters(w, r, parsed);
      var w1 := Install(w, r.uri, Text(r), parsed, r.sourceVersion);
      FilingIsLast(w, w1, r);
      FilingKeepsTables(w, w1, r, parsed);
    }
  }

  lemma InstallRegisters(w: Worker, r: Request, parsed: Table)
    ensures var w1 := Install(w, r.uri, Text(r), parsed, r.sourceVersion);
            Registers(w, w1, r, parsed) && w1.entries == w.entries
  {
    hide Register;
    var stored := TableOf(Current(w.tables, r.uri));
    var version := RegistrationVersion(stored, r.sourceVersion);
    assert RegistersAt(stored, r.sourceVersion, version);
    var incoming := parsed.(version := version);
    assert Decide(stored, incoming, false) == RejectedStale <==> stored.Some? && version < stored.value.version;
  }

  lemma FilingKeepsTables(w: Worker, w1: Worker, r: Request, parsed: Table)
    requires Registers(w, w1, r, parsed)
    ensures Registers(w, File(w1, r), r, parsed)
  {
    hide Remember, Register, RegistersAt;
  }

  lemma FilingIsLast(w: Worker, w1: Worker, r: Request)
    requires w1.entries == w.entries
    ensures FilesLast(w, File(w1, r), r)
  {
    hide Current;
    WithoutIsPart(w.entries, r.uri);
    var kept := File(w1, r).entries;
    assert forall e :: e in kept[..|kept| - 1] ==> e in Without(w.entries, r.uri);
  }

  lemma {:induction false} FindsTheLast(entries: seq<Entry>, e: Entry)
    requires forall x :: x in entries ==> x.uri != e.uri
    ensures Find(entries + [e], e.uri) == Some(e)
  {
    if entries == [] {
      assert entries + [e] == [e];
    } else {
      assert (entries + [e])[0] == entries[0] && (entries + [e])[1..] == entries[1..] + [e];
      FindsTheLast(entries[1..], e);
    }
  }

  /** A text compiled with reuse is found again: asking the same once more hits, and changes nothing. */
  lemma SecondRecompileHits(compile: Compiler, w: Worker, r: Request, first: Resolution, second: Resolution)
    requires r.reuse && r.content.Some? && compile(r.content.value, r.uri).Some?
    ensures var w' := Recompile(compile, w, r, first).0;
            Recompile(compile, w', r, second) == (w', true)
  {
    hide Install, File, Registers, Find, Remember;
    LeavesRegisteredTable(compile, w, r, first);
    var w' := Recompile(compile, w, r, first).0;
    if !Hit(w, r.uri, Text(r), r.sourceVersion) {
      var n := |w'.entries| - 1;
      FindsTheLast(w'.entries[..n], w'.entries[n]);
      assert w'.entries[..n] + [w'.entries[n]] == w'.entries;
    }
  }

  // -- Over runs -------------------------------------------------------------------------

  predicate DifferentFiles(entries: seq<Entry>) {
    forall i, j :: 0 <= i < j < |entries| ==> entries[i].uri != entries[j].uri
  }

  lemma EntriesAreOfDifferentFiles(compile: Compiler, steps: seq<Step>)
    ensures DifferentFiles(Run(compile, steps).w.entries)
  {
    hide Run, Compiled, LastUse, Kept;
    CacheHoldsMostRecent(compile, steps);
  }

  lemma {:induction false} FindsTheOnly(entries: seq<Entry>, e: Entry)
    requires DifferentFiles(entries) && e in entries
    ensures Find(entries, e.uri) == Some(e)
  {
    if entries[0] != e {
      FindsTheOnly(entries[1..], e);
    }
  }

  /** In every run, a lookup hits exactly when the cache holds an entry of the file for this very text and
      version whose table is still the file's current one. */
  lemma HitsExactly(compile: Compiler, steps: seq<Step>, uri: Uri, content: string, sourceVersion: Option<int>)
    ensures var w := Run(compile, steps).w;
            var version := if sourceVersion.Some? then sourceVersion.value else -1;
            Hit(w, uri, content, sourceVersion)
            <==> Entry(uri, content, version, if uri in w.tables then Some(w.tables[uri]) else None) in w.entries
  {
    hide Run, Find;
    var w := Run(compile, steps).w;
    EntriesAreOfDifferentFiles(compile, steps);
    FoundIsEntry(w.entries, uri);
    if e :| e in w.entries && e.uri == uri {
      FindsTheOnly(w.entries, e);
    }
  }

  /** What a recompile under way may yet answer. */
  predicate AnswerFits(compile: Compiler, t: Task) {
    var compiles := t.request.content.Some? && compile(Text(t.request), t.request.uri).Some?;
    match t.stage
    case Over(true) => compiles || (t.request.content.Some? && t.request.reuse)
    case Over(false) => !compiles
    case Registered => compiles
    case Looked(_) => t.request.content.Some? && t.request.reuse
    case _ => t.request.content.Some?
  }

  lemma StepAnswers(compile: Compiler, s: System, step: Step)
    requires forall k :: 0 <= k < |s.tasks| ==> AnswerFits(compile, s.tasks[k])
    ensures var s' := Apply(compile, s, step);
            forall k :: 0 <= k < |s'.tasks| ==> AnswerFits(compile, s'.tasks[k])
  {
    hide InHand, Deliver, File, Find, AnswerFits;
    match step
    case Ask(r) => assert AnswerFits(compile, Task(r, Begin(s.w, r))) by { BeginFits(compile, s.w, r); }
    case Continue(k) =>
      if k < |s.tasks| {
        AdvanceFits(compile, s.w, s.tasks[k]);
      }
    case _ =>
  }

  lemma BeginFits(compile: Compiler, w: Worker, r: Request)
    ensures AnswerFits(compile, Task(r, Begin(w, r)))
  {
  }

  lemma AdvanceFits(compile: Compiler, w: Worker, t: Task)
    requires AnswerFits(compile, t)
    ensures AnswerFits(compile, t.(stage := Advance(compile, w, t).1))
  {
    hide InHand, Deliver, File, Find;
  }

  /** In every run, with any number of recompiles at once: one that fails had no content or a text that does
      not compile, and one that succeeds had a text that compiles or reused an entry. */
  lemma {:induction false} AnswersFit(compile: Compiler, steps: seq<Step>, k: nat)
    requires k < |Run(compile, steps).tasks|
    ensures AnswerFits(compile, Run(compile, steps).tasks[k])
  {
    if steps != [] {
      var front := steps[..|steps| - 1];
      forall j | 0 <= j < |Run(compile, front).tasks| ensures AnswerFits(compile, Run(compile, front).tasks[j]) {
        AnswersFit(compile, front, j);
      }
      hide Apply, AnswerFits;
      StepAnswers(compile, Run(compile, front), steps[|steps| - 1]);
    }
  }
}
