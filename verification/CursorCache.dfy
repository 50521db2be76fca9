/** The full-detail cursor cache of a pool worker: a bounded map, in insertion order, from a file to
    the text last compiled for it and the table that was current afterwards. */
module CursorCache {
  import opened Prelude
  import opened SymbolGraph

  type Uri = string

  const MAX_ENTRIES := 32

  /** A registered table; `id` is its identity as an object, and `text` the text it was compiled from when
      a recompile registered it last. */
  datatype Stored = Stored(id: nat, table: Table, text: Option<string>)

  datatype Entry = Entry(uri: Uri, content: string, sourceVersion: int, stored: Option<Stored>)

  /** The deterministic compiler: the table of a text, or a failure. */
  type Compiler = (string, Uri) -> Option<Table>

  datatype Worker = Worker(tables: map<Uri, Stored>, entries: seq<Entry>, nextId: nat)

  function Current(tables: map<Uri, Stored>, uri: Uri): Option<Stored> {
    if uri in tables then Some(tables[uri]) else None
  }

  function TableOf(s: Option<Stored>): Option<Table> {
    if s.Some? then Some(s.value.table) else None
  }

  /** The version a recompile registers at: a versioned one is lifted to the stored version, an
      unversioned one registers at a new table's default, 1. */
  function RegistrationVersion(stored: Option<Table>, sourceVersion: Option<int>): int {
    match sourceVersion
    case None => 1
    case Some(v) => if stored.Some? && stored.value.version > v then stored.value.version else v
  }

  /** The file's table after compiling `parsed` for it again. */
  function Recompiled(stored: Option<Table>, parsed: Table, sourceVersion: Option<int>): Table {
    Register(stored, parsed.(version := RegistrationVersion(stored, sourceVersion)), false)
  }

  function CacheKey(sourceVersion: Option<int>): int {
    if sourceVersion.Some? then sourceVersion.value else -1
  }

  // -- The bounded, insertion-ordered map ------------------------------------------------

  function Find(entries: seq<Entry>, uri: Uri): Option<Entry> {
    if entries == [] then None
    else if entries[0].uri == uri then Some(entries[0])
    else Find(entries[1..], uri)
  }

  function Without(entries: seq<Entry>, uri: Uri): seq<Entry> {
    if entries == [] then []
    else (if entries[0].uri == uri then [] else [entries[0]]) + Without(entries[1..], uri)
  }

  /** Keep the newest `n`. */
  function Newest<T>(s: seq<T>, n: nat): seq<T> {
    if |s| <= n then s else s[|s| - n..]
  }

  function Remember(entries: seq<Entry>, e: Entry): seq<Entry> {
    Newest(Without(entries, e.uri) + [e], MAX_ENTRIES)
  }

  /** The entry answers for this text and version while its table is still the current one. */
  predicate Answers(e: Entry, content: string, sourceVersion: Option<int>, current: Option<Stored>) {
    e.content == content && e.sourceVersion == CacheKey(sourceVersion) && e.stored == current
  }

  /** A lookup of the cache succeeds. */
  predicate Hit(w: Worker, uri: Uri, content: string, sourceVersion: Option<int>) {
    var found := Find(w.entries, uri);
    found.Some? && Answers(found.value, content, sourceVersion, Current(w.tables, uri))
  }

  /** A table delivered for a file is registered as a new object, unless it is rejected as stale: then the
      current one stays. */
  function Deliver(w: Worker, uri: Uri, table: Table, hasErrors: bool, text: Option<string>): Worker {
    var stored := TableOf(Current(w.tables, uri));
    if Decide(stored, table, hasErrors) == RejectedStale then w
    else w.(tables := w.tables[uri := Stored(w.nextId, Register(stored, table, hasErrors), text)], nextId := w.nextId + 1)
  }

  /** Deliver the table just compiled of a text. */
  function Install(w: Worker, uri: Uri, content: string, parsed: Table, sourceVersion: Option<int>): Worker {
    var version := RegistrationVersion(TableOf(Current(w.tables, uri)), sourceVersion);
    Deliver(w, uri, parsed.(version := version), false, Some(content))
  }

  /** Whether cross-file references are resolved at the end, and whether that throws. */
  datatype Resolution = NotAsked | Resolves | Throws

  /** `recompileCursorFileAtFullDetail`, when nothing else happens between its awaits. */
  function Recompile(compile: Compiler, w: Worker, r: Request, resolution: Resolution): (Worker, bool) {
    if r.content.None? then (w, false)
    else if r.reuse && Hit(w, r.uri, r.content.value, r.sourceVersion) then (w, true)
    else
      var parsed := compile(r.content.value, r.uri);
      if parsed.None? then (w, false)
      else
        var w1 := Install(w, r.uri, r.content.value, parsed.value, r.sourceVersion);
        (if r.reuse then File(w1, r) else w1, resolution != Throws)
  }

  /** File the request's text with the table that is current now. */
  function File(w: Worker, r: Request): Worker {
    w.(entries := Remember(w.entries, Entry(r.uri, Text(r), CacheKey(r.sourceVersion), Current(w.tables, r.uri))))
  }

  datatype Request = Request(uri: Uri, content: Option<string>, sourceVersion: Option<int>, reuse: bool)

  function Text(r: Request): string { if r.content.Some? then r.content.value else "" }

  // -- Any number of recompiles at once --------------------------------------------------

  /** Where a recompile is between its awaits: it has fetched its cached entry, but not the current table;
      its lookup missed; its registration version is fixed; its table has been registered; or it is over, with
      what it answers unless resolving cross-file references throws. */
  datatype Stage =
    | Looked(cached: Option<Entry>)
    | Missed
    | Lifted(version: int)
    | Registered
    | Over(ok: bool)

  datatype Task = Task(request: Request, stage: Stage)

  datatype System = System(w: Worker, tasks: seq<Task>)

  datatype Step =
    | Ask(request: Request)
    | Continue(task: nat)
    | Receive(uri: Uri, table: Table, hasErrors: bool) // a table from elsewhere
    | Forget(uri: Uri)

  function Begin(w: Worker, r: Request): Stage {
    if r.content.None? then Over(false) else if r.reuse then Looked(Find(w.entries, r.uri)) else Missed
  }

  /** The task has fetched an entry that answers for its request now. */
  predicate InHand(w: Worker, t: Task) {
    && t.stage.Looked? && t.stage.cached.Some?
    && Answers(t.stage.cached.value, Text(t.request), t.request.sourceVersion, Current(w.tables, t.request.uri))
  }

  /** What a recompile does up to its next await. */
  function Advance(compile: Compiler, w: Worker, t: Task): (Worker, Stage) {
    var r := t.request;
    match t.stage
    case Looked(_) => (w, if InHand(w, t) then Over(true) else Missed)
    case Missed => (w, Lifted(RegistrationVersion(TableOf(Current(w.tables, r.uri)), r.sourceVersion)))
    case Lifted(version) =>
      var parsed := compile(Text(r), r.uri);
      if parsed.None? then (w, Over(false))
      else
        (Deliver(w, r.uri, parsed.value.(version := version), false, Some(Text(r))), if r.reuse then Registered else Over(true))
    case Registered => (File(w, r), Over(true))
    case Over(_) => (w, t.stage)
  }

  function Apply(compile: Compiler, s: System, step: Step): System {
    match step
    case Ask(r) => s.(tasks := s.tasks + [Task(r, Begin(s.w, r))])
    case Continue(k) =>
      if k < |s.tasks| then
        var (w, stage) := Advance(compile, s.w, s.tasks[k]);
        System(w, s.tasks[k := s.tasks[k].(stage := stage)])
      else s
    case Receive(uri, table, hasErrors) => s.(w := Deliver(s.w, uri, table, hasErrors, None))
    case Forget(uri) => s.(w := s.w.(tables := s.w.tables - {uri}))
  }

  const EMPTY := Worker(map[], [], 0)

  function Run(compile: Compiler, steps: seq<Step>): System {
    if steps == [] then System(EMPTY, []) else Apply(compile, Run(compile, steps[..|steps| - 1]), steps[|steps| - 1])
  }

  /** The recompile of task `k` up to its end, at most four steps. */
  function Finish(compile: Compiler, s: System, k: nat): System {
    var turn := (s: System) => Apply(compile, s, Continue(k));
    turn(turn(turn(turn(s))))
  }

  /** A recompile that nothing comes between is one call of `Recompile`. */
  lemma UninterruptedIsRecompile(compile: Compiler, s: System, r: Request)
    ensures var done := Finish(compile, Apply(compile, s, Ask(r)), |s.tasks|);
            var (w, ok) := Recompile(compile, s.w, r, NotAsked);
            done == System(w, s.tasks + [Task(r, Over(ok))])
  {
    hide Find, Answers, File, Deliver;
    var k := |s.tasks|;
    var s1 := Apply(compile, s, Ask(r));
    var s2 := Apply(compile, s1, Continue(k));
    var s3 := Apply(compile, s2, Continue(k));
    var s4 := Apply(compile, s3, Continue(k));
    var s5 := Apply(compile, s4, Continue(k));
    assert s5.tasks == s.tasks + [Task(r, s5.tasks[k].stage)];
  }

  // -- A versioned recompile is never stale ----------------------------------------------

  /** A recompile is rejected as stale exactly when it carries no version and the stored table is
      past version 1. */
  lemma OnlyUnversionedRecompilesAreStale(stored: Option<Table>, parsed: Table, sourceVersion: Option<int>)
    ensures Decide(stored, parsed.(version := RegistrationVersion(stored, sourceVersion)), false) == RejectedStale
            <==> sourceVersion.None? && stored.Some? && stored.value.version > 1
  {
  }

  /** With other registrations between its lift and its own, a versioned recompile is rejected as stale
      exactly when one of them has overtaken the version it was lifted to. */
  lemma StaleExactlyWhenOvertaken(seen: Option<Table>, stored: Option<Table>, parsed: Table, sourceVersion: Option<int>)
    requires sourceVersion.Some?
    ensures Decide(stored, parsed.(version := RegistrationVersion(seen, sourceVersion)), false) == RejectedStale
            <==> stored.Some? && stored.value.version > sourceVersion.value
                 && (seen.Some? ==> stored.value.version > seen.value.version)
  {
  }

  // -- A hit refines recompiling ---------------------------------------------------------

  /** Compiling `content` once more would leave the table as it is. */
  ghost predicate Settled(compile: Compiler, uri: Uri, content: string, sourceVersion: Option<int>, stored: Option<Stored>) {
    && compile(content, uri).Some?
    && stored.Some?
    && Recompiled(Some(stored.value.table), compile(content, uri).value, sourceVersion) == stored.value.table
  }

  lemma RecompilingSettles(stored: Option<Table>, parsed: Table, sourceVersion: Option<int>)
    ensures var t := Recompiled(stored, parsed, sourceVersion);
            Recompiled(Some(t), parsed, sourceVersion) == t
  {
    hide Merge;
    var first := parsed.(version := RegistrationVersion(stored, sourceVersion));
    MergeIsIdempotent(first, first);
    if stored.Some? {
      MergeIsIdempotent(stored.value, first);
    }
    MergeSelf(first);
    MergeVersion(if stored.Some? then stored.value else first, first);
  }

  lemma MergeSelf(t: Table)
    ensures Merge(t, t) == t
  {
    assert Merge(t, t).symbols == t.symbols;
  }

  lemma MergeVersion(stored: Table, incoming: Table)
    ensures Merge(stored, incoming).version == incoming.version
  {
  }

  /** Every reusing recompile of the run is asked for at one of these versions, or without one. */
  ghost predicate AsksWithin(steps: seq<Step>, versions: iset<Option<int>>) {
    forall i :: 0 <= i < |steps| ==> steps[i].Ask? && steps[i].request.reuse ==> steps[i].request.sourceVersion in versions
  }

  /** No two of these versions make the same key. */
  ghost predicate KeysDiffer(versions: iset<Option<int>>) {
    !(None in versions && Some(-1) in versions)
  }

  /** The version a key stands for. */
  ghost function VersionOf(key: int, versions: iset<Option<int>>): Option<int> {
    if key == -1 && None in versions then None else Some(key)
  }

  /** The version a recompile asks for at least. */
  function Base(sourceVersion: Option<int>): int { if sourceVersion.Some? then sourceVersion.value else 1 }

  /** The table the request's text would be filed with now is the right one: a recompile of this very text
      registered it last, at a version the request covers; or the request carries no version, and the table
      is past every unversioned recompile. */
  predicate FilesRight(r: Request, stored: Option<Stored>) {
    && stored.Some?
    && (|| (stored.value.text == Some(Text(r)) && stored.value.table.version >= Base(r.sourceVersion))
        || (r.sourceVersion.None? && stored.value.table.version > 1))
  }

  /** What is filed, if anything, is filed right. */
  predicate Unmoved(s: System, step: Step) {
    Files(s, step) ==> var r := s.tasks[step.task].request; FilesRight(r, Current(s.w.tables, r.uri))
  }

  /** Whenever a recompile files its text, the file's table is the right one for it. */
  ghost predicate Undisturbed(compile: Compiler, steps: seq<Step>) {
    forall i :: 0 <= i < |steps| ==> Unmoved(Run(compile, steps[..i]), steps[i])
  }

  predicate Files(s: System, step: Step) {
    step.Continue? && step.task < |s.tasks| && s.tasks[step.task].stage.Registered?
  }

  /** A table that a recompile registered is one that merging the same compiled table in leaves as it is. */
  ghost predicate TextOk(compile: Compiler, uri: Uri, stored: Stored) {
    stored.text.Some? ==>
      var parsed := compile(stored.text.value, uri);
      parsed.Some? && Merge(stored.table, parsed.value.(version := stored.table.version)) == stored.table
  }

  ghost predicate TablesOk(compile: Compiler, w: Worker) {
    forall uri :: uri in w.tables ==> TextOk(compile, uri, w.tables[uri])
  }

  /** Every remembered table is one that recompiling the remembered text leaves as it is. */
  ghost predicate EntryOk(compile: Compiler, e: Entry, versions: iset<Option<int>>) {
    Settled(compile, e.uri, e.content, VersionOf(e.sourceVersion, versions), e.stored)
  }

  ghost predicate EntriesOk(compile: Compiler, entries: seq<Entry>, versions: iset<Option<int>>) {
    forall i :: 0 <= i < |entries| ==> EntryOk(compile, entries[i], versions)
  }

  ghost predicate TaskOk(compile: Compiler, t: Task, versions: iset<Option<int>>) {
    && (!t.stage.Over? ==> t.request.content.Some? && (t.request.reuse ==> t.request.sourceVersion in versions))
    && (t.stage.Registered? ==> t.request.reuse && compile(Text(t.request), t.request.uri).Some?)
    && (t.stage.Looked? ==>
          t.request.reuse && (t.stage.cached.Some? ==>
                                EntryOk(compile, t.stage.cached.value, versions) && t.stage.cached.value.uri == t.request.uri))
  }

  ghost predicate TasksOk(compile: Compiler, s: System, versions: iset<Option<int>>) {
    forall k :: 0 <= k < |s.tasks| ==> TaskOk(compile, s.tasks[k], versions)
  }

  ghost predicate AllOk(compile: Compiler, s: System, versions: iset<Option<int>>) {
    EntriesOk(compile, s.w.entries, versions) && TasksOk(compile, s, versions) && TablesOk(compile, s.w)
  }

  lemma {:induction false} WithoutIsPart(entries: seq<Entry>, uri: Uri)
    ensures forall e :: e in Without(entries, uri) <==> e in entries && e.uri != uri
  {
    if entries != [] {
      WithoutIsPart(entries[1..], uri);
      assert entries == [entries[0]] + entries[1..];
    }
  }

  lemma RememberIsPart(entries: seq<Entry>, e: Entry)
    ensures forall x :: x in Remember(entries, e) ==> x == e || x in entries
  {
    WithoutIsPart(entries, e.uri);
  }

  lemma InstallSettles(compile: Compiler, w: Worker, uri: Uri, content: string, sourceVersion: Option<int>)
    requires compile(content, uri).Some?
    ensures var w1 := Install(w, uri, content, compile(content, uri).value, sourceVersion);
            && w1.entries == w.entries
            && Settled(compile, uri, content, sourceVersion, Current(w1.tables, uri))
            && TableOf(Current(w1.tables, uri))
               == Some(Recompiled(TableOf(Current(w.tables, uri)), compile(content, uri).value, sourceVersion))
  {
    hide Merge;
    RecompilingSettles(TableOf(Current(w.tables, uri)), compile(content, uri).value, sourceVersion);
  }

  /** Registering a compiled table again at its own version changes nothing. */
  lemma RegisteredIsMerged(stored: Option<Table>, incoming: Table)
    requires Decide(stored, incoming, false) != RejectedStale
    ensures var t := Register(stored, incoming, false);
            t.version == incoming.version && Merge(t, incoming) == t
  {
    hide Merge;
    MergeSelf(incoming);
    if stored.Some? {
      MergeIsIdempotent(stored.value, incoming);
      MergeVersion(stored.value, incoming);
    }
  }

  lemma DeliverKeepsTables(compile: Compiler, w: Worker, uri: Uri, table: Table, hasErrors: bool, text: Option<string>)
    requires TablesOk(compile, w)
    requires text.Some? ==> compile(text.value, uri).Some? && !hasErrors
                            && table == compile(text.value, uri).value.(version := table.version)
    ensures TablesOk(compile, Deliver(w, uri, table, hasErrors, text))
    ensures Deliver(w, uri, table, hasErrors, text).entries == w.entries
  {
    hide Merge, Register;
    if text.Some? && Decide(TableOf(Current(w.tables, uri)), table, false) != RejectedStale {
      RegisteredIsMerged(TableOf(Current(w.tables, uri)), table);
    }
  }

  /** A text filed right is filed with a table that recompiling it leaves as it is. */
  lemma FiledRightIsSettled(compile: Compiler, r: Request, stored: Option<Stored>)
    requires FilesRight(r, stored) && TextOk(compile, r.uri, stored.value) && compile(Text(r), r.uri).Some?
    ensures Settled(compile, r.uri, Text(r), r.sourceVersion, stored)
  {
    hide Merge;
  }

  lemma FilingKeepsOk(compile: Compiler, w: Worker, r: Request, versions: iset<Option<int>>)
    requires EntriesOk(compile, w.entries, versions) && KeysDiffer(versions) && r.sourceVersion in versions
    requires Settled(compile, r.uri, Text(r), r.sourceVersion, Current(w.tables, r.uri))
    ensures EntriesOk(compile, File(w, r).entries, versions) && File(w, r).tables == w.tables
  {
    hide Settled, Remember;
    var entry := Entry(r.uri, Text(r), CacheKey(r.sourceVersion), Current(w.tables, r.uri));
    RememberIsPart(w.entries, entry);
    assert VersionOf(CacheKey(r.sourceVersion), versions) == r.sourceVersion;
    var kept := Remember(w.entries, entry);
    forall i | 0 <= i < |kept| ensures EntryOk(compile, kept[i], versions) {
      assert kept[i] in kept;
    }
  }

  lemma AdvanceKeepsOk(compile: Compiler, w: Worker, t: Task, versions: iset<Option<int>>)
    requires EntriesOk(compile, w.entries, versions) && TablesOk(compile, w) && TaskOk(compile, t, versions)
    requires KeysDiffer(versions)
    requires t.stage.Registered? ==> FilesRight(t.request, Current(w.tables, t.request.uri))
    ensures var (w', stage) := Advance(compile, w, t);
            && EntriesOk(compile, w'.entries, versions) && TablesOk(compile, w')
            && TaskOk(compile, t.(stage := stage), versions)
  {
    hide Settled, EntriesOk, EntryOk, File, Register, Deliver, FilesRight, TextOk;
    var r := t.request;
    match t.stage
    case Lifted(version) =>
      if compile(Text(r), r.uri).Some? {
        DeliverKeepsTables(compile, w, r.uri, compile(Text(r), r.uri).value.(version := version), false, Some(Text(r)));
      }
    case Registered =>
      SomethingIsFiled(r, Current(w.tables, r.uri));
      FiledRightIsSettled(compile, r, Current(w.tables, r.uri));
      FilingKeepsOk(compile, w, r, versions);
    case _ =>
  }

  lemma SomethingIsFiled(r: Request, stored: Option<Stored>)
    requires FilesRight(r, stored)
    ensures stored.Some?
  {
  }

  lemma BeginIsOk(compile: Compiler, w: Worker, r: Request, versions: iset<Option<int>>)
    requires EntriesOk(compile, w.entries, versions) && (r.reuse ==> r.sourceVersion in versions)
    ensures TaskOk(compile, Task(r, Begin(w, r)), versions)
  {
    hide EntryOk;
    FoundIsEntry(w.entries, r.uri);
  }

  lemma StepKeepsOk(compile: Compiler, s: System, step: Step, versions: iset<Option<int>>)
    requires AllOk(compile, s, versions) && KeysDiffer(versions) && Unmoved(s, step)
    requires step.Ask? && step.request.reuse ==> step.request.sourceVersion in versions
    ensures AllOk(compile, Apply(compile, s, step), versions)
  {
    hide EntriesOk, TaskOk, Advance, Begin, Deliver, TextOk, FilesRight;
    match step
    case Ask(r) => BeginIsOk(compile, s.w, r, versions);
    case Continue(k) =>
      if k < |s.tasks| {
        AdvanceKeepsOk(compile, s.w, s.tasks[k], versions);
      }
    case Receive(uri, table, hasErrors) => DeliverKeepsTables(compile, s.w, uri, table, hasErrors, None);
    case Forget(uri) =>
  }

  lemma {:induction false} RunIsOk(compile: Compiler, steps: seq<Step>, versions: iset<Option<int>>)
    requires AsksWithin(steps, versions) && KeysDiffer(versions) && Undisturbed(compile, steps)
    ensures AllOk(compile, Run(compile, steps), versions)
  {
    if steps != [] {
      var n := |steps| - 1;
      hide Unmoved;
      assert Unmoved(Run(compile, steps[..n]), steps[n]);
      assert forall i :: 0 <= i < n ==> steps[..n][..i] == steps[..i];
      RunIsOk(compile, steps[..n], versions);
      hide Apply, AllOk;
      StepKeepsOk(compile, Run(compile, steps[..n]), steps[n], versions);
    }
  }

  lemma {:induction false} FoundIsEntry(entries: seq<Entry>, uri: Uri)
    ensures Find(entries, uri).Some? ==> Find(entries, uri).value in entries && Find(entries, uri).value.uri == uri
  {
    if entries != [] && entries[0].uri != uri {
      FoundIsEntry(entries[1..], uri);
    }
  }

  /** Recompiling and registering anyway would leave the file's table as it is. */
  ghost predicate RecompilingChangesNothing(compile: Compiler, w: Worker, uri: Uri, content: string,
                                            sourceVersion: Option<int>)
  {
    var r := Request(uri, Some(content), sourceVersion, false);
    TableOf(Current(Recompile(compile, w, r, NotAsked).0.tables, uri)) == TableOf(Current(w.tables, uri))
  }

  ghost predicate ReuseIsUnobservable(compile: Compiler, w: Worker, uri: Uri, content: string,
                                      sourceVersion: Option<int>)
  {
    && Recompile(compile, w, Request(uri, Some(content), sourceVersion, true), NotAsked) == (w, true)
    && RecompilingChangesNothing(compile, w, uri, content, sourceVersion)
  }

  lemma SettledChangesNothing(compile: Compiler, w: Worker, uri: Uri, content: string, sourceVersion: Option<int>)
    requires Settled(compile, uri, content, sourceVersion, Current(w.tables, uri))
    ensures RecompilingChangesNothing(compile, w, uri, content, sourceVersion)
  {
    hide Merge, Install, Hit;
    InstallSettles(compile, w, uri, content, sourceVersion);
  }

  /** After any undisturbed run, with any number of recompiles at once, reusing the cache on a hit is not
      observable, as long as the versions that reusing callers pass make different keys. */
  lemma HitRefinesRecompiling(compile: Compiler, steps: seq<Step>, uri: Uri, content: string, sourceVersion: Option<int>,
                              versions: iset<Option<int>>)
    requires AsksWithin(steps, versions) && KeysDiffer(versions) && sourceVersion in versions
    requires Undisturbed(compile, steps)
    requires Hit(Run(compile, steps).w, uri, content, sourceVersion)
    ensures ReuseIsUnobservable(compile, Run(compile, steps).w, uri, content, sourceVersion)
  {
    hide Run, Settled, RecompilingChangesNothing;
    var w := Run(compile, steps).w;
    RunIsOk(compile, steps, versions);
    FoundIsEntry(w.entries, uri);
    var e := Find(w.entries, uri).value;
    var i :| 0 <= i < |w.entries| && w.entries[i] == e;
    assert EntryOk(compile, e, versions);
    SettledChangesNothing(compile, w, uri, content, sourceVersion);
  }

  /** The same goes for a recompile that fetched its entry earlier and answers from it now, even if the
      cache has dropped or replaced the entry since. */
  lemma LookupRefinesRecompiling(compile: Compiler, steps: seq<Step>, k: nat, versions: iset<Option<int>>)
    requires AsksWithin(steps, versions) && KeysDiffer(versions) && Undisturbed(compile, steps)
    requires k < |Run(compile, steps).tasks| && InHand(Run(compile, steps).w, Run(compile, steps).tasks[k])
    ensures var s := Run(compile, steps);
            var r := s.tasks[k].request;
            RecompilingChangesNothing(compile, s.w, r.uri, Text(r), r.sourceVersion)
  {
    hide Run, Settled, RecompilingChangesNothing;
    var s := Run(compile, steps);
    RunIsOk(compile, steps, versions);
    var t := s.tasks[k];
    assert TaskOk(compile, t, versions);
    SettledChangesNothing(compile, s.w, t.request.uri, Text(t.request), t.request.sourceVersion);
  }

  /** Hits always refine recompiling when no reusing call omits its version, whatever the calls that do
      not reuse the cache pass. */
  lemma VersionedReuseRefines(compile: Compiler, steps: seq<Step>, uri: Uri, content: string, version: int)
    requires forall i :: 0 <= i < |steps| && steps[i].Ask? && steps[i].request.reuse ==> steps[i].request.sourceVersion.Some?
    requires Undisturbed(compile, steps)
    requires Hit(Run(compile, steps).w, uri, content, Some(version))
    ensures ReuseIsUnobservable(compile, Run(compile, steps).w, uri, content, Some(version))
  {
    hide Run, Undisturbed, Hit, ReuseIsUnobservable;
    HitRefinesRecompiling(compile, steps, uri, content, Some(version), iset v: Option<int> | v.Some?);
  }

  ghost predicate HitsRefine(versions: iset<Option<int>>) {
    forall compile, steps, uri, content, sourceVersion ::
      AsksWithin(steps, versions) && Undisturbed(compile, steps) && sourceVersion in versions
      && Hit(Run(compile, steps).w, uri, content, sourceVersion) ==>
        ReuseIsUnobservable(compile, Run(compile, steps).w, uri, content, sourceVersion)
  }

  /** For every compiler and every undisturbed run whose reusing calls are over some versions, hits refine
      recompiling exactly when those calls do not both omit the version and pass -1, which is the key of
      an omitted version. */
  lemma HitsRefineExactlyWhenKeysDiffer(versions: iset<Option<int>>)
    ensures HitsRefine(versions) <==> KeysDiffer(versions)
  {
    hide Run, Hit, ReuseIsUnobservable, Undisturbed;
    if KeysDiffer(versions) {
      forall compile, steps, uri, content, sourceVersion
        | AsksWithin(steps, versions) && Undisturbed(compile, steps) && sourceVersion in versions
          && Hit(Run(compile, steps).w, uri, content, sourceVersion)
        ensures ReuseIsUnobservable(compile, Run(compile, steps).w, uri, content, sourceVersion)
      {
        HitRefinesRecompiling(compile, steps, uri, content, sourceVersion, versions);
      }
    } else {
      MinusOneIsMistakenForNoVersion(versions);
    }
  }

  lemma RunMore(compile: Compiler, steps: seq<Step>, step: Step)
    ensures Run(compile, steps + [step]) == Apply(compile, Run(compile, steps), step)
    ensures Undisturbed(compile, steps) && Unmoved(Run(compile, steps), step) ==> Undisturbed(compile, steps + [step])
  {
    var more := steps + [step];
    assert more[..|steps|] == steps;
    forall i | 0 <= i < |more| && Undisturbed(compile, steps) && Unmoved(Run(compile, steps), step)
      ensures Unmoved(Run(compile, more[..i]), more[i])
    {
      if i < |steps| {
        assert more[..i] == steps[..i];
      }
    }
  }

  const PUBLIC_TABLE := Table(7, map["A" := Symbol(Some(PublicApi), "class A")], [], false)
  const FULL_TABLE := Table(1, map["A" := Symbol(Some(Full), "class A")], ["A.x"], false)

  /** An entry made without a version, whose table was rejected as stale, answers for the version -1,
      although a recompile at -1 would have been merged. */
  lemma MinusOneIsMistakenForNoVersion(versions: iset<Option<int>>)
    requires None in versions && Some(-1) in versions
    ensures exists compile, steps, uri, content ::
              && AsksWithin(steps, versions) && Undisturbed(compile, steps)
              && Hit(Run(compile, steps).w, uri, content, Some(-1))
              && !ReuseIsUnobservable(compile, Run(compile, steps).w, uri, content, Some(-1))
  {
    hide Run, Undisturbed, Hit, ReuseIsUnobservable, AsksWithin;
    var compile: Compiler := (content: string, uri: Uri) => Some(FULL_TABLE);
    var steps := UnversionedRun(compile, versions);
  }

  lemma UnversionedRun(compile: Compiler, versions: iset<Option<int>>) returns (steps: seq<Step>)
    requires compile("text", "a") == Some(FULL_TABLE) && None in versions
    ensures AsksWithin(steps, versions) && Undisturbed(compile, steps)
    ensures Hit(Run(compile, steps).w, "a", "text", Some(-1))
    ensures !ReuseIsUnobservable(compile, Run(compile, steps).w, "a", "text", Some(-1))
  {
    hide Run, Undisturbed, Hit, ReuseIsUnobservable, File, Install, FilesRight;
    var r, held := Request("a", Some("text"), None, true), Stored(0, PUBLIC_TABLE, None);
    var w0 := Worker(map["a" := held], [], 1);
    steps := [Receive("a", PUBLIC_TABLE, false), Ask(r)];
    AskOverPublicTable(compile, r);
    FilesOverPublicTable(w0, r);
    FilesAfterFourTurns(compile, steps, w0, r, Install(w0, "a", "text", FULL_TABLE, None));
    steps := steps + [Continue(0)] + [Continue(0)] + [Continue(0)] + [Continue(0)];
    var w := Run(compile, steps).w;
    MergingIsObservable(compile, w, "text", -1);
    HitsItsEntry(w, "text", -1);
  }

  lemma AskOverPublicTable(compile: Compiler, r: Request)
    requires r == Request("a", Some("text"), None, true)
    ensures var steps := [Receive("a", PUBLIC_TABLE, false), Ask(r)];
            && Run(compile, steps)
               == System(Worker(map["a" := Stored(0, PUBLIC_TABLE, None)], [], 1), [Task(r, Looked(None))])
            && Undisturbed(compile, steps)
  {
    var received := Receive("a", PUBLIC_TABLE, false);
    assert Undisturbed(compile, []);
    RunMore(compile, [], received);
    RunMore(compile, [] + [received], Ask(r));
    assert [] + [received] + [Ask(r)] == [received, Ask(r)];
  }

  /** The full table without a version is stale there, and the public one is filed. */
  lemma FilesOverPublicTable(w: Worker, r: Request)
    requires r == Request("a", Some("text"), None, true)
    requires w == Worker(map["a" := Stored(0, PUBLIC_TABLE, None)], [], 1)
    ensures var w1 := Install(w, "a", "text", FULL_TABLE, None);
            && FilesRight(r, Current(w1.tables, "a"))
            && File(w1, r) == w.(entries := [Entry("a", "text", -1, Some(Stored(0, PUBLIC_TABLE, None)))])
  {
  }

  lemma HitsItsEntry(w: Worker, content: string, version: int)
    requires "a" in w.tables && w.entries == [Entry("a", content, version, Some(w.tables["a"]))]
    ensures Hit(w, "a", content, Some(version))
  {
  }

  /** Over the public table, a full recompile at an older version would be merged. */
  lemma MergingIsObservable(compile: Compiler, w: Worker, content: string, version: int)
    requires "a" in w.tables && w.tables["a"].table == PUBLIC_TABLE && version <= 7
    requires compile(content, "a") == Some(FULL_TABLE)
    ensures !ReuseIsUnobservable(compile, w, "a", content, Some(version))
  {
    hide Merge, Hit;
    var r := Request("a", Some(content), Some(version), false);
    var stored := Register(Some(PUBLIC_TABLE), FULL_TABLE.(version := 7), false);
    MergeKeepsReferences(PUBLIC_TABLE, FULL_TABLE.(version := 7));
    assert TableOf(Current(Recompile(compile, w, r, NotAsked).0.tables, "a")) == Some(stored);
  }

  lemma MergeKeepsReferences(stored: Table, incoming: Table)
    ensures Merge(stored, incoming).references == incoming.references
  {
  }

  /** One recompile, alone, that finds nothing cached. */
  lemma FilesAfterFourTurns(compile: Compiler, steps: seq<Step>, w: Worker, r: Request, w1: Worker)
    requires Run(compile, steps) == System(w, [Task(r, Looked(None))]) && Undisturbed(compile, steps) && r.reuse
    requires compile(Text(r), r.uri).Some?
    requires w1 == Install(w, r.uri, Text(r), compile(Text(r), r.uri).value, r.sourceVersion)
    ensures var after := steps + [Continue(0)] + [Continue(0)] + [Continue(0)];
            && Run(compile, after) == System(w1, [Task(r, Registered)])
            && Undisturbed(compile, after)
            && Run(compile, after + [Continue(0)]) == System(File(w1, r), [Task(r, Over(true))])
            && (FilesRight(r, Current(w1.tables, r.uri)) ==> Undisturbed(compile, after + [Continue(0)]))
  {
    hide Run, Undisturbed, Deliver, File, FilesRight;
    var one := steps + [Continue(0)];
    RunMore(compile, steps, Continue(0));
    RunMore(compile, one, Continue(0));
    RunMore(compile, one + [Continue(0)], Continue(0));
    RunMore(compile, one + [Continue(0)] + [Continue(0)], Continue(0));
  }

  /** Without that, a text can be filed with another text's table: a newer table registered after the
      recompile's own and before it files makes the next lookup a hit that recompiling would not match. */
  lemma DisturbedRunMisfiles()
    ensures exists compile, steps, uri, content, version ::
              && AsksWithin(steps, iset v: Option<int> | v.Some?)
              && Hit(Run(compile, steps).w, uri, content, Some(version))
              && !ReuseIsUnobservable(compile, Run(compile, steps).w, uri, content, Some(version))
  {
    hide Run, Hit, ReuseIsUnobservable, AsksWithin;
    var compile: Compiler := (content: string, uri: Uri) => Some(FULL_TABLE);
    var steps := DisturbedRun(compile);
  }

  lemma DisturbedRun(compile: Compiler) returns (steps: seq<Step>)
    requires compile("text", "a") == Some(FULL_TABLE)
    ensures AsksWithin(steps, iset v: Option<int> | v.Some?)
    ensures Hit(Run(compile, steps).w, "a", "text", Some(1))
    ensures !ReuseIsUnobservable(compile, Run(compile, steps).w, "a", "text", Some(1))
  {
    hide Run, Undisturbed, Hit, ReuseIsUnobservable, File, Install, Deliver, FilesRight;
    var r, newer := Request("a", Some("text"), Some(1), true), Receive("a", PUBLIC_TABLE, false);
    AskAtFirst(compile, r);
    FilesAfterFourTurns(compile, [Ask(r)], EMPTY, r, Install(EMPTY, "a", "text", FULL_TABLE, Some(1)));
    steps := [Ask(r)] + [Continue(0)] + [Continue(0)] + [Continue(0)];
    RunMore(compile, steps, newer);
    RunMore(compile, steps + [newer], Continue(0));
    NewerTableIsFiled(r);
    steps := steps + [newer] + [Continue(0)];
    var w := Run(compile, steps).w;
    MergingIsObservable(compile, w, "text", 1);
    HitsItsEntry(w, "text", 1);
  }

  lemma AskAtFirst(compile: Compiler, r: Request)
    requires r == Request("a", Some("text"), Some(1), true)
    ensures Run(compile, [Ask(r)]) == System(EMPTY, [Task(r, Looked(None))]) && Undisturbed(compile, [Ask(r)])
  {
    RunMore(compile, [], Ask(r));
    assert [] + [Ask(r)] == [Ask(r)];
  }

  lemma NewerTableIsFiled(r: Request)
    requires r == Request("a", Some("text"), Some(1), true)
    ensures var w := Deliver(Install(EMPTY, "a", "text", FULL_TABLE, Some(1)), "a", PUBLIC_TABLE, false, None);
            var held := Stored(1, PUBLIC_TABLE, None);
            w.tables == map["a" := held] && File(w, r) == w.(entries := [Entry("a", "text", 1, Some(held))])
  {
  }

  // -- Which entries are kept ------------------------------------------------------------

  /** The files compiled with reuse on, in the order they were filed: neither hits nor failures. */
  function Compiled(compile: Compiler, steps: seq<Step>): seq<Uri> {
    if steps == [] then []
    else
      var front, step := steps[..|steps| - 1], steps[|steps| - 1];
      Compiled(compile, front)
      + if Files(Run(compile, front), step) then [Run(compile, front).tasks[step.task].request.uri] else []
  }

  /** Where `uri` was last compiled, or -1. */
  function LastUse(history: seq<Uri>, uri: Uri): int {
    if history == [] then -1
    else if history[|history| - 1] == uri then |history| - 1
    else LastUse(history[..|history| - 1], uri)
  }

  /** `kept` is the most recently compiled distinct files, oldest first: in order of last use, and a
      file is missing only when the cache is full of files used later. */
  ghost predicate MostRecent(kept: seq<Entry>, history: seq<Uri>) {
    && |kept| <= MAX_ENTRIES
    && (forall i :: 0 <= i < |kept| ==> LastUse(history, kept[i].uri) >= 0)
    && (forall i, j :: 0 <= i < j < |kept| ==> LastUse(history, kept[i].uri) < LastUse(history, kept[j].uri))
    && (forall k :: 0 <= k < |history| ==> Kept(kept, history, history[k]))
  }

  ghost predicate Kept(kept: seq<Entry>, history: seq<Uri>, uri: Uri) {
    || (exists i :: 0 <= i < |kept| && kept[i].uri == uri)
    || (|kept| == MAX_ENTRIES && LastUse(history, uri) < LastUse(history, kept[0].uri))
  }

  /** What `LastUse` means. */
  lemma {:induction false} LastUseIsLast(history: seq<Uri>, uri: Uri)
    ensures var i := LastUse(history, uri);
            && -1 <= i < |history|
            && (i >= 0 ==> history[i] == uri)
            && (forall j :: i < j < |history| ==> history[j] != uri)
  {
    if history != [] && history[|history| - 1] != uri {
      LastUseIsLast(history[..|history| - 1], uri);
    }
  }

  lemma LastUseMore(history: seq<Uri>, u: Uri, v: Uri)
    ensures LastUse(history + [u], v) == if v == u then |history| else LastUse(history, v)
  {
    assert (history + [u])[..|history|] == history;
  }

  lemma {:induction false} WithoutAbsent(entries: seq<Entry>, uri: Uri)
    requires forall i :: 0 <= i < |entries| ==> entries[i].uri != uri
    ensures Without(entries, uri) == entries
  {
    if entries != [] {
      WithoutAbsent(entries[1..], uri);
    }
  }

  lemma {:induction false} WithoutPresent(entries: seq<Entry>, k: nat)
    requires k < |entries|
    requires forall i :: 0 <= i < |entries| && i != k ==> entries[i].uri != entries[k].uri
    ensures Without(entries, entries[k].uri) == entries[..k] + entries[k + 1..]
  {
    if k == 0 {
      WithoutAbsent(entries[1..], entries[0].uri);
    } else {
      assert entries[1..][k - 1] == entries[k];
      WithoutPresent(entries[1..], k - 1);
      assert entries[..k] == [entries[0]] + entries[1..][..k - 1];
      assert entries[k + 1..] == entries[1..][k..];
    }
  }

  lemma RememberKeepsMostRecent(entries: seq<Entry>, history: seq<Uri>, e: Entry)
    requires MostRecent(entries, history)
    ensures MostRecent(Remember(entries, e), history + [e.uri])
  {
    var others := Without(entries, e.uri);
    var at := if exists i :: 0 <= i < |entries| && entries[i].uri == e.uri
              then (var i :| 0 <= i < |entries| && entries[i].uri == e.uri; i) else |entries|;
    if at < |entries| {
      WithoutPresent(entries, at);
      MoveToEnd(entries, history, e, at);
    } else {
      WithoutAbsent(entries, e.uri);
      AddAtEnd(entries, history, e);
    }
  }

  /** The uses recorded by one more compile of `u`: `u` is now the last used of all. */
  ghost predicate UsedAgain(history: seq<Uri>, h: seq<Uri>, u: Uri) {
    && h == history + [u]
    && (forall v :: LastUse(h, v) == if v == u then |history| else LastUse(history, v))
    && (forall v :: LastUse(history, v) < |history|)
  }

  lemma UseAgain(history: seq<Uri>, u: Uri)
    ensures UsedAgain(history, history + [u], u)
  {
    forall v ensures LastUse(history + [u], v) == if v == u then |history| else LastUse(history, v) {
      LastUseMore(history, u, v);
    }
    forall v ensures LastUse(history, v) < |history| {
      LastUseIsLast(history, v);
    }
  }

  lemma MoveToEnd(entries: seq<Entry>, history: seq<Uri>, e: Entry, at: nat)
    requires MostRecent(entries, history) && at < |entries| && entries[at].uri == e.uri
    ensures MostRecent(entries[..at] + entries[at + 1..] + [e], history + [e.uri])
  {
    hide LastUse, Kept;
    var kept, h := entries[..at] + entries[at + 1..] + [e], history + [e.uri];
    UseAgain(history, e.uri);
    assert forall i :: 0 <= i < |kept| - 1 ==> kept[i] == entries[if i < at then i else i + 1];
    forall k | 0 <= k < |h| ensures Kept(kept, h, h[k]) {
      if h[k] == e.uri {
        KeptHere(kept, h, |kept| - 1);
      } else {
        assert Kept(entries, history, history[k]);
        StillKept(entries, kept, history, h, h[k], e.uri, at);
      }
    }
  }

  lemma KeptHere(kept: seq<Entry>, history: seq<Uri>, i: nat)
    requires i < |kept|
    ensures Kept(kept, history, kept[i].uri)
  {
  }

  lemma StillKept(entries: seq<Entry>, kept: seq<Entry>, history: seq<Uri>, h: seq<Uri>, v: Uri, u: Uri, at: nat)
    requires MostRecent(entries, history) && UsedAgain(history, h, u) && Kept(entries, history, v) && v != u
    requires at < |entries| && entries[at].uri == u && |kept| == |entries| && kept[|kept| - 1].uri == u
    requires kept[..|kept| - 1] == entries[..at] + entries[at + 1..]
    ensures Kept(kept, h, v)
  {
    hide LastUse;
    if i :| 0 <= i < |entries| && entries[i].uri == v {
      assert kept[..|kept| - 1][if i < at then i else i - 1].uri == v;
      assert kept[if i < at then i else i - 1].uri == v;
    } else if |kept| > 1 {
      assert kept[0] == kept[..|kept| - 1][0] == entries[if at == 0 then 1 else 0];
    }
  }

  lemma AddAtEnd(entries: seq<Entry>, history: seq<Uri>, e: Entry)
    requires MostRecent(entries, history) && forall i :: 0 <= i < |entries| ==> entries[i].uri != e.uri
    ensures MostRecent(Newest(entries + [e], MAX_ENTRIES), history + [e.uri])
  {
    hide LastUse, Kept;
    var kept, h := Newest(entries + [e], MAX_ENTRIES), history + [e.uri];
    var cut := |entries| + 1 - |kept|;
    UseAgain(history, e.uri);
    assert forall i :: 0 <= i < |kept| - 1 ==> kept[i] == entries[i + cut];
    forall k | 0 <= k < |h| ensures Kept(kept, h, h[k]) {
      if h[k] == e.uri {
        KeptHere(kept, h, |kept| - 1);
      } else {
        assert Kept(entries, history, history[k]);
        KeptOrOlder(entries, kept, history, h, h[k], e.uri);
      }
    }
  }

  lemma UsedEarlier(entries: seq<Entry>, history: seq<Uri>, i: nat, j: nat)
    requires MostRecent(entries, history) && i < j < |entries|
    ensures LastUse(history, entries[i].uri) < LastUse(history, entries[j].uri)
  {
    hide LastUse, Kept;
  }

  lemma StillEarlier(history: seq<Uri>, h: seq<Uri>, u: Uri, v: Uri, w: Uri)
    requires UsedAgain(history, h, u) && v != u && LastUse(history, v) < LastUse(history, w)
    ensures LastUse(h, v) < LastUse(h, w)
  {
    hide LastUse;
    assert LastUse(h, v) == LastUse(history, v) < |history|;
    assert LastUse(h, w) == if w == u then |history| else LastUse(history, w);
  }

  lemma KeptOrOlder(entries: seq<Entry>, kept: seq<Entry>, history: seq<Uri>, h: seq<Uri>, v: Uri, u: Uri)
    requires MostRecent(entries, history) && UsedAgain(history, h, u) && Kept(entries, history, v) && v != u
    requires 0 < |kept| <= MAX_ENTRIES && kept[|kept| - 1].uri == u
    requires |kept| == if |entries| == MAX_ENTRIES then MAX_ENTRIES else |entries| + 1
    requires kept[..|kept| - 1] == entries[|entries| + 1 - |kept|..]
    ensures Kept(kept, h, v)
  {
    hide LastUse, MostRecent, UsedAgain;
    var cut := |entries| + 1 - |kept|;
    if i :| 0 <= i < |entries| && entries[i].uri == v {
      if i >= cut {
        assert kept[i - cut] == kept[..|kept| - 1][i - cut] == entries[i];
      } else {
        UsedEarlier(entries, history, 0, 1);
        assert kept[0] == kept[..|kept| - 1][0] == entries[1];
        StillEarlier(history, h, u, v, entries[1].uri);
      }
    } else {
      UsedEarlier(entries, history, 0, 1);
      assert kept[0] == kept[..|kept| - 1][0] == entries[1];
      StillEarlier(history, h, u, v, entries[1].uri);
    }
  }

  /** Over every run, with any number of recompiles at once, the cache holds exactly the most recently
      compiled distinct files, at most 32, oldest first. */
  lemma {:induction false} CacheHoldsMostRecent(compile: Compiler, steps: seq<Step>)
    ensures MostRecent(Run(compile, steps).w.entries, Compiled(compile, steps))
  {
    if steps != [] {
      var front, step := steps[..|steps| - 1], steps[|steps| - 1];
      CacheHoldsMostRecent(compile, front);
      var s, history := Run(compile, front), Compiled(compile, front);
      hide MostRecent, Remember, Run, Compiled, Apply;
      EntriesStep(compile, s, step);
      if Files(s, step) {
        var r := s.tasks[step.task].request;
        RememberKeepsMostRecent(s.w.entries, history,
                                Entry(r.uri, Text(r), CacheKey(r.sourceVersion), Current(s.w.tables, r.uri)));
      }
      RunAndCompiledMore(compile, steps);
    }
  }

  lemma RunAndCompiledMore(compile: Compiler, steps: seq<Step>)
    requires steps != []
    ensures var front, step := steps[..|steps| - 1], steps[|steps| - 1];
            && Run(compile, steps) == Apply(compile, Run(compile, front), step)
            && Compiled(compile, steps)
               == if Files(Run(compile, front), step)
                  then Compiled(compile, front) + [Run(compile, front).tasks[step.task].request.uri]
                  else Compiled(compile, front)
  {
  }

  /** Only filing changes the entries. */
  lemma EntriesStep(compile: Compiler, s: System, step: Step)
    ensures Apply(compile, s, step).w.entries
            == if Files(s, step) then File(s.w, s.tasks[step.task].request).entries else s.w.entries
  {
    hide Hit, Register, Decide, Remember;
  }

  // -- The worker itself -----------------------------------------------------------------

  class CursorWorker {
    const compile: Compiler
    var tables: map<Uri, Stored>
    var entries: seq<Entry>     // a map in insertion order
    var nextId: nat

    ghost function State(): Worker
      reads this
    {
      Worker(tables, entries, nextId)
    }

    constructor (compile: Compiler)
      ensures State() == EMPTY && this.compile == compile
    {
      this.compile := compile;
      tables, entries, nextId := map[], [], 0;
    }

    method AddSymbolTable(uri: Uri, table: Table, hasErrors: bool, text: Option<string>)
      modifies this`tables, this`nextId
      ensures State() == Deliver(old(State()), uri, table, hasErrors, text)
    {
      var stored := TableOf(Current(tables, uri));
      if Decide(stored, table, hasErrors) != RejectedStale {
        tables := tables[uri := Stored(nextId, Register(stored, table, hasErrors), text)];
        nextId := nextId + 1;
      }
    }

    /** Move the file to the end of the map, then drop the oldest entries beyond the bound. */
    method RememberEntry(e: Entry)
      modifies this`entries
      ensures entries == Remember(old(entries), e)
    {
      entries := Without(entries, e.uri);
      entries := entries + [e];
      ghost var all := entries;
      while |entries| > MAX_ENTRIES
        invariant |entries| >= MAX_ENTRIES || entries == all
        invariant |entries| <= |all| && entries == all[|all| - |entries|..]
      {
        entries := entries[1..];
      }
    }

    /** The version to register at, from the table seen now. */
    method LiftVersion(uri: Uri, sourceVersion: Option<int>) returns (version: int)
      ensures version == RegistrationVersion(TableOf(Current(tables, uri)), sourceVersion)
    {
      var effective := sourceVersion;
      if effective.Some? && uri in tables && tables[uri].table.version > effective.value {
        effective := Some(tables[uri].table.version);
      }
      version := if effective.Some? then effective.value else 1;
    }

    method RecompileCursorFile(r: Request, resolution: Resolution) returns (ok: bool)
      modifies this
      ensures (State(), ok) == Recompile(compile, old(State()), r, resolution)
    {
      hide Remember, Find, Register, Decide;
      if r.content.None? {
        return false;
      }
      if r.reuse {
        var cached := Find(entries, r.uri);
        if cached.Some? && cached.value.content == r.content.value
           && cached.value.sourceVersion == CacheKey(r.sourceVersion)
           && cached.value.stored == Current(tables, r.uri)
        {
          return true;
        }
      }
      var version := LiftVersion(r.uri, r.sourceVersion);
      var parsed := compile(r.content.value, r.uri);
      if parsed.None? {
        return false;
      }
      AddSymbolTable(r.uri, parsed.value.(version := version), false, r.content);
      if r.reuse {
        RememberEntry(Entry(r.uri, r.content.value, CacheKey(r.sourceVersion), Current(tables, r.uri)));
      }
      return resolution != Throws;
    }
  }
}
