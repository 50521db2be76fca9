/** Detail levels, symbol tables, and what registering a table for a file does to the graph. */
module SymbolGraph {
  import opened Prelude

  datatype Level = PublicApi | Protected | Private | Full

  /** `getLayerOrderIndex`; an absent level has order 0. */
  function Order(level: Option<Level>): nat {
    match level
    case None => 0
    case Some(PublicApi) => 1
    case Some(Protected) => 2
    case Some(Private) => 3
    case Some(Full) => 4
  }

  /** Public-api is poorest and full richest; no two levels count the same, and an absent one counts least. */
  lemma LevelsAreOrdered()
    ensures Order(None) < Order(Some(PublicApi)) < Order(Some(Protected)) < Order(Some(Private)) < Order(Some(Full))
  {
  }

  predicate ShouldEnrich(current: Option<Level>, required: Level) {
    Order(Some(required)) > Order(current)
  }

  datatype Symbol = Symbol(level: Option<Level>, declaration: string)

  /** `symbols` is keyed by unified symbol identifier. */
  datatype Table = Table(version: int, symbols: map<string, Symbol>, references: seq<string>, incomplete: bool)

  /** `SymbolTable.getDetailLevel`: the richest level of any symbol, `private` reading as `full`. */
  function DetailLevel(t: Table): Option<Level> {
    if exists k :: k in t.symbols && Order(t.symbols[k].level) >= 3 then Some(Full)
    else if exists k :: k in t.symbols && Order(t.symbols[k].level) == 2 then Some(Protected)
    else if exists k :: k in t.symbols && Order(t.symbols[k].level) == 1 then Some(PublicApi)
    else None
  }

  /** The merge mode of registration: the incoming table keeps its own symbols unless the stored
      one is richer, and gains the stored symbols it does not have. */
  function Merge(stored: Table, incoming: Table): Table {
    incoming.(symbols := map k | k in stored.symbols.Keys + incoming.symbols.Keys ::
                if k !in incoming.symbols then stored.symbols[k]
                else if k in stored.symbols && Order(stored.symbols[k].level) > Order(incoming.symbols[k].level)
                then stored.symbols[k]
                else incoming.symbols[k])
  }

  datatype Decision = RejectedStale | AcceptedReplace | AcceptedMerge | AcceptedFallbackMerge

  /** A parse that must not wipe out the symbols already stored. */
  predicate HardIncomplete(stored: Table, incoming: Table, hasErrors: bool) {
    stored.symbols != map[] && (incoming.incomplete || (hasErrors && incoming.symbols == map[]))
  }

  function Decide(stored: Option<Table>, incoming: Table, hasErrors: bool): Decision {
    match stored
    case None => AcceptedReplace
    case Some(s) =>
      if incoming.version < s.version then RejectedStale
      else if incoming.version == s.version then AcceptedMerge
      else if HardIncomplete(s, incoming, hasErrors) then AcceptedFallbackMerge
      else AcceptedReplace
  }

  /** `addSymbolTable`: the table stored for the file afterwards. */
  function Register(stored: Option<Table>, incoming: Table, hasErrors: bool): Table {
    match Decide(stored, incoming, hasErrors)
    case RejectedStale => stored.value
    case AcceptedReplace => incoming
    case AcceptedMerge => Merge(stored.value, incoming)
    case AcceptedFallbackMerge => Merge(stored.value, incoming)
  }

  function Max(a: int, b: int): int { if a < b then b else a }

  /** Registration never lowers a file's version: it ends at the larger of the two. */
  lemma RegisterVersion(stored: Option<Table>, incoming: Table, hasErrors: bool)
    ensures Register(stored, incoming, hasErrors).version
            == if stored.None? then incoming.version else Max(stored.value.version, incoming.version)
  {
  }

  /** The order a symbol's level counts for: `private` counts as `full`. */
  function Richness(s: Symbol): nat {
    if Order(s.level) >= 3 then 4 else Order(s.level)
  }

  lemma DetailLevelIsRichest(t: Table)
    ensures forall k :: k in t.symbols ==> Richness(t.symbols[k]) <= Order(DetailLevel(t))
    ensures DetailLevel(t).Some? ==> exists k :: k in t.symbols && Richness(t.symbols[k]) == Order(DetailLevel(t))
    ensures DetailLevel(t) != Some(Private)
  {
  }

  /** A merge reaches the richer of the two levels, and not more. */
  lemma MergeReachesRicherLevel(stored: Table, incoming: Table)
    ensures var merged := Merge(stored, incoming);
            Order(DetailLevel(merged)) == Max(Order(DetailLevel(stored)), Order(DetailLevel(incoming)))
  {
    hide DetailLevel;
    var merged := Merge(stored, incoming);
    DetailLevelIsRichest(stored);
    DetailLevelIsRichest(incoming);
    DetailLevelIsRichest(merged);
    forall k | k in stored.symbols ensures k in merged.symbols && Richness(stored.symbols[k]) <= Richness(merged.symbols[k]) {}
    forall k | k in incoming.symbols
      ensures k in merged.symbols && Richness(incoming.symbols[k]) <= Richness(merged.symbols[k]) {}
    if DetailLevel(merged).Some? {
      var k :| k in merged.symbols && Richness(merged.symbols[k]) == Order(DetailLevel(merged));
      assert (k in stored.symbols && merged.symbols[k] == stored.symbols[k])
             || (k in incoming.symbols && merged.symbols[k] == incoming.symbols[k]);
    }
  }

  /** Under one key: the symbol the incoming table has there, unless it lacks it or has it poorer. */
  ghost predicate KeepsTheRicher(stored: Table, incoming: Table, r: Table, key: string) {
    && (key in r.symbols <==> key in stored.symbols || key in incoming.symbols)
    && (key in r.symbols ==>
          var richerIsStored := key in stored.symbols
            && (key in incoming.symbols ==> Order(stored.symbols[key].level) > Order(incoming.symbols[key].level));
          r.symbols[key] == if richerIsStored then stored.symbols[key] else incoming.symbols[key])
  }

  /** `r` has every symbol of both tables, each at the richer of its two levels, and is otherwise `incoming`. */
  ghost predicate HoldsBoth(stored: Table, incoming: Table, r: Table) {
    && (forall key :: KeepsTheRicher(stored, incoming, r, key))
    && r.version == incoming.version && r.references == incoming.references && r.incomplete == incoming.incomplete
  }

  lemma MergeHoldsBoth(stored: Table, incoming: Table)
    ensures HoldsBoth(stored, incoming, Merge(stored, incoming))
  {
    hide Order;
  }

  lemma HoldingBothIsUnique(stored: Table, incoming: Table, r: Table)
    requires HoldsBoth(stored, incoming, r)
    ensures r == Merge(stored, incoming)
  {
    var merged := Merge(stored, incoming);
    MergeHoldsBoth(stored, incoming);
    hide Merge, Order;
    forall key ensures key in r.symbols <==> key in merged.symbols
               ensures key in r.symbols ==> r.symbols[key] == merged.symbols[key]
    {
      assert KeepsTheRicher(stored, incoming, r, key) && KeepsTheRicher(stored, incoming, merged, key);
    }
    assert r.symbols == merged.symbols;
  }

  /** A newer version that must not wipe out what is stored: it did not parse to the end, or has errors and
      no symbols at all. */
  predicate Suspect(incoming: Table, hasErrors: bool) {
    incoming.incomplete || (hasErrors && |incoming.symbols| == 0)
  }

  /** Registration by version, symbols and flags: an older table changes nothing; one of the same version,
      and a suspect newer one, loses no symbol of either; any other takes the place of the stored one. */
  lemma RegisterByVersion(stored: Table, incoming: Table, hasErrors: bool)
    ensures var r := Register(Some(stored), incoming, hasErrors);
            if incoming.version < stored.version then r == stored
            else if incoming.version == stored.version || Suspect(incoming, hasErrors)
              then HoldsBoth(stored, incoming, r)
            else r == incoming
    ensures Register(None, incoming, hasErrors) == incoming
  {
    hide Merge, HoldsBoth;
    MergeHoldsBoth(stored, incoming);
    if stored.symbols == map[] {
      AllOfNothing(stored, incoming);
    }
  }

  lemma AllOfNothing(stored: Table, incoming: Table)
    requires stored.symbols == map[]
    ensures HoldsBoth(stored, incoming, incoming)
  {
  }

  /** A stored symbol is gone exactly when a newer table that is not suspect does not have it. */
  lemma SymbolIsLostExactly(stored: Table, incoming: Table, hasErrors: bool, key: string)
    requires key in stored.symbols
    ensures key !in Register(Some(stored), incoming, hasErrors).symbols
            <==> incoming.version > stored.version && !Suspect(incoming, hasErrors) && key !in incoming.symbols
  {
    hide Register;
    RegisterByVersion(stored, incoming, hasErrors);
    var r := Register(Some(stored), incoming, hasErrors);
    if HoldsBoth(stored, incoming, r) {
      assert KeepsTheRicher(stored, incoming, r, key);
    }
  }

  /** Merging the same table in again changes nothing. */
  lemma MergeIsIdempotent(stored: Table, incoming: Table)
    ensures Merge(Merge(stored, incoming), incoming) == Merge(stored, incoming)
  {
    var merged := Merge(stored, incoming);
    assert merged.symbols.Keys + incoming.symbols.Keys == merged.symbols.Keys;
    assert Merge(merged, incoming).symbols == merged.symbols;
  }

  /** Unless it is rejected as stale, a table lifts the stored one at least to its own level. */
  lemma RegisterReachesLevel(stored: Option<Table>, incoming: Table, hasErrors: bool)
    ensures Decide(stored, incoming, hasErrors) != RejectedStale ==>
              Order(DetailLevel(Register(stored, incoming, hasErrors))) >= Order(DetailLevel(incoming))
  {
    if stored.Some? {
      MergeReachesRicherLevel(stored.value, incoming);
    }
  }
}
