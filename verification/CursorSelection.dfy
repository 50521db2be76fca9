/** Choosing the parser reference whose own token contains the cursor. */
module CursorSelection {
  import opened Prelude

  datatype Position = Position(line: int, character: int)

  datatype Range = Range(startLine: int, startColumn: int, endLine: int, endColumn: int)

  datatype MemberAccess = MemberAccess(operatorRange: Range, memberRange: Option<Range>)

  /** `range` is absent for references without a location. */
  datatype Reference = Reference(
    name: string,
    context: int,
    resolvedSymbolId: Option<string>,
    resolvedTypeId: Option<string>,
    range: Option<Range>,
    memberAccess: Option<MemberAccess>)

  const LINE_WEIGHT := 1_000_000

  /** `positionInParserRange` */
  predicate InParserRange(p: Position, r: Option<Range>) {
    && r.Some?
    && (p.line > r.value.startLine || (p.line == r.value.startLine && p.character >= r.value.startColumn))
    && (p.line < r.value.endLine || (p.line == r.value.endLine && p.character <= r.value.endColumn))
  }

  /** `positionInRange` */
  predicate InRange(p: Position, r: Option<Range>) {
    if r.None? then false
    else if p.line < r.value.startLine || p.line > r.value.endLine then false
    else if p.line == r.value.startLine && p.character < r.value.startColumn then false
    else !(p.line == r.value.endLine && p.character > r.value.endColumn)
  }

  function Size(r: Range): int {
    (r.endLine - r.startLine) * LINE_WEIGHT + r.endColumn - r.startColumn
  }

  /** The two range tests decide the same: not before the start and not past the end, both included. */
  lemma RangeTestsAgree(p: Position, r: Option<Range>)
    ensures InRange(p, r) <==> InParserRange(p, r)
    ensures InRange(p, r) <==> r.Some?
                               && Before(r.value.startLine, r.value.startColumn, p.line, p.character)
                               && Before(p.line, p.character, r.value.endLine, r.value.endColumn)
  {
  }

  // -- Nesting and size ------------------------------------------------------------------

  predicate Before(line: int, column: int, line': int, column': int) {
    line < line' || (line == line' && column <= column')
  }

  /** `inner` lies within `outer` and is not all of it. */
  predicate StrictlyWithin(inner: Range, outer: Range) {
    && inner != outer
    && Before(outer.startLine, outer.startColumn, inner.startLine, inner.startColumn)
    && Before(inner.endLine, inner.endColumn, outer.endLine, outer.endColumn)
  }

  predicate ColumnsBelow(r: Range, bound: int) {
    0 <= r.startColumn < bound && 0 <= r.endColumn < bound
  }

  predicate ColumnsFit(r: Range) { ColumnsBelow(r, LINE_WEIGHT) }

  /** While columns stay below the line weight, a strictly nested range is strictly smaller. */
  lemma NestedIsSmaller(inner: Range, outer: Range)
    requires StrictlyWithin(inner, outer) && ColumnsFit(inner) && ColumnsFit(outer)
    ensures Size(inner) < Size(outer)
  {
  }

  /** A strictly nested range is strictly smaller, for all ranges with columns below `bound`. */
  ghost predicate NestingShrinks(bound: int) {
    forall inner, outer | StrictlyWithin(inner, outer) && ColumnsBelow(inner, bound) && ColumnsBelow(outer, bound) ::
      Size(inner) < Size(outer)
  }

  /** That is so exactly for bounds up to the line weight: one column at the weight breaks it. */
  lemma NestingShrinksExactlyUpToTheWeight(bound: int)
    ensures NestingShrinks(bound) <==> bound <= 1_000_000
  {
    if bound <= LINE_WEIGHT {
      forall inner, outer | StrictlyWithin(inner, outer) && ColumnsBelow(inner, bound) && ColumnsBelow(outer, bound)
        ensures Size(inner) < Size(outer)
      {
        NestedIsSmaller(inner, outer);
      }
    } else {
      var inner, outer := Range(1, 0, 1, LINE_WEIGHT), Range(1, 0, 2, 0);
      assert StrictlyWithin(inner, outer) && ColumnsBelow(inner, bound) && ColumnsBelow(outer, bound);
      assert Size(inner) == Size(outer);
    }
  }

  // -- Selection -------------------------------------------------------------------------

  function Hits(references: seq<Reference>, p: Position): seq<Reference> {
    if references == [] then []
    else (if InRange(p, references[0].range) then [references[0]] else []) + Hits(references[1..], p)
  }

  /** `Math.min` of the sizes of some hits. */
  function Smallest(hits: seq<Reference>): int
    requires hits != [] && forall r :: r in hits ==> r.range.Some?
  {
    var size := Size(hits[0].range.value);
    if |hits| == 1 then size
    else
      assert forall r :: r in hits[1..] ==> r in hits;
      var rest := Smallest(hits[1..]);
      if size < rest then size else rest
  }

  function OfSize(hits: seq<Reference>, size: int): seq<Reference>
    requires forall r :: r in hits ==> r.range.Some?
  {
    if hits == [] then []
    else
      assert forall r :: r in hits[1..] ==> r in hits;
      (if Size(hits[0].range.value) == size then [hits[0]] else []) + OfSize(hits[1..], size)
  }

  lemma {:induction false} HitsAreThoseInRange(references: seq<Reference>, p: Position)
    ensures forall r :: r in Hits(references, p) <==> r in references && InRange(p, r.range)
  {
    if references != [] {
      HitsAreThoseInRange(references[1..], p);
      assert references == [references[0]] + references[1..];
    }
  }

  lemma {:induction false} SmallestIsLeast(hits: seq<Reference>)
    requires hits != [] && forall r :: r in hits ==> r.range.Some?
    ensures forall r :: r in hits ==> Smallest(hits) <= Size(r.range.value)
    ensures exists r :: r in hits && Size(r.range.value) == Smallest(hits)
  {
    assert hits == [hits[0]] + hits[1..];
    assert hits[0] in hits;
    if |hits| > 1 {
      SmallestIsLeast(hits[1..]);
    }
  }

  lemma {:induction false} OfSizeAreThoseOfSize(hits: seq<Reference>, size: int)
    requires forall r :: r in hits ==> r.range.Some?
    ensures forall r :: r in OfSize(hits, size) <==> r in hits && Size(r.range.value) == size
  {
    if hits != [] {
      assert forall r :: r in hits[1..] ==> r in hits;
      OfSizeAreThoseOfSize(hits[1..], size);
      assert hits == [hits[0]] + hits[1..];
    }
  }

  /** The hits of the smallest size. */
  function Narrowest(references: seq<Reference>, p: Position): seq<Reference> {
    HitsAreThoseInRange(references, p);
    var hits := Hits(references, p);
    if hits == [] then [] else OfSize(hits, Smallest(hits))
  }

  /** `r` is a hit, and no hit is smaller. */
  ghost predicate NarrowestHit(references: seq<Reference>, p: Position, r: Reference) {
    && r in references && InRange(p, r.range) && r.range.Some?
    && forall x :: x in references && InRange(p, x.range) && x.range.Some? ==> Size(r.range.value) <= Size(x.range.value)
  }

  lemma NarrowestAreNarrowestHits(references: seq<Reference>, p: Position)
    ensures forall r :: r in Narrowest(references, p) <==> NarrowestHit(references, p, r)
    ensures Narrowest(references, p) == [] <==> forall r :: r in references ==> !InRange(p, r.range)
  {
    hide InRange, Size, Hits, Smallest, OfSize;
    HitsAreThoseInRange(references, p);
    var hits := Hits(references, p);
    RangesOfHits(references, p);
    if hits != [] {
      SmallestIsLeast(hits);
      OfSizeAreThoseOfSize(hits, Smallest(hits));
      assert hits[0] in hits;
    }
  }

  lemma RangesOfHits(references: seq<Reference>, p: Position)
    ensures forall r: Reference :: InRange(p, r.range) ==> r.range.Some?
  {
  }

  /** While columns fit, no selected reference strictly encloses another hit. */
  lemma SelectedEnclosesNoOtherHit(references: seq<Reference>, p: Position, r: Reference, x: Reference)
    requires r in Narrowest(references, p) && x in references && InRange(p, x.range)
    requires r.range.Some? ==> ColumnsFit(r.range.value)
    requires x.range.Some? ==> ColumnsFit(x.range.value)
    ensures r.range.Some? && x.range.Some? && !StrictlyWithin(x.range.value, r.range.value)
  {
    hide Narrowest;
    NarrowestAreNarrowestHits(references, p);
    if StrictlyWithin(x.range.value, r.range.value) {
      NestedIsSmaller(x.range.value, r.range.value);
    }
  }

  // -- The cursor's reference ------------------------------------------------------------

  datatype Identity = Identity(name: string, context: int, symbolId: string, typeId: string)

  function TextOf(s: Option<string>): string { if s.Some? then s.value else "" }

  /** `referenceIdentity`, before its parts are joined into one string. */
  function IdentityOf(r: Reference): Identity {
    Identity(Lower(r.name), r.context, TextOf(r.resolvedSymbolId), TextOf(r.resolvedTypeId))
  }

  predicate SameLetters(a: string, b: string) {
    |a| == |b| && forall i :: 0 <= i < |a| ==> LowerChar(a[i]) == LowerChar(b[i])
  }

  predicate SameId(a: Option<string>, b: Option<string>) {
    a == b || (a in {None, Some("")} && b in {None, Some("")})
  }

  /** Two references have one identity exactly when their names agree but for case, and their contexts and
      resolved ids agree, where an absent id counts as an empty one. */
  lemma SameIdentityExactly(a: Reference, b: Reference)
    ensures IdentityOf(a) == IdentityOf(b) <==>
            && SameLetters(a.name, b.name) && a.context == b.context
            && SameId(a.resolvedSymbolId, b.resolvedSymbolId) && SameId(a.resolvedTypeId, b.resolvedTypeId)
  {
    if SameLetters(a.name, b.name) {
      assert Lower(a.name) == Lower(b.name);
    } else if |a.name| == |b.name| {
      var i :| 0 <= i < |a.name| && LowerChar(a.name[i]) != LowerChar(b.name[i]);
      assert Lower(a.name)[i] != Lower(b.name)[i];
    }
  }

  datatype Selection = NoReference | Ambiguous | Selected(reference: Reference)

  function ResolvedIds(rs: seq<Reference>): set<string> {
    set r | r in rs && TextOf(r.resolvedSymbolId) != "" :: TextOf(r.resolvedSymbolId)
  }

  function Identities(rs: seq<Reference>): set<Identity> {
    set r | r in rs :: IdentityOf(r)
  }

  function FirstResolved(rs: seq<Reference>): Reference
    requires rs != []
  {
    if TextOf(rs[0].resolvedSymbolId) != "" || |rs| == 1 then rs[0] else FirstResolved(rs[1..])
  }

  /** `exactCursorReference` */
  function ExactCursorReference(references: seq<Reference>, p: Position): Selection {
    var narrowest := Narrowest(references, p);
    if narrowest == [] then NoReference
    else if |ResolvedIds(narrowest)| > 1 then Ambiguous
    else if |ResolvedIds(narrowest)| == 1 then Selected(FirstResolved(narrowest))
    else if |Identities(narrowest)| > 1 then Ambiguous
    else Selected(narrowest[0])
  }

  /** Two narrowest hits that cannot stand for the same thing: different resolved symbols, or different
      identities with nothing resolved. */
  ghost predicate Conflict(references: seq<Reference>, p: Position) {
    || (exists a, b :: NarrowestHit(references, p, a) && NarrowestHit(references, p, b) && ResolvedApart(a, b))
    || (&& (forall a :: NarrowestHit(references, p, a) ==> TextOf(a.resolvedSymbolId) == "")
        && (exists a, b :: NarrowestHit(references, p, a) && NarrowestHit(references, p, b) && IdentityOf(a) != IdentityOf(b)))
  }

  predicate ResolvedApart(a: Reference, b: Reference) {
    var x, y := TextOf(a.resolvedSymbolId), TextOf(b.resolvedSymbolId);
    x != "" && y != "" && x != y
  }

  lemma SetOfSize<T>(s: set<T>)
    ensures |s| > 1 <==> exists x, y :: x in s && y in s && x != y
    ensures |s| == 0 <==> s == {}
  {
    if |s| > 1 {
      var x :| x in s;
      assert |s - {x}| == |s| - 1;
      var y :| y in s - {x};
    }
    if x, y :| x in s && y in s && x != y {
      assert {x, y} <= s;
      assert |s - {x, y}| + |{x, y}| == |s|;
    }
  }

  lemma ManyIds(rs: seq<Reference>)
    ensures |ResolvedIds(rs)| > 1 <==> exists a, b :: a in rs && b in rs && ResolvedApart(a, b)
    ensures |ResolvedIds(rs)| == 0 <==> forall a :: a in rs ==> TextOf(a.resolvedSymbolId) == ""
  {
    var ids := ResolvedIds(rs);
    SetOfSize(ids);
    if |ids| > 1 {
      var x, y :| x in ids && y in ids && x != y;
      var a :| a in rs && TextOf(a.resolvedSymbolId) == x;
      var b :| b in rs && TextOf(b.resolvedSymbolId) == y;
      assert ResolvedApart(a, b);
    }
    if a, b :| a in rs && b in rs && ResolvedApart(a, b) {
      assert TextOf(a.resolvedSymbolId) in ids && TextOf(b.resolvedSymbolId) in ids;
    }
    if |ids| == 0 {
      forall a | a in rs ensures TextOf(a.resolvedSymbolId) == "" {
        assert TextOf(a.resolvedSymbolId) !in ids;
      }
    }
  }

  lemma ManyIdentities(rs: seq<Reference>)
    ensures |Identities(rs)| > 1 <==> exists a, b :: a in rs && b in rs && IdentityOf(a) != IdentityOf(b)
  {
    var ids := Identities(rs);
    SetOfSize(ids);
    if |ids| > 1 {
      var x, y :| x in ids && y in ids && x != y;
      var a :| a in rs && IdentityOf(a) == x;
      var b :| b in rs && IdentityOf(b) == y;
    }
    if a, b :| a in rs && b in rs && IdentityOf(a) != IdentityOf(b) {
      assert IdentityOf(a) in ids && IdentityOf(b) in ids;
    }
  }

  lemma {:induction false} FirstResolvedIsResolved(rs: seq<Reference>)
    requires rs != []
    ensures FirstResolved(rs) in rs
    ensures (exists r :: r in rs && TextOf(r.resolvedSymbolId) != "") ==> TextOf(FirstResolved(rs).resolvedSymbolId) != ""
  {
    assert rs == [rs[0]] + rs[1..];
    if |rs| > 1 {
      FirstResolvedIsResolved(rs[1..]);
    }
  }

  /** What the selection means: nothing when nothing is hit, ambiguous exactly on a conflict, and
      otherwise a narrowest hit, resolved whenever some narrowest hit is. */
  lemma SelectionMeaning(references: seq<Reference>, p: Position)
    ensures var s := ExactCursorReference(references, p);
            && (s.NoReference? <==> forall r :: r in references ==> !InRange(p, r.range))
            && (s.Ambiguous? <==> Conflict(references, p))
            && (s.Selected? ==>
                  && NarrowestHit(references, p, s.reference)
                  && forall r :: NarrowestHit(references, p, r) && TextOf(r.resolvedSymbolId) != "" ==>
                       TextOf(s.reference.resolvedSymbolId) != "")
  {
    hide Narrowest, InRange, NarrowestHit, ResolvedIds, Identities, IdentityOf, TextOf;
    var narrowest := Narrowest(references, p);
    NarrowestAreNarrowestHits(references, p);
    ManyIds(narrowest);
    ManyIdentities(narrowest);
    if narrowest != [] {
      FirstResolvedIsResolved(narrowest);
      assert narrowest[0] in narrowest;
    }
  }

  /** What a caller learns: the verdict, and the resolved symbol or else the identity selected. */
  datatype Outcome = Nothing | Conflicting | Symbol(id: string) | Unresolved(identity: Identity)

  function OutcomeOf(s: Selection): Outcome {
    match s
    case NoReference => Nothing
    case Ambiguous => Conflicting
    case Selected(r) => if TextOf(r.resolvedSymbolId) != "" then Symbol(TextOf(r.resolvedSymbolId)) else Unresolved(IdentityOf(r))
  }

  lemma SameHits(references: seq<Reference>, references': seq<Reference>, p: Position)
    requires forall r :: r in references <==> r in references'
    ensures forall r :: NarrowestHit(references, p, r) <==> NarrowestHit(references', p, r)
  {
  }

  /** Neither the verdict, nor the resolved symbol, nor the identity of an unresolved selection depends on
      the order of the references: any two lists with the same members, permutations among them, give the
      same outcome. */
  lemma OrderIsNotSemantic(references: seq<Reference>, references': seq<Reference>, p: Position)
    requires forall r :: r in references <==> r in references'
    ensures OutcomeOf(ExactCursorReference(references, p)) == OutcomeOf(ExactCursorReference(references', p))
  {
    hide ExactCursorReference, NarrowestHit, IdentityOf, TextOf, InRange;
    SelectionMeaning(references, p);
    SelectionMeaning(references', p);
    SameHits(references, references', p);
  }

  lemma PermutationsHaveTheSameMembers(references: seq<Reference>, references': seq<Reference>)
    requires multiset(references) == multiset(references')
    ensures forall r :: r in references <==> r in references'
  {
    forall r ensures r in references <==> r in references' {
      assert r in references <==> r in multiset(references);
      assert r in references' <==> r in multiset(references');
    }
  }

  // -- Which of the narrowest hits is selected -------------------------------------------

  /** The members that satisfy `p`, in order. */
  function Keep(rs: seq<Reference>, p: Reference -> bool): seq<Reference> {
    if rs == [] then [] else (if p(rs[0]) then [rs[0]] else []) + Keep(rs[1..], p)
  }

  function HitAt(p: Position): Reference -> bool { (r: Reference) => InRange(p, r.range) }

  function HasSize(size: int): Reference -> bool { (r: Reference) => r.range.Some? && Size(r.range.value) == size }

  function HitOfSize(p: Position, size: int): Reference -> bool { (r: Reference) => HitAt(p)(r) && HasSize(size)(r) }

  function IsResolved(): Reference -> bool { (r: Reference) => TextOf(r.resolvedSymbolId) != "" }

  function ResolvedOfSize(p: Position, size: int): Reference -> bool {
    (r: Reference) => HitOfSize(p, size)(r) && IsResolved()(r)
  }

  lemma {:induction false} HitsAreKept(references: seq<Reference>, p: Position)
    ensures Hits(references, p) == Keep(references, HitAt(p))
  {
    if references != [] {
      HitsAreKept(references[1..], p);
    }
  }

  lemma {:induction false} OfSizeIsKept(hits: seq<Reference>, size: int)
    requires forall r :: r in hits ==> r.range.Some?
    ensures OfSize(hits, size) == Keep(hits, HasSize(size))
  {
    hide Size;
    if hits != [] {
      assert hits[0] in hits;
      assert forall r :: r in hits[1..] ==> r in hits;
      OfSizeIsKept(hits[1..], size);
    }
  }

  lemma {:induction false} KeptTwice(rs: seq<Reference>, p: Reference -> bool, q: Reference -> bool, both: Reference -> bool)
    requires forall r :: r in rs ==> (both(r) <==> p(r) && q(r))
    ensures Keep(Keep(rs, p), q) == Keep(rs, both)
  {
    if rs != [] {
      assert rs[0] in rs;
      assert forall r :: r in rs[1..] ==> r in rs;
      KeptTwice(rs[1..], p, q, both);
      if p(rs[0]) {
        assert Keep(rs, p) == [rs[0]] + Keep(rs[1..], p);
        assert ([rs[0]] + Keep(rs[1..], p))[1..] == Keep(rs[1..], p);
      } else {
        assert Keep(rs, p) == Keep(rs[1..], p);
      }
    }
  }

  lemma {:induction false} KeptAreThose(rs: seq<Reference>, p: Reference -> bool)
    ensures forall r :: r in Keep(rs, p) <==> r in rs && p(r)
  {
    if rs != [] {
      KeptAreThose(rs[1..], p);
      assert rs == [rs[0]] + rs[1..];
    }
  }

  lemma {:induction false} FirstResolvedIsKeptFirst(rs: seq<Reference>)
    requires Keep(rs, IsResolved()) != []
    ensures FirstResolved(rs) == Keep(rs, IsResolved())[0]
  {
    if TextOf(rs[0].resolvedSymbolId) == "" {
      FirstResolvedIsKeptFirst(rs[1..]);
    }
  }

  /** `rs[k]` is the first member that satisfies `p`. */
  predicate FirstAt(rs: seq<Reference>, p: Reference -> bool, k: nat) {
    k < |rs| && p(rs[k]) && forall j :: 0 <= j < k ==> !p(rs[j])
  }

  lemma {:induction false} FirstKeptIsFirst(rs: seq<Reference>, p: Reference -> bool) returns (k: nat)
    requires Keep(rs, p) != []
    ensures FirstAt(rs, p, k) && rs[k] == Keep(rs, p)[0]
  {
    k := 0;
    if !p(rs[0]) {
      k := FirstKeptIsFirst(rs[1..], p);
      k := k + 1;
    }
  }

  /** A narrowest hit, and resolved unless no narrowest hit is. */
  ghost predicate Eligible(references: seq<Reference>, p: Position, r: Reference) {
    && NarrowestHit(references, p, r)
    && (TextOf(r.resolvedSymbolId) == "" ==> forall x :: NarrowestHit(references, p, x) ==> TextOf(x.resolvedSymbolId) == "")
  }

  lemma NarrowestAreKept(references: seq<Reference>, p: Position)
    ensures exists size :: Narrowest(references, p) == Keep(references, HitOfSize(p, size))
  {
    hide InRange, Size, Smallest, HasSize;
    var hits := Hits(references, p);
    HitsAreThoseInRange(references, p);
    RangesOfHits(references, p);
    HitsAreKept(references, p);
    var size := if hits == [] then 0 else Smallest(hits);
    OfSizeIsKept(hits, size);
    KeptTwice(references, HitAt(p), HasSize(size), HitOfSize(p, size));
    assert OfSize(hits, size) == Keep(references, HitOfSize(p, size));
  }

  /** The reference selected is the first eligible one in the list. */
  lemma SelectedIsFirstEligible(references: seq<Reference>, p: Position)
    requires ExactCursorReference(references, p).Selected?
    ensures exists k :: 0 <= k < |references| && references[k] == ExactCursorReference(references, p).reference
                        && Eligible(references, p, references[k])
                        && forall j :: 0 <= j < k ==> !Eligible(references, p, references[j])
  {
    hide Narrowest, NarrowestHit, TextOf, HitOfSize, Keep, ResolvedIds;
    var narrowest := Narrowest(references, p);
    NarrowestAreNarrowestHits(references, p);
    NarrowestAreKept(references, p);
    var size :| narrowest == Keep(references, HitOfSize(p, size));
    KeptAreThose(references, HitOfSize(p, size));
    ManyIds(narrowest);
    var k: nat;
    if |ResolvedIds(narrowest)| == 1 {
      KeptTwice(references, HitOfSize(p, size), IsResolved(), ResolvedOfSize(p, size));
      KeptAreThose(narrowest, IsResolved());
      FirstResolvedIsKeptFirst(narrowest);
      k := FirstKeptIsFirst(references, ResolvedOfSize(p, size));
    } else {
      k := FirstKeptIsFirst(references, HitOfSize(p, size));
    }
    forall j | 0 <= j < k ensures !Eligible(references, p, references[j]) {
      assert references[j] in references;
    }
    assert references[k] in references;
  }

  // -- The full identity of a resolved selection -----------------------------------------

  /** `referenceIdentity` of the selected reference. */
  function SelectedIdentity(s: Selection): Option<Identity> {
    if s.Selected? then Some(IdentityOf(s.reference)) else None
  }

  /** The selection has a resolved symbol. */
  predicate Resolves(s: Selection) { s.Selected? && TextOf(s.reference.resolvedSymbolId) != "" }

  ghost predicate ResolvedHit(references: seq<Reference>, p: Position, r: Reference) {
    NarrowestHit(references, p, r) && TextOf(r.resolvedSymbolId) != ""
  }

  /** All resolved narrowest hits have the same identity. */
  ghost predicate SharedIdentity(references: seq<Reference>, p: Position) {
    forall a, b :: ResolvedHit(references, p, a) && ResolvedHit(references, p, b) ==> IdentityOf(a) == IdentityOf(b)
  }

  ghost predicate IdentityIgnoresOrder(references: seq<Reference>, p: Position) {
    forall references' | multiset(references') == multiset(references) ::
      SelectedIdentity(ExactCursorReference(references', p)) == SelectedIdentity(ExactCursorReference(references, p))
  }

  /** The first reference is selected if it is a resolved narrowest hit and nothing conflicts with it. */
  lemma FirstIsSelected(y: Reference, rest: seq<Reference>, p: Position)
    requires ResolvedHit([y] + rest, p, y) && ExactCursorReference([y] + rest, p).Selected?
    ensures ExactCursorReference([y] + rest, p) == Selected(y)
  {
    var references := [y] + rest;
    FirstIsNarrowest(y, rest, p);
    hide Narrowest;
    assert TextOf(y.resolvedSymbolId) in ResolvedIds(Narrowest(references, p));
  }

  lemma FirstIsNarrowest(y: Reference, rest: seq<Reference>, p: Position)
    requires NarrowestHit([y] + rest, p, y)
    ensures Narrowest([y] + rest, p) != [] && Narrowest([y] + rest, p)[0] == y
  {
    hide InRange, Size, Smallest;
    var references := [y] + rest;
    var hits := Hits(references, p);
    assert references[1..] == rest;
    assert hits == [y] + Hits(rest, p);
    HitsAreThoseInRange(references, p);
    RangesOfHits(references, p);
    SmallestIsLeast(hits);
    assert y in hits;
  }

  lemma MovedToFront(references: seq<Reference>, y: Reference) returns (rest: seq<Reference>)
    requires y in references
    ensures multiset([y] + rest) == multiset(references)
  {
    var i :| 0 <= i < |references| && references[i] == y;
    rest := references[..i] + references[i + 1..];
    assert references == references[..i] + [y] + references[i + 1..];
  }

  lemma SameMembersSameHits(references: seq<Reference>, references': seq<Reference>, p: Position)
    requires multiset(references') == multiset(references)
    ensures OutcomeOf(ExactCursorReference(references, p)) == OutcomeOf(ExactCursorReference(references', p))
    ensures forall r :: ResolvedHit(references, p, r) <==> ResolvedHit(references', p, r)
  {
    hide ExactCursorReference, NarrowestHit, IdentityOf, TextOf, OutcomeOf;
    PermutationsHaveTheSameMembers(references, references');
    OrderIsNotSemantic(references, references', p);
    SameHits(references, references', p);
  }

  lemma ResolvedSelectionIsHit(references: seq<Reference>, p: Position)
    requires Resolves(ExactCursorReference(references, p))
    ensures ResolvedHit(references, p, ExactCursorReference(references, p).reference)
  {
    hide ExactCursorReference, NarrowestHit;
    SelectionMeaning(references, p);
  }

  /** The identity of the selected reference is the same for every permutation exactly when the selection
      is unresolved, or absent, or all resolved narrowest hits share one identity. */
  lemma IdentityIgnoresOrderExactly(references: seq<Reference>, p: Position)
    ensures IdentityIgnoresOrder(references, p) <==>
            (Resolves(ExactCursorReference(references, p)) ==> SharedIdentity(references, p))
  {
    hide ExactCursorReference, ResolvedHit, IdentityOf, TextOf;
    var s := ExactCursorReference(references, p);
    if !Resolves(s) || SharedIdentity(references, p) {
      forall references' | multiset(references') == multiset(references)
        ensures SelectedIdentity(ExactCursorReference(references', p)) == SelectedIdentity(s)
      {
        SameMembersSameHits(references, references', p);
        if Resolves(s) {
          ResolvedSelectionIsHit(references, p);
          ResolvedSelectionIsHit(references', p);
        }
      }
    } else {
      ResolvedSelectionIsHit(references, p);
      var y :| ResolvedHit(references, p, y) && IdentityOf(y) != IdentityOf(s.reference);
      HitIsMember(references, p, y);
      var rest := MovedToFront(references, y);
      SameMembersSameHits(references, [y] + rest, p);
      FirstIsSelected(y, rest, p);
      assert SelectedIdentity(ExactCursorReference([y] + rest, p)) != SelectedIdentity(s);
    }
  }

  lemma HitIsMember(references: seq<Reference>, p: Position, r: Reference)
    requires ResolvedHit(references, p, r)
    ensures r in references
  {
  }

  /** Two references to one symbol at one range, used in different contexts: which of them is selected
      depends on their order. */
  lemma ContextOfSelectionDependsOnOrder()
    ensures exists a: Reference, b: Reference, p ::
              && TextOf(a.resolvedSymbolId) == TextOf(b.resolvedSymbolId) != "" && a.range == b.range
              && SelectedIdentity(ExactCursorReference([a, b], p)) != SelectedIdentity(ExactCursorReference([b, a], p))
  {
    var range, p := Some(Range(1, 0, 1, 3)), Position(1, 1);
    var a := Reference("Foo", 1, Some("s"), None, range, None);
    var b := Reference("Foo", 2, Some("s"), None, range, None);
    BothAreHits(a, b, p);
    BothAreHits(b, a, p);
    hide ExactCursorReference, ResolvedHit;
    assert [a] + [b] == [a, b] && [b] + [a] == [b, a];
    FirstIsSelected(a, [b], p);
    FirstIsSelected(b, [a], p);
  }

  lemma BothAreHits(a: Reference, b: Reference, p: Position)
    requires p == Position(1, 1) && a.range == b.range == Some(Range(1, 0, 1, 3))
    requires TextOf(a.resolvedSymbolId) == TextOf(b.resolvedSymbolId) == "s"
    ensures ResolvedHit([a, b], p, a) && ExactCursorReference([a, b], p).Selected?
  {
    hide ExactCursorReference, IdentityOf, Narrowest;
    SelectionMeaning([a, b], p);
  }

  // -- The references a dependency load starts from --------------------------------------

  /** A range size that may be infinite. */
  function SizeOrInfinity(r: Reference): Option<int> { if r.range.Some? then Some(Size(r.range.value)) else None }

  function ParserHits(references: seq<Reference>, p: Position): seq<Reference> {
    if references == [] then []
    else (if InParserRange(p, references[0].range) then [references[0]] else []) + ParserHits(references[1..], p)
  }

  function MinSize(rs: seq<Reference>): Option<int> {
    if rs == [] then None
    else
      var size, rest := SizeOrInfinity(rs[0]), MinSize(rs[1..]);
      if size.None? || (rest.Some? && rest.value <= size.value) then rest else size
  }

  function WithSize(rs: seq<Reference>, size: Option<int>): seq<Reference> {
    if rs == [] then [] else (if SizeOrInfinity(rs[0]) == size then [rs[0]] else []) + WithSize(rs[1..], size)
  }

  predicate AccessContains(p: Position, access: MemberAccess) {
    var end := if access.memberRange.Some? then access.memberRange.value else access.operatorRange;
    InParserRange(p, Some(Range(access.operatorRange.startLine, access.operatorRange.endColumn, end.endLine, end.endColumn)))
  }

  function AccessHits(references: seq<Reference>, p: Position): seq<Reference> {
    if references == [] then []
    else
      (if references[0].memberAccess.Some? && AccessContains(p, references[0].memberAccess.value) then [references[0]] else [])
      + AccessHits(references[1..], p)
  }

  /** `dependencyReferencesAtCursor` */
  function DependencyReferencesAtCursor(references: seq<Reference>, p: Position): seq<Reference> {
    var hits := ParserHits(references, p);
    if hits != [] then WithSize(hits, MinSize(hits)) else AccessHits(references, p)
  }

  lemma {:induction false} ParserHitsAreHits(references: seq<Reference>, p: Position)
    ensures ParserHits(references, p) == Hits(references, p)
  {
    if references != [] {
      RangeTestsAgree(p, references[0].range);
      ParserHitsAreHits(references[1..], p);
    }
  }

  lemma {:induction false} MinSizeIsSmallest(hits: seq<Reference>)
    requires hits != [] && forall r :: r in hits ==> r.range.Some?
    ensures MinSize(hits) == Some(Smallest(hits))
  {
    hide Size;
    assert hits[0] in hits;
    if |hits| > 1 {
      assert forall r :: r in hits[1..] ==> r in hits;
      MinSizeIsSmallest(hits[1..]);
    } else {
      assert hits[1..] == [];
    }
  }

  lemma {:induction false} WithSizeIsOfSize(hits: seq<Reference>, size: int)
    requires forall r :: r in hits ==> r.range.Some?
    ensures WithSize(hits, Some(size)) == OfSize(hits, size)
  {
    hide Size;
    if hits != [] {
      assert hits[0] in hits;
      assert forall r :: r in hits[1..] ==> r in hits;
      WithSizeIsOfSize(hits[1..], size);
    }
  }

  lemma {:induction false} AccessHitsAreThose(references: seq<Reference>, p: Position)
    ensures AccessHits(references, p) == Keep(references, OnAccess(p))
  {
    if references != [] {
      AccessHitsAreThose(references[1..], p);
    }
  }

  /** From the end of the access operator up to the end of the member, or of the operator without one. */
  function OnAccess(p: Position): Reference -> bool {
    (r: Reference) =>
      r.memberAccess.Some? &&
      var operator := r.memberAccess.value.operatorRange;
      && Before(operator.startLine, operator.endColumn, p.line, p.character)
      && match r.memberAccess.value.memberRange
         case Some(member) => Before(p.line, p.character, member.endLine, member.endColumn)
         case None => Before(p.line, p.character, operator.endLine, operator.endColumn)
  }

  lemma {:induction false} NothingIsHit(references: seq<Reference>, p: Position)
    requires forall r :: r in references ==> !InRange(p, r.range)
    ensures Hits(references, p) == []
  {
    if references != [] {
      assert references == [references[0]] + references[1..];
      NothingIsHit(references[1..], p);
    }
  }

  /** Without a hit, the load starts from the references whose member access holds the cursor, in order. */
  lemma WithoutHitsAccessDecides(references: seq<Reference>, p: Position)
    requires ExactCursorReference(references, p) == NoReference
    ensures DependencyReferencesAtCursor(references, p) == Keep(references, OnAccess(p))
  {
    hide InRange, InParserRange;
    SelectionMeaning(references, p);
    ParserHitsAreHits(references, p);
    NothingIsHit(references, p);
    AccessHitsAreThose(references, p);
  }

  /** Both selections work from the same narrowest hits: what the dependency load starts from are
      those, in order, and the cursor's own reference is one of them. */
  lemma SelectionsAgree(references: seq<Reference>, p: Position)
    requires ExactCursorReference(references, p) != NoReference
    ensures DependencyReferencesAtCursor(references, p) == Narrowest(references, p)
    ensures var s := ExactCursorReference(references, p);
            s.Selected? ==> s.reference in DependencyReferencesAtCursor(references, p)
  {
    hide InRange, InParserRange, Size, Hits, ParserHits, Smallest, MinSize, OfSize, WithSize;
    var hits := Hits(references, p);
    ParserHitsAreHits(references, p);
    HitsAreThoseInRange(references, p);
    RangesOfHits(references, p);
    MinSizeIsSmallest(hits);
    WithSizeIsOfSize(hits, Smallest(hits));
    FirstResolvedIsResolved(Narrowest(references, p));
  }
}
