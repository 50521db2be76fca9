/** The walk itself, over its mutable visited set, candidate map and worklist. */
module CandidateWalk {
  import opened Prelude
  import opened DependencyWalk

  /** What the walk has found: candidate keys, visited types, queued symbol ids, and the symbols
      added under their own name. */
  datatype Finds = Finds(names: set<string>, types: set<TypeId>, queued: set<SymbolId>, identified: set<SymbolId>)

  const NOTHING := Finds({}, {}, {}, {})

  predicate Within(f: Finds, f': Finds) {
    f.names <= f'.names && f.types <= f'.types && f.queued <= f'.queued && f.identified <= f'.identified
  }

  /** Only what should be found has been found. */
  ghost predicate Sound(h: Heap, references: seq<Reference>, f: Finds) {
    && (forall t :: t in f.types ==> t in h.types && Reachable(h, references, TypeAt(t)))
    && (forall s :: s in f.queued && s in h.symbols ==> Reachable(h, references, SymbolAt(s)))
    && (forall key :: key in f.names ==> IsCandidate(h, references, key))
  }

  predicate Filed(f: Finds, key: Option<string>) { key.Some? ==> key.value in f.names }

  predicate Visited(h: Heap, f: Finds, t: TypeId) { t in h.types ==> t in f.types }

  /** A type has been dealt with, and all it refers to has been taken up. */
  ghost predicate TypeDone(h: Heap, f: Finds, t: TypeId) {
    t in h.types ==>
      && Filed(f, TypeKey(h.types[t]))
      && (forall c :: ChildType(h.types[t], c) ==> Visited(h, f, c))
      && (PendingId(h.types[t]).Some? ==> PendingId(h.types[t]).value in f.queued)
  }

  ghost predicate SymbolTypesDone(h: Heap, f: Finds, s: SymbolId) {
    s in h.symbols ==> forall t :: SymbolType(h.symbols[s], t) ==> Visited(h, f, t)
  }

  ghost predicate SymbolDone(h: Heap, f: Finds, s: SymbolId) {
    s in h.symbols ==> s in f.identified && Filed(f, SymbolKey(h.symbols[s])) && SymbolTypesDone(h, f, s)
  }

  /** Every type taken up since `f0` has been dealt with, but for those in `open`. */
  ghost predicate DoneSince(h: Heap, f0: Finds, f: Finds, open: set<TypeId>) {
    forall t :: t in f.types && t !in f0.types && t !in open ==> TypeDone(h, f, t)
  }

  ghost predicate IdentifiedDone(h: Heap, f: Finds) {
    forall s :: s in f.identified ==> SymbolDone(h, f, s)
  }

  lemma DoneGrows(h: Heap, f0: Finds, f1: Finds, f2: Finds, open: set<TypeId>)
    requires DoneSince(h, f0, f1, open) && DoneSince(h, f1, f2, {}) && Within(f1, f2)
    ensures DoneSince(h, f0, f2, open)
  {
    forall t | t in f2.types && t !in f0.types && t !in open ensures TypeDone(h, f2, t) {
      if t in f1.types {
        assert TypeDone(h, f1, t);
      }
    }
  }

  lemma IdentifiedGrows(h: Heap, f: Finds, f': Finds)
    requires IdentifiedDone(h, f) && Within(f, f') && f'.identified == f.identified
    ensures IdentifiedDone(h, f')
  {
    forall s | s in f'.identified ensures SymbolDone(h, f', s) {
      assert SymbolDone(h, f, s);
    }
  }

  lemma NothingSince(h: Heap, f: Finds, f': Finds, open: set<TypeId>)
    requires f'.types <= f.types + open
    ensures DoneSince(h, f, f', open)
  {
  }

  lemma VisitKeepsSound(h: Heap, references: seq<Reference>, f: Finds, t: TypeId)
    requires Sound(h, references, f) && t in h.types && Reachable(h, references, TypeAt(t))
    ensures Sound(h, references, f.(types := f.types + {t}))
  {
  }

  lemma ChildReachable(h: Heap, references: seq<Reference>, t: TypeId, c: TypeId)
    requires t in h.types && Reachable(h, references, TypeAt(t)) && ChildType(h.types[t], c)
    ensures c in h.types ==> Reachable(h, references, TypeAt(c))
  {
    if c in h.types {
      EdgeReachable(h, references, TypeAt(t), TypeAt(c));
    }
  }

  lemma PendingReachable(h: Heap, references: seq<Reference>, t: TypeId)
    requires t in h.types && Reachable(h, references, TypeAt(t)) && PendingId(h.types[t]).Some?
    ensures var s := PendingId(h.types[t]).value;
            s in QueueableIds(h) && (s in h.symbols ==> Reachable(h, references, SymbolAt(s)))
  {
    var s := PendingId(h.types[t]).value;
    if s in h.symbols {
      EdgeReachable(h, references, TypeAt(t), SymbolAt(s));
    }
  }

  lemma FinishType(h: Heap, f: Finds, t: TypeId)
    requires t in h.types && Filed(f, TypeKey(h.types[t]))
    requires forall c :: ChildType(h.types[t], c) ==> Visited(h, f, c)
    requires PendingId(h.types[t]).Some? ==> PendingId(h.types[t]).value in f.queued
    ensures TypeDone(h, f, t)
  {
  }

  /** The open type is closed once all it refers to has been taken up. */
  lemma CloseType(h: Heap, f0: Finds, f: Finds, t: TypeId)
    requires DoneSince(h, f0, f, {t}) && TypeDone(h, f, t)
    ensures DoneSince(h, f0, f, {})
  {
  }

  lemma SoundIgnoresIdentified(h: Heap, references: seq<Reference>, f: Finds, identified: set<SymbolId>)
    requires Sound(h, references, f.(identified := identified))
    ensures Sound(h, references, f)
  {
  }

  lemma IdentifyMore(h: Heap, f: Finds, f': Finds, s: SymbolId)
    requires IdentifiedDone(h, f) && Within(f, f') && f'.identified <= f.identified + {s}
    requires s in f'.identified ==> s in f.identified || SymbolDone(h, f', s)
    ensures IdentifiedDone(h, f')
  {
    forall x | x in f'.identified ensures SymbolDone(h, f', x) {
      if x in f.identified {
        assert SymbolDone(h, f, x);
      }
    }
  }

  ghost predicate NodeDone(h: Heap, f: Finds, n: ChainNode, chained: bool) {
    && (NamesType(n.context, chained) ==> Filed(f, CandidateKey(Some(n.name), None)))
    && (n.resolvedSymbolId.Some? ==> SymbolTypesDone(h, f, n.resolvedSymbolId.value))
    && (n.resolvedTypeId.Some? ==> SymbolDone(h, f, n.resolvedTypeId.value))
  }

  ghost predicate ReferenceDone(h: Heap, f: Finds, r: Reference) {
    NodeDone(h, f, Head(r), false) && forall j :: 0 <= j < |r.chainNodes| ==> NodeDone(h, f, r.chainNodes[j], true)
  }

  lemma IdentifiedStays(h: Heap, f: Finds, f': Finds)
    requires Within(f, f') && f'.identified == f.identified
    ensures IdentifiedDone(h, f) ==> IdentifiedDone(h, f')
  {
    if IdentifiedDone(h, f) {
      IdentifiedGrows(h, f, f');
    }
  }

  lemma SymbolTypesGrow(h: Heap, f: Finds, f': Finds, s: SymbolId)
    requires SymbolTypesDone(h, f, s) && Within(f, f')
    ensures SymbolTypesDone(h, f', s)
  {
  }

  lemma SymbolGrows(h: Heap, f: Finds, f': Finds, s: SymbolId)
    requires SymbolDone(h, f, s) && Within(f, f')
    ensures SymbolDone(h, f', s)
  {
  }

  lemma NodeGrows(h: Heap, f: Finds, f': Finds, n: ChainNode, chained: bool)
    requires NodeDone(h, f, n, chained) && Within(f, f')
    ensures NodeDone(h, f', n, chained)
  {
  }

  lemma ReferenceGrows(h: Heap, f: Finds, f': Finds, r: Reference)
    requires ReferenceDone(h, f, r) && Within(f, f')
    ensures ReferenceDone(h, f', r)
  {
    hide NodeDone;
    NodeGrows(h, f, f', Head(r), false);
    forall j | 0 <= j < |r.chainNodes| ensures NodeDone(h, f', r.chainNodes[j], true) {
      NodeGrows(h, f, f', r.chainNodes[j], true);
    }
  }

  lemma StartDone(h: Heap)
    ensures DoneSince(h, NOTHING, NOTHING, {}) && IdentifiedDone(h, NOTHING)
  {
  }

  lemma SymbolTypesReachable(h: Heap, references: seq<Reference>, s: SymbolId)
    requires s in h.symbols && Reachable(h, references, SymbolAt(s))
    ensures forall t :: SymbolType(h.symbols[s], t) && t in h.types ==> Reachable(h, references, TypeAt(t))
  {
    forall t | SymbolType(h.symbols[s], t) && t in h.types ensures Reachable(h, references, TypeAt(t)) {
      EdgeReachable(h, references, SymbolAt(s), TypeAt(t));
    }
  }

  lemma QueuedReachable(h: Heap, references: seq<Reference>, f: Finds, s: SymbolId)
    requires Sound(h, references, f) && s in f.queued && s in h.symbols
    ensures Reachable(h, references, SymbolAt(s))
  {
  }

  // -- NOTHING reachable is missed -------------------------------------------------------

  ghost predicate Handled(h: Heap, f: Finds, n: Node) {
    match n
    case Named(name) => Filed(f, KeyOf(h, n))
    case TypeAt(t) => Visited(h, f, t)
    case SymbolAt(s) => SymbolDone(h, f, s)
  }

  /** The walk is over: every reference, visited type and queued symbol has been dealt with. */
  ghost predicate Finished(h: Heap, references: seq<Reference>, f: Finds) {
    && (forall k :: 0 <= k < |references| ==> ReferenceDone(h, f, references[k]))
    && DoneSince(h, NOTHING, f, {})
    && (forall s :: s in f.queued ==> SymbolDone(h, f, s))
  }

  lemma RootHandled(h: Heap, references: seq<Reference>, f: Finds, root: Node)
    requires Finished(h, references, f) && IsRoot(h, references, root)
    ensures Handled(h, f, root)
  {
    hide DoneSince, SymbolDone;
    var r :| r in references && RootOf(h, r, root);
    var k :| 0 <= k < |references| && references[k] == r;
    assert ReferenceDone(h, f, references[k]);
  }

  lemma EdgeHandled(h: Heap, references: seq<Reference>, f: Finds, a: Node, b: Node)
    requires Finished(h, references, f) && Handled(h, f, a) && Edge(h, a, b)
    ensures Handled(h, f, b)
  {
    hide ReferenceDone;
    if a.TypeAt? {
      assert TypeDone(h, f, a.t);
    }
  }

  lemma {:induction false} PathHandled(h: Heap, references: seq<Reference>, f: Finds, path: seq<Node>, i: nat)
    requires Finished(h, references, f) && IsPath(h, references, path) && i < |path|
    ensures Handled(h, f, path[i])
  {
    hide Finished, Handled, IsRoot, Edge;
    if i == 0 {
      RootHandled(h, references, f, path[0]);
    } else {
      PathHandled(h, references, f, path, i - 1);
      EdgeHandled(h, references, f, path[i - 1], path[i]);
    }
  }

  lemma HandledIsFiled(h: Heap, references: seq<Reference>, f: Finds, n: Node)
    requires Finished(h, references, f) && Handled(h, f, n)
    ensures Filed(f, KeyOf(h, n))
  {
    hide ReferenceDone;
    if n.TypeAt? && n.t in h.types {
      assert TypeDone(h, f, n.t);
    }
  }

  lemma FoundExactlyCandidates(h: Heap, references: seq<Reference>, f: Finds)
    requires Finished(h, references, f) && Sound(h, references, f)
    ensures forall key :: key in f.names <==> IsCandidate(h, references, key)
  {
    hide Finished, Handled, KeyOf;
    forall key | IsCandidate(h, references, key) ensures key in f.names {
      var n :| Reachable(h, references, n) && KeyOf(h, n) == Some(key);
      var path :| IsPath(h, references, path) && path[|path| - 1] == n;
      PathHandled(h, references, f, path, |path| - 1);
      HandledIsFiled(h, references, f, n);
    }
  }

  /** The keys found do not depend on the order, or the repetition, of the references. */
  lemma CandidatesIgnoreOrder(h: Heap, refs: seq<Reference>, refs': seq<Reference>, key: string)
    requires forall r :: r in refs <==> r in refs'
    ensures IsCandidate(h, refs, key) <==> IsCandidate(h, refs', key)
  {
    hide Reachable;
    forall n ensures Reachable(h, refs, n) <==> Reachable(h, refs', n) {
      ReachableByMembership(h, refs, refs', n);
      ReachableByMembership(h, refs', refs, n);
    }
  }

  /** The ids a type in the heap may queue; the worklist never holds others, nor one twice. */
  function QueueableIds(h: Heap): set<SymbolId> {
    set t | t in h.types && PendingId(h.types[t]).Some? :: PendingId(h.types[t]).value
  }

  ghost predicate Distinct<T>(s: seq<T>) {
    forall i, j :: 0 <= i < j < |s| ==> s[i] != s[j]
  }

  lemma {:induction false} DistinctFits<T>(s: seq<T>, all: set<T>)
    requires Distinct(s) && (forall x :: x in s ==> x in all)
    ensures |s| <= |all|
  {
    if s != [] {
      var last := s[|s| - 1];
      assert forall x :: x in s[..|s| - 1] ==> x in s && x != last;
      DistinctFits(s[..|s| - 1], all - {last});
    }
  }

  datatype Candidate = Candidate(name: string, exactFqn: Option<string>)

  class CandidateWalk {
    const h: Heap
    ghost const references: seq<Reference>
    var candidateNames: map<string, Candidate>
    var visitedTypes: set<TypeId>
    var pending: seq<SymbolId>              // pendingResolvedSymbolIds, in insertion order
    ghost var identified: set<SymbolId>

    ghost function Found(): Finds
      reads this
    {
      Finds(candidateNames.Keys, visitedTypes, (set s | s in pending), identified)
    }

    ghost predicate Valid()
      reads this
    {
      Sound(h, references, Found()) && Distinct(pending) && (forall s :: s in pending ==> s in QueueableIds(h))
    }

    constructor (h: Heap, ghost references: seq<Reference>)
      ensures this.h == h && this.references == references && Valid() && Found() == NOTHING && pending == []
    {
      this.h, this.references := h, references;
      candidateNames, visitedTypes, pending, identified := map[], {}, [], {};
    }

    method AddCandidate(name: Option<string>, exactFqn: Option<string>)
      modifies this`candidateNames
      ensures var key := CandidateKey(name, exactFqn);
              candidateNames.Keys == old(candidateNames).Keys + if key.Some? then {key.value} else {}
    {
      if !Truthy(name) {
        return;
      }
      if Lower(name.value) in EXCLUDED {
        return;
      }
      var key := Lower(if exactFqn.Some? then exactFqn.value else name.value);
      candidateNames := candidateNames[key := Candidate(name.value, exactFqn)];
    }

    /** `candidateNames` gains the key of a reachable node. */
    method FileNode(n: Node, name: Option<string>, exactFqn: Option<string>)
      requires Valid() && Reachable(h, references, n) && CandidateKey(name, exactFqn) == KeyOf(h, n)
      modifies this`candidateNames
      ensures Valid() && Within(old(Found()), Found()) && Filed(Found(), KeyOf(h, n))
      ensures Found() == old(Found()).(names := Found().names)
    {
      AddCandidate(name, exactFqn);
      assert KeyOf(h, n).Some? ==> IsCandidate(h, references, KeyOf(h, n).value);
    }

    method Queue(s: SymbolId)
      requires Valid() && s in QueueableIds(h) && (s in h.symbols ==> Reachable(h, references, SymbolAt(s)))
      modifies this`pending
      ensures Valid() && old(pending) <= pending && s in pending
      ensures Found() == old(Found()).(queued := old(Found()).queued + {s})
    {
      if s !in pending {
        pending := pending + [s];
      }
    }

    /** `addTypeInfoCandidate` */
    method AddTypeInfoCandidate(value: Option<TypeId>)
      requires Valid()
      requires value.Some? && value.value in h.types ==> Reachable(h, references, TypeAt(value.value))
      modifies this`candidateNames, this`visitedTypes, this`pending
      ensures Valid() && Within(old(Found()), Found()) && old(pending) <= pending
      ensures DoneSince(h, old(Found()), Found(), {})
      ensures value.Some? ==> Visited(h, Found(), value.value)
      decreases h.types.Keys - visitedTypes, 0
    {
      hide Reachable, IsCandidate, Sound, DoneSince, TypeDone, QueueableIds, Distinct;
      ghost var f0 := Found();
      if value.None? || value.value !in h.types || value.value in visitedTypes {
        NothingSince(h, f0, f0, {});
        return;
      }
      var t := value.value;
      var shape := h.types[t];
      visitedTypes := visitedTypes + {t};
      VisitKeepsSound(h, references, f0, t);
      NothingSince(h, f0, Found(), {t});
      if !shape.isArray && !shape.isPrimitive && !shape.isBuiltIn {
        FileNode(TypeAt(t), Or(ExactFqn(shape), shape.name), ExactFqn(shape));
        NothingSince(h, f0, Found(), {t});
      }
      AddChildren(t, shape, f0);
      if shape.resolvedSymbol.Some? && Truthy(shape.resolvedSymbol.value.id) {
        PendingReachable(h, references, t);
        ghost var f := Found();
        Queue(shape.resolvedSymbol.value.id.value);
        NothingSince(h, f, Found(), {});
        DoneGrows(h, f0, f, Found(), {t});
      }
      FinishType(h, Found(), t);
      CloseType(h, f0, Found(), t);
    }

    /** The part of `addTypeInfoCandidate` that follows a type's references to other types. */
    method AddChildren(t: TypeId, shape: TypeShape, ghost f0: Finds)
      requires Valid() && t in h.types && shape == h.types[t] && t in visitedTypes
      requires Within(f0, Found()) && DoneSince(h, f0, Found(), {t})
      modifies this`candidateNames, this`visitedTypes, this`pending
      ensures Valid() && Within(old(Found()), Found()) && old(pending) <= pending
      ensures DoneSince(h, f0, Found(), {t})
      ensures forall c :: ChildType(shape, c) ==> Visited(h, Found(), c)
      decreases h.types.Keys - visitedTypes, 1
    {
      hide Reachable, IsCandidate, DoneSince, TypeDone, QueueableIds, Distinct;
      ghost var f := Found();
      if shape.keyType.Some? {
        ChildReachable(h, references, t, shape.keyType.value);
      }
      AddTypeInfoCandidate(shape.keyType);
      DoneGrows(h, f0, f, Found(), {t});
      for i := 0 to |shape.typeParameters|
        invariant Valid() && Within(f, Found()) && old(pending) <= pending
        invariant DoneSince(h, f0, Found(), {t})
        invariant shape.keyType.Some? ==> Visited(h, Found(), shape.keyType.value)
        invariant forall j :: 0 <= j < i ==> Visited(h, Found(), shape.typeParameters[j])
      {
        ghost var fi := Found();
        ChildReachable(h, references, t, shape.typeParameters[i]);
        AddTypeInfoCandidate(Some(shape.typeParameters[i]));
        DoneGrows(h, f0, fi, Found(), {t});
      }
      ghost var fp := Found();
      if shape.resolvedType.Some? {
        ChildReachable(h, references, t, shape.resolvedType.value);
      }
      AddTypeInfoCandidate(shape.resolvedType);
      DoneGrows(h, f0, fp, Found(), {t});
    }

    /** `addResolvedSymbolType` */
    method AddResolvedSymbolType(s: Option<SymbolId>, includeSymbolIdentity: bool)
      requires Valid()
      requires s.Some? && s.value in h.symbols ==>
                 (includeSymbolIdentity ==> Reachable(h, references, SymbolAt(s.value)))
                 && (forall t :: SymbolType(h.symbols[s.value], t) && t in h.types ==> Reachable(h, references, TypeAt(t)))
      modifies this
      ensures Valid() && Within(old(Found()), Found()) && old(pending) <= pending
      ensures DoneSince(h, old(Found()), Found(), {})
      ensures IdentifiedDone(h, old(Found())) ==> IdentifiedDone(h, Found())
      ensures s.Some? ==> SymbolTypesDone(h, Found(), s.value)
      ensures s.Some? && includeSymbolIdentity ==> SymbolDone(h, Found(), s.value)
    {
      hide Reachable, IsCandidate, DoneSince, QueueableIds, Distinct, Sound, TypeDone;
      ghost var f0 := Found();
      NothingSince(h, f0, f0, {});
      if s.None? || s.value !in h.symbols {
        return;
      }
      var symbol := h.symbols[s.value];
      if includeSymbolIdentity {
        FileNode(SymbolAt(s.value), Or(symbol.fqn, Some(symbol.name)), symbol.fqn);
        NothingSince(h, f0, Found(), {});
      }
      ghost var f1 := Found();
      AddTypeInfoCandidate(symbol.declared);
      DoneGrows(h, f0, f1, Found(), {});
      ghost var f2 := Found();
      AddTypeInfoCandidate(symbol.returned);
      DoneGrows(h, f0, f2, Found(), {});
      if includeSymbolIdentity {
        identified := identified + {s.value};
        SoundIgnoresIdentified(h, references, Found(), f2.identified);
        NothingSince(h, Found().(identified := f2.identified), Found(), {});
        DoneGrows(h, f0, Found().(identified := f2.identified), Found(), {});
      }
      if IdentifiedDone(h, f0) {
        IdentifyMore(h, f0, Found(), s.value);
      }
    }

    /** What the walk does for a reference or chain node by itself. */
    method AddNode(n: ChainNode, chained: bool)
      requires Valid() && (forall root :: Contributes(h, n, chained, root) ==> Reachable(h, references, root))
      modifies this
      ensures Valid() && Within(old(Found()), Found()) && old(pending) <= pending
      ensures DoneSince(h, old(Found()), Found(), {})
      ensures IdentifiedDone(h, old(Found())) ==> IdentifiedDone(h, Found())
      ensures NodeDone(h, Found(), n, chained)
    {
      hide Reachable, IsCandidate, DoneSince, QueueableIds, Distinct, Sound, TypeDone, SymbolDone, SymbolTypesDone,
           IdentifiedDone;
      ghost var f0 := Found();
      NothingSince(h, f0, f0, {});
      if NamesType(n.context, chained) {
        FileNode(Named(n.name), Some(n.name), None);
        NothingSince(h, f0, Found(), {});
        IdentifiedStays(h, f0, Found());
      }
      ghost var f1 := Found();
      AddResolvedSymbolType(n.resolvedSymbolId, false);
      DoneGrows(h, f0, f1, Found(), {});
      ghost var f2 := Found();
      if n.resolvedTypeId.Some? && n.resolvedTypeId.value in h.symbols {
        assert Contributes(h, n, chained, SymbolAt(n.resolvedTypeId.value));
        SymbolTypesReachable(h, references, n.resolvedTypeId.value);
      }
      AddResolvedSymbolType(n.resolvedTypeId, true);
      DoneGrows(h, f0, f2, Found(), {});
      if n.resolvedSymbolId.Some? {
        SymbolTypesGrow(h, f2, Found(), n.resolvedSymbolId.value);
      }
    }

    method AddReference(r: Reference)
      requires Valid() && (forall root :: RootOf(h, r, root) ==> Reachable(h, references, root))
      modifies this
      ensures Valid() && Within(old(Found()), Found()) && old(pending) <= pending
      ensures DoneSince(h, old(Found()), Found(), {})
      ensures IdentifiedDone(h, old(Found())) ==> IdentifiedDone(h, Found())
      ensures ReferenceDone(h, Found(), r)
    {
      hide Reachable, IsCandidate, DoneSince, QueueableIds, Distinct, Sound, IdentifiedDone, NodeDone;
      ghost var f0 := Found();
      AddNode(Head(r), false);
      for j := 0 to |r.chainNodes|
        invariant Valid() && Within(f0, Found()) && old(pending) <= pending
        invariant DoneSince(h, f0, Found(), {})
        invariant IdentifiedDone(h, f0) ==> IdentifiedDone(h, Found())
        invariant NodeDone(h, Found(), Head(r), false)
        invariant forall k :: 0 <= k < j ==> NodeDone(h, Found(), r.chainNodes[k], true)
      {
        ghost var f := Found();
        AddNode(r.chainNodes[j], true);
        DoneGrows(h, f0, f, Found(), {});
        NodeGrows(h, f, Found(), Head(r), false);
        forall k | 0 <= k < j ensures NodeDone(h, Found(), r.chainNodes[k], true) {
          NodeGrows(h, f, Found(), r.chainNodes[k], true);
        }
      }
    }

    /** The walk from all references at the cursor: it ends, on any graph of types, and the keys it has
        found are exactly those of the reachable names, types and symbols. */
    method Walk(refs: seq<Reference>)
      requires refs == references && Valid() && Found() == NOTHING && pending == []
      modifies this
      ensures forall key :: key in candidateNames <==> IsCandidate(h, references, key)
    {
      hide Reachable, IsCandidate, DoneSince, Distinct, Sound, IdentifiedDone, ReferenceDone, SymbolDone, QueueableIds;
      StartDone(h);
      for i := 0 to |refs|
        invariant Valid() && DoneSince(h, NOTHING, Found(), {}) && IdentifiedDone(h, Found())
        invariant forall k :: 0 <= k < i ==> ReferenceDone(h, Found(), refs[k])
      {
        ghost var f := Found();
        forall root | RootOf(h, refs[i], root) ensures Reachable(h, references, root) {
          RootReachable(h, references, root);
        }
        AddReference(refs[i]);
        DoneGrows(h, NOTHING, f, Found(), {});
        forall k | 0 <= k < i ensures ReferenceDone(h, Found(), refs[k]) {
          ReferenceGrows(h, f, Found(), refs[k]);
        }
      }
      var i := 0;
      while i < |pending|
        invariant 0 <= i <= |pending|
        invariant Valid() && DoneSince(h, NOTHING, Found(), {}) && IdentifiedDone(h, Found())
        invariant forall k :: 0 <= k < |refs| ==> ReferenceDone(h, Found(), refs[k])
        invariant forall k :: 0 <= k < i ==> SymbolDone(h, Found(), pending[k])
        decreases |QueueableIds(h)| - i
      {
        ghost var f, before := Found(), pending;
        DistinctFits(pending, QueueableIds(h));
        assert pending[i] in pending;
        if pending[i] in h.symbols {
          QueuedReachable(h, references, Found(), pending[i]);
          SymbolTypesReachable(h, references, pending[i]);
        }
        AddResolvedSymbolType(Some(pending[i]), true);
        DoneGrows(h, NOTHING, f, Found(), {});
        forall k | 0 <= k < |refs| ensures ReferenceDone(h, Found(), refs[k]) {
          ReferenceGrows(h, f, Found(), refs[k]);
        }
        forall k | 0 <= k < i ensures SymbolDone(h, Found(), pending[k]) {
          assert pending[k] == before[k];
          SymbolGrows(h, f, Found(), before[k]);
        }
        DistinctFits(pending, QueueableIds(h));
        assert pending[i] == before[i];
        i := i + 1;
      }
      FoundExactlyCandidates(h, references, Found());
    }
  }
}
