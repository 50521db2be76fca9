/** All candidates of a cursor-dependency load: those of the walk, and, when the receiver needs its
    hierarchy, those of the enclosing type. */
module CursorCandidates {
  import opened Prelude
  import opened DependencyWalk
  import ParentChain
  import W = CandidateWalk

  const SUPER := "super"
  const SUPER_MEMBER := "super."

  /** A reference or chain node whose member may be declared in a supertype. */
  predicate NeedsHierarchy(n: ChainNode) {
    || Lower(n.name) == SUPER
    || SUPER_MEMBER <= Lower(n.name)
    || ((n.context.MethodCall? || n.context.FieldAccess?) && n.resolvedSymbolId.None?)
  }

  /** That is: `super`, alone or before a dot, in any case; or a call or field access that is not resolved. */
  lemma NeedsHierarchyExactly(n: ChainNode)
    ensures NeedsHierarchy(n) <==>
            || (&& |n.name| >= 5 && Lower(n.name[..5]) == ['s', 'u', 'p', 'e', 'r']
                && (|n.name| == 5 || n.name[5] == '.'))
            || (n.context in {MethodCall, FieldAccess} && n.resolvedSymbolId == None)
  {
    var lower := Lower(n.name);
    if |n.name| >= 5 {
      assert lower[..5] == Lower(n.name[..5]);
      if |n.name| > 5 {
        assert lower[5] == '.' <==> n.name[5] == '.';
        assert lower[..6] == lower[..5] + [lower[5]];
        assert SUPER_MEMBER == SUPER + ".";
      }
    }
  }

  /** Some reference at the cursor, or some node of its chain, does. */
  predicate ReceiverNeedsHierarchy(references: seq<Reference>) {
    exists r :: r in references && (NeedsHierarchy(Head(r)) || exists n :: n in r.chainNodes && NeedsHierarchy(n))
  }

  /** A key that the load should have a candidate under. */
  ghost predicate Wanted(h: Heap, references: seq<Reference>, symbols: ParentChain.Symbols, start: ParentChain.Id, key: string) {
    || IsCandidate(h, references, key)
    || (ReceiverNeedsHierarchy(references) && ParentChain.IsHierarchyKey(symbols, start, key))
  }

  /** The flattened references and nodes, in order. */
  function Flattened(references: seq<Reference>): seq<ChainNode> {
    if references == [] then []
    else Flattened(references[..|references| - 1]) + [Head(references[|references| - 1])] + references[|references| - 1].chainNodes
  }

  lemma {:induction false} FlattenedNodes(references: seq<Reference>)
    ensures forall n :: n in Flattened(references) <==>
              exists r :: r in references && (n == Head(r) || n in r.chainNodes)
  {
    if references != [] {
      var front, last := references[..|references| - 1], references[|references| - 1];
      FlattenedNodes(front);
      assert references == front + [last];
    }
  }

  method DecideHierarchy(references: seq<Reference>) returns (needed: bool)
    ensures needed == ReceiverNeedsHierarchy(references)
  {
    hide NeedsHierarchy;
    FlattenedNodes(references);
    var nodes := Flattened(references);
    for i := 0 to |nodes|
      invariant forall j :: 0 <= j < i ==> !NeedsHierarchy(nodes[j])
    {
      if NeedsHierarchy(nodes[i]) {
        assert nodes[i] in nodes;
        return true;
      }
    }
    forall r | r in references
      ensures !NeedsHierarchy(Head(r)) && forall n :: n in r.chainNodes ==> !NeedsHierarchy(n)
    {
      assert Head(r) in nodes;
      assert forall n :: n in r.chainNodes ==> n in nodes;
    }
    return false;
  }

  /** The load's candidates are exactly the wanted ones: found by reachability, and by the hierarchy exactly
      when the receiver needs it. */
  method Candidates(h: Heap, references: seq<Reference>, symbols: ParentChain.Symbols, start: ParentChain.Id)
    returns (keys: set<string>)
    ensures forall key :: key in keys <==> Wanted(h, references, symbols, start, key)
  {
    hide IsCandidate, ReceiverNeedsHierarchy, ParentChain.IsHierarchyKey;
    var walk := new W.CandidateWalk(h, references);
    walk.Walk(references);
    keys := walk.candidateNames.Keys;
    var needed := DecideHierarchy(references);
    if needed {
      var more := ParentChain.HierarchyCandidates(symbols, start);
      keys := keys + more;
    }
  }

  /** They do not depend on the order or repetition of the references. */
  lemma WantedIgnoresOrder(h: Heap, refs: seq<Reference>, refs': seq<Reference>,
                           symbols: ParentChain.Symbols, start: ParentChain.Id, key: string)
    requires forall r :: r in refs <==> r in refs'
    ensures Wanted(h, refs, symbols, start, key) <==> Wanted(h, refs', symbols, start, key)
  {
    hide IsCandidate, NeedsHierarchy;
    W.CandidatesIgnoreOrder(h, refs, refs', key);
  }
}
