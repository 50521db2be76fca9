/** Which types take part in the expression at the cursor: a depth-first walk over a possibly cyclic
    graph of types, feeding a worklist of resolved symbols.

    Types are heap objects, named here by their identity; symbols are looked up by id.  The resolved ids of
    a reference are None when absent or empty. */
module DependencyWalk {
  import opened Prelude

  type TypeId = nat
  type SymbolId = string

  datatype ResolvedSymbol = ResolvedSymbol(id: Option<SymbolId>, fqn: Option<string>)

  datatype TypeShape = TypeShape(
    name: Option<string>,
    isArray: bool, isPrimitive: bool, isBuiltIn: bool,
    namespace: Option<string>,
    keyType: Option<TypeId>,
    typeParameters: seq<TypeId>,
    resolvedType: Option<TypeId>,
    resolvedSymbol: Option<ResolvedSymbol>)

  datatype SymbolShape = SymbolShape(name: string, fqn: Option<string>, declared: Option<TypeId>, returned: Option<TypeId>)

  datatype Heap = Heap(types: map<TypeId, TypeShape>, symbols: map<SymbolId, SymbolShape>)

  datatype Context =
    | ClassReference
    | ConstructorCall
    | TypeDeclaration
    | Inheritance
    | InterfaceImplementation
    | MethodCall
    | FieldAccess
    | OtherContext

  datatype Reference = Reference(
    name: string,
    context: Context,
    resolvedSymbolId: Option<SymbolId>,
    resolvedTypeId: Option<SymbolId>,
    chainNodes: seq<ChainNode>)

  datatype ChainNode = ChainNode(
    name: string,
    context: Context,
    resolvedSymbolId: Option<SymbolId>,
    resolvedTypeId: Option<SymbolId>)

  // -- Names -----------------------------------------------------------------------------

  const EXCLUDED := {"this", "super", "unknown", "void", "null"}

  /** The key `addCandidate` files a name under, if it accepts it. */
  function CandidateKey(name: Option<string>, exactFqn: Option<string>): Option<string> {
    if name.None? || name.value == "" || Lower(name.value) in EXCLUDED then None
    else Some(Lower(if exactFqn.Some? then exactFqn.value else name.value))
  }

  function Or<T>(a: Option<T>, b: Option<T>): Option<T> { if a.Some? then a else b }

  /** A JavaScript string that counts as true. */
  predicate Truthy(s: Option<string>) { s.Some? && s.value != "" }

  function ExactFqn(t: TypeShape): Option<string> {
    var structured := if Truthy(t.namespace) && Truthy(t.name) then Some(t.namespace.value + "." + t.name.value) else None;
    Or(if t.resolvedSymbol.Some? then t.resolvedSymbol.value.fqn else None, structured)
  }

  function TypeKey(t: TypeShape): Option<string> {
    if t.isArray || t.isPrimitive || t.isBuiltIn then None else CandidateKey(Or(ExactFqn(t), t.name), ExactFqn(t))
  }

  function SymbolKey(s: SymbolShape): Option<string> { CandidateKey(Or(s.fqn, Some(s.name)), s.fqn) }

  /** A name that `addCandidate` turns away. */
  predicate Unusable(name: string) {
    name == "" || Lower(name) in ["this", "super", "unknown", "void", "null"]
  }

  /** A type is filed under its resolved symbol's qualified name; without one under its namespace and name if
      both are there; else under its name; and not at all when that is unusable, or the type is an array, a
      primitive or built in. */
  lemma KeyOfType(t: TypeShape)
    ensures (t.isArray || t.isPrimitive || t.isBuiltIn) ==> TypeKey(t).None?
    ensures !(t.isArray || t.isPrimitive || t.isBuiltIn) ==>
              match (t.resolvedSymbol, t.namespace, t.name)
              case (Some(ResolvedSymbol(_, Some(fqn))), _, _) => TypeKey(t) == if Unusable(fqn) then None else Some(Lower(fqn))
              case (_, Some(namespace), Some(name)) =>
                var plain := namespace == "" || name == "";
                var key := if plain then name else namespace + "." + name;
                TypeKey(t) == if Unusable(key) then None else Some(Lower(key))
              case (_, None, Some(name)) => TypeKey(t) == if Unusable(name) then None else Some(Lower(name))
              case _ => TypeKey(t).None?
  {
    hide Lower;
  }

  /** A symbol is filed under its qualified name, or else under its name. */
  lemma KeyOfSymbol(s: SymbolShape)
    ensures var name := match s.fqn case Some(fqn) => fqn case None => s.name;
            SymbolKey(s) == if Unusable(name) then None else Some(Lower(name))
  {
    hide Lower;
  }

  // -- Reachability ----------------------------------------------------------------------

  datatype Node = Named(name: string) | TypeAt(t: TypeId) | SymbolAt(s: SymbolId)

  function KeyOf(h: Heap, n: Node): Option<string> {
    match n
    case Named(name) => CandidateKey(Some(name), None)
    case TypeAt(t) => if t in h.types then TypeKey(h.types[t]) else None
    case SymbolAt(s) => if s in h.symbols then SymbolKey(h.symbols[s]) else None
  }

  function PendingId(t: TypeShape): Option<SymbolId> {
    if t.resolvedSymbol.Some? && Truthy(t.resolvedSymbol.value.id) then t.resolvedSymbol.value.id else None
  }

  /** `child` is one of the types a type refers to. */
  predicate ChildType(t: TypeShape, child: TypeId) {
    t.keyType == Some(child) || child in t.typeParameters || t.resolvedType == Some(child)
  }

  predicate SymbolType(s: SymbolShape, t: TypeId) {
    s.declared == Some(t) || s.returned == Some(t)
  }

  /** One step of reachability: key types, type parameters, resolved types and resolved symbols of a
      type, and the declared and return types of a symbol. */
  predicate Edge(h: Heap, a: Node, b: Node) {
    match a
    case Named(_) => false
    case TypeAt(t) =>
      t in h.types
      && ((b.TypeAt? && b.t in h.types && ChildType(h.types[t], b.t))
          || (b.SymbolAt? && b.s in h.symbols && PendingId(h.types[t]) == Some(b.s)))
    case SymbolAt(s) => s in h.symbols && b.TypeAt? && b.t in h.types && SymbolType(h.symbols[s], b.t)
  }

  predicate NamesType(c: Context, chained: bool) {
    c.ClassReference? || c.ConstructorCall? || c.TypeDeclaration? || (!chained && (c.Inheritance? || c.InterfaceImplementation?))
  }

  /** What a reference or chain node contributes by itself: its name, the types of the symbol it
      resolves to, and the symbol its type resolves to. */
  predicate Contributes(h: Heap, n: ChainNode, chained: bool, root: Node) {
    || (root == Named(n.name) && NamesType(n.context, chained))
    || (root.TypeAt? && root.t in h.types && n.resolvedSymbolId.Some? && n.resolvedSymbolId.value in h.symbols
        && SymbolType(h.symbols[n.resolvedSymbolId.value], root.t))
    || (root.SymbolAt? && root.s in h.symbols && n.resolvedTypeId == Some(root.s))
  }

  function Head(r: Reference): ChainNode { ChainNode(r.name, r.context, r.resolvedSymbolId, r.resolvedTypeId) }

  predicate RootOf(h: Heap, r: Reference, root: Node) {
    Contributes(h, Head(r), false, root) || exists j :: 0 <= j < |r.chainNodes| && Contributes(h, r.chainNodes[j], true, root)
  }

  predicate IsRoot(h: Heap, references: seq<Reference>, root: Node) {
    exists r :: r in references && RootOf(h, r, root)
  }

  ghost predicate IsPath(h: Heap, references: seq<Reference>, path: seq<Node>) {
    && path != [] && IsRoot(h, references, path[0])
    && (forall i :: 0 <= i < |path| - 1 ==> Edge(h, path[i], path[i + 1]))
  }

  ghost predicate Reachable(h: Heap, references: seq<Reference>, n: Node) {
    exists path :: IsPath(h, references, path) && path[|path| - 1] == n
  }

  /** A key the walk should find: that of some reachable name, type or symbol. */
  ghost predicate IsCandidate(h: Heap, references: seq<Reference>, key: string) {
    exists n :: Reachable(h, references, n) && KeyOf(h, n) == Some(key)
  }

  lemma RootReachable(h: Heap, references: seq<Reference>, n: Node)
    requires IsRoot(h, references, n)
    ensures Reachable(h, references, n)
  {
    assert IsPath(h, references, [n]);
  }

  lemma EdgeReachable(h: Heap, references: seq<Reference>, a: Node, b: Node)
    requires Reachable(h, references, a) && Edge(h, a, b)
    ensures Reachable(h, references, b)
  {
    hide IsRoot, Edge;
    var path :| IsPath(h, references, path) && path[|path| - 1] == a;
    assert IsPath(h, references, path + [b]);
  }

  /** Reachability depends on which references there are, not on their order or number. */
  lemma ReachableByMembership(h: Heap, refs: seq<Reference>, refs': seq<Reference>, n: Node)
    requires forall r :: r in refs ==> r in refs'
    ensures Reachable(h, refs, n) ==> Reachable(h, refs', n)
  {
    hide Edge, RootOf;
    if Reachable(h, refs, n) {
      var path :| IsPath(h, refs, path) && path[|path| - 1] == n;
      assert IsPath(h, refs', path);
    }
  }

  // -- Reachability as a least set -------------------------------------------------------

  /** The set has what a reference or chain node contributes: its name where the context names a type, the
      types of its symbol, and the symbol of its type. */
  ghost predicate TakesUp(h: Heap, n: ChainNode, names: bool, found: iset<Node>) {
    && (names ==> Named(n.name) in found)
    && (n.resolvedSymbolId.Some? && n.resolvedSymbolId.value in h.symbols ==>
          HasTypes(h, h.symbols[n.resolvedSymbolId.value], found))
    && (n.resolvedTypeId.Some? && n.resolvedTypeId.value in h.symbols ==> SymbolAt(n.resolvedTypeId.value) in found)
  }

  ghost predicate HasTypes(h: Heap, s: SymbolShape, found: iset<Node>) {
    && (s.declared.Some? && s.declared.value in h.types ==> TypeAt(s.declared.value) in found)
    && (s.returned.Some? && s.returned.value in h.types ==> TypeAt(s.returned.value) in found)
  }

  ghost predicate HasRoots(h: Heap, references: seq<Reference>, found: iset<Node>) {
    forall r :: r in references ==>
      && TakesUp(h, Head(r), r.context in {ClassReference, ConstructorCall, TypeDeclaration, Inheritance, InterfaceImplementation},
                 found)
      && forall n :: n in r.chainNodes ==> TakesUp(h, n, n.context in {ClassReference, ConstructorCall, TypeDeclaration}, found)
  }

  /** The set has whatever its types and symbols refer to in the heap. */
  ghost predicate Closed(h: Heap, found: iset<Node>) {
    && (forall t :: TypeAt(t) in found && t in h.types ==> HasChildren(h, h.types[t], found))
    && (forall s :: SymbolAt(s) in found && s in h.symbols ==> HasTypes(h, h.symbols[s], found))
  }

  ghost predicate HasChildren(h: Heap, t: TypeShape, found: iset<Node>) {
    && (t.keyType.Some? && t.keyType.value in h.types ==> TypeAt(t.keyType.value) in found)
    && (forall c :: c in t.typeParameters && c in h.types ==> TypeAt(c) in found)
    && (t.resolvedType.Some? && t.resolvedType.value in h.types ==> TypeAt(t.resolvedType.value) in found)
    && (match t.resolvedSymbol
        case Some(ResolvedSymbol(Some(id), _)) => id != "" && id in h.symbols ==> SymbolAt(id) in found
        case _ => true)
  }

  lemma {:induction false} PathIsWithin(h: Heap, references: seq<Reference>, found: iset<Node>, path: seq<Node>, i: nat)
    requires HasRoots(h, references, found) && Closed(h, found) && IsPath(h, references, path) && i < |path|
    ensures path[i] in found
  {
    if i > 0 {
      PathIsWithin(h, references, found, path, i - 1);
      EdgeIsWithin(h, found, path[i - 1], path[i]);
    } else {
      RootIsWithin(h, references, found, path[0]);
    }
  }

  lemma EdgeIsWithin(h: Heap, found: iset<Node>, a: Node, b: Node)
    requires Closed(h, found) && a in found && Edge(h, a, b)
    ensures b in found
  {
  }

  lemma RootIsWithin(h: Heap, references: seq<Reference>, found: iset<Node>, root: Node)
    requires HasRoots(h, references, found) && IsRoot(h, references, root)
    ensures root in found
  {
  }

  ghost function ReachableSet(h: Heap, references: seq<Reference>): iset<Node> {
    iset n: Node | Reachable(h, references, n)
  }

  lemma ReachableTypes(h: Heap, references: seq<Reference>, t: TypeId)
    requires t in h.types && Reachable(h, references, TypeAt(t))
    ensures HasChildren(h, h.types[t], ReachableSet(h, references))
  {
    hide Reachable;
    forall b: Node | Edge(h, TypeAt(t), b) ensures b in ReachableSet(h, references) {
      EdgeReachable(h, references, TypeAt(t), b);
    }
    assert forall c :: ChildType(h.types[t], c) && c in h.types ==> Edge(h, TypeAt(t), TypeAt(c));
  }

  lemma ReachableSymbols(h: Heap, references: seq<Reference>, s: SymbolId)
    requires s in h.symbols && Reachable(h, references, SymbolAt(s))
    ensures HasTypes(h, h.symbols[s], ReachableSet(h, references))
  {
    hide Reachable;
    forall b: Node | Edge(h, SymbolAt(s), b) ensures b in ReachableSet(h, references) {
      EdgeReachable(h, references, SymbolAt(s), b);
    }
    assert forall t :: SymbolType(h.symbols[s], t) && t in h.types ==> Edge(h, SymbolAt(s), TypeAt(t));
  }

  lemma ReachableRoots(h: Heap, references: seq<Reference>)
    ensures HasRoots(h, references, ReachableSet(h, references))
  {
    hide Reachable;
    forall root | IsRoot(h, references, root) ensures root in ReachableSet(h, references) {
      RootReachable(h, references, root);
    }
    forall r, n | r in references && n in r.chainNodes
      ensures TakesUp(h, n, n.context in {ClassReference, ConstructorCall, TypeDeclaration}, ReachableSet(h, references))
    {
      var j :| 0 <= j < |r.chainNodes| && r.chainNodes[j] == n;
      assert forall root :: Contributes(h, n, true, root) ==> RootOf(h, r, root);
      assert NamesType(n.context, true) ==> Contributes(h, n, true, Named(n.name));
    }
  }

  /** What is reachable is the least set with what the references contribute and closed under what types
      and symbols refer to. */
  lemma ReachableIsLeast(h: Heap, references: seq<Reference>)
    ensures HasRoots(h, references, ReachableSet(h, references)) && Closed(h, ReachableSet(h, references))
    ensures forall found :: HasRoots(h, references, found) && Closed(h, found) ==> ReachableSet(h, references) <= found
  {
    hide Edge, IsRoot, HasRoots, HasTypes, HasChildren;
    ReachableRoots(h, references);
    forall t | TypeAt(t) in ReachableSet(h, references) && t in h.types
      ensures HasChildren(h, h.types[t], ReachableSet(h, references))
    {
      ReachableTypes(h, references, t);
    }
    forall s | SymbolAt(s) in ReachableSet(h, references) && s in h.symbols
      ensures HasTypes(h, h.symbols[s], ReachableSet(h, references))
    {
      ReachableSymbols(h, references, s);
    }
    forall found, n | HasRoots(h, references, found) && Closed(h, found) && n in ReachableSet(h, references) ensures n in found {
      var path :| IsPath(h, references, path) && path[|path| - 1] == n;
      PathIsWithin(h, references, found, path, |path| - 1);
    }
  }
}
