/** The type that encloses the cursor: the first class or interface up a parent chain that may be
    cyclic or end in an unknown id; its superclass and interfaces are further candidates. */
module ParentChain {
  import opened DependencyWalk
  import opened Prelude

  type Id = string

  datatype Declaration = Declaration(isType: bool, parentId: Option<Id>, superClass: Option<string>, interfaces: seq<string>)

  type Symbols = map<Id, Declaration>

  function Up(symbols: Symbols, id: Option<Id>): Option<Id> {
    if id.Some? && id.value in symbols && symbols[id.value].parentId.Some? && symbols[id.value].parentId.value in symbols
    then symbols[id.value].parentId else None
  }

  /** The `k`-th ancestor of `start`, which is its own 0-th. */
  function Ancestor(symbols: Symbols, start: Id, k: nat): Option<Id> {
    if k == 0 then (if start in symbols then Some(start) else None) else Up(symbols, Ancestor(symbols, start, k - 1))
  }

  predicate IsType(symbols: Symbols, id: Option<Id>) {
    id.Some? && id.value in symbols && symbols[id.value].isType
  }

  /** `id` is the nearest ancestor that is a type. */
  ghost predicate Nearest(symbols: Symbols, start: Id, id: Id) {
    exists k :: NearestAt(symbols, start, id, k)
  }

  ghost predicate NearestAt(symbols: Symbols, start: Id, id: Id, k: nat) {
    && Ancestor(symbols, start, k) == Some(id) && IsType(symbols, Some(id))
    && (forall j :: 0 <= j < k ==> !IsType(symbols, Ancestor(symbols, start, j)))
  }

  /** Once the chain steps back into what it has passed, it stays there. */
  lemma {:induction false} ChainStaysInside(symbols: Symbols, start: Id, inside: set<Id>, k: nat)
    requires start in inside
    requires forall id :: id in inside ==> Up(symbols, Some(id)).Some? ==> Up(symbols, Some(id)).value in inside
    ensures Ancestor(symbols, start, k).Some? ==> Ancestor(symbols, start, k).value in inside
  {
    if k > 0 {
      ChainStaysInside(symbols, start, inside, k - 1);
    }
  }

  lemma NearestIsUnique(symbols: Symbols, start: Id, id: Id, id': Id)
    requires Nearest(symbols, start, id) && Nearest(symbols, start, id')
    ensures id == id'
  {
    hide Ancestor;
    var k: nat :| NearestAt(symbols, start, id, k);
    var k': nat :| NearestAt(symbols, start, id', k');
    assert k == k';
  }

  /** The walk ends on every table, cyclic or not, and finds the nearest enclosing type if there is one. */
  method EnclosingType(symbols: Symbols, start: Id) returns (found: Option<Id>)
    ensures found.Some? ==> Nearest(symbols, start, found.value)
    ensures found.None? ==> forall k :: !IsType(symbols, Ancestor(symbols, start, k))
  {
    var current := if start in symbols then Some(start) else None;
    var visited: set<Id> := {};
    ghost var k := 0;
    while current.Some? && current.value !in visited
      invariant current == Ancestor(symbols, start, k)
      invariant visited <= symbols.Keys && (current.Some? ==> current.value in symbols)
      invariant current.Some? || k > 0 || start !in symbols
      invariant k == 0 ==> visited == {}
      invariant k > 0 ==> start in visited
      invariant forall id :: id in visited ==> !symbols[id].isType
      invariant forall j :: 0 <= j < k ==> Ancestor(symbols, start, j).Some? && Ancestor(symbols, start, j).value in visited
      invariant forall id :: id in visited ==>
                  Up(symbols, Some(id)) == current || (Up(symbols, Some(id)).Some? && Up(symbols, Some(id)).value in visited)
      decreases symbols.Keys - visited
    {
      visited := visited + {current.value};
      if symbols[current.value].isType {
        assert NearestAt(symbols, start, current.value, k);
        return current;
      }
      ghost var here := current;
      var parent := symbols[current.value].parentId;
      current := if parent.Some? && parent.value in symbols then parent else None;
      assert current == Up(symbols, here) == Ancestor(symbols, start, k + 1);
      k := k + 1;
    }
    forall j: nat ensures !IsType(symbols, Ancestor(symbols, start, j)) {
      if start in symbols {
        ChainStaysInside(symbols, start, visited, j);
      } else {
        ChainStaysInside(symbols, start, {start}, j);
      }
    }
    return None;
  }

  /** A key that the superclass or an interface of the declaration is filed under. */
  ghost predicate HierarchyKey(d: Declaration, key: string) {
    || CandidateKey(d.superClass, None) == Some(key)
    || exists i :: 0 <= i < |d.interfaces| && CandidateKey(Some(d.interfaces[i]), None) == Some(key)
  }

  /** That is the lower-case name of the superclass or of any interface, unless it is unusable. */
  lemma HierarchyKeyExactly(d: Declaration, key: string)
    ensures HierarchyKey(d, key) <==>
            exists name :: (d.superClass == Some(name) || name in d.interfaces) && !Unusable(name) && Lower(name) == key
  {
    hide Lower;
    if i :| 0 <= i < |d.interfaces| && CandidateKey(Some(d.interfaces[i]), None) == Some(key) {
      assert d.interfaces[i] in d.interfaces;
    }
    if name :| name in d.interfaces && !Unusable(name) && Lower(name) == key {
      var i :| 0 <= i < |d.interfaces| && d.interfaces[i] == name;
    }
  }

  ghost predicate IsHierarchyKey(symbols: Symbols, start: Id, key: string) {
    exists id :: id in symbols && Nearest(symbols, start, id) && HierarchyKey(symbols[id], key)
  }

  function Keyed(key: Option<string>): set<string> { if key.Some? then {key.value} else {} }

  /** The receiver hierarchy adds exactly the keys of the nearest enclosing type's superclass and
      interfaces, and nothing when no type encloses the cursor. */
  method HierarchyCandidates(symbols: Symbols, start: Id) returns (keys: set<string>)
    ensures forall key :: key in keys <==> IsHierarchyKey(symbols, start, key)
  {
    hide Ancestor, CandidateKey;
    keys := {};
    var found := EnclosingType(symbols, start);
    if found.None? {
      return;
    }
    assert found.value in symbols by {
      var k: nat :| NearestAt(symbols, start, found.value, k);
    }
    var d := symbols[found.value];
    keys := Keyed(CandidateKey(d.superClass, None));
    for i := 0 to |d.interfaces|
      invariant forall key :: key in keys <==>
                  || CandidateKey(d.superClass, None) == Some(key)
                  || exists j :: 0 <= j < i && CandidateKey(Some(d.interfaces[j]), None) == Some(key)
    {
      keys := keys + Keyed(CandidateKey(Some(d.interfaces[i]), None));
    }
    forall key ensures key in keys <==> IsHierarchyKey(symbols, start, key) {
      if id :| id in symbols && Nearest(symbols, start, id) && HierarchyKey(symbols[id], key) {
        NearestIsUnique(symbols, start, id, found.value);
      }
    }
  }
}
