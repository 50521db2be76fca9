/** The optimized enum builder: the plain one, which besides keeps each number in a hidden property and
    refuses numbers that do not fit in 32 bits. */
module OptimizedEnumUtils {
  import opened EnumInverse
  import opened EnumUtils
  import opened Prelude

  const PREFIX := "__optimized_"
  const MAX_UINT32 := 4294967295

  predicate Hidden(name: string) { PREFIX <= name }

  /** The narrowest type that takes the number, if there is one. */
  datatype Width = Uint8 | Uint16 | Uint32

  function OptimalNumericType(n: int): Option<Width> {
    if 0 <= n <= 255 then Some(Uint8)
    else if 0 <= n <= 65535 then Some(Uint16)
    else if 0 <= n <= MAX_UINT32 then Some(Uint32)
    else None
  }

  /** The largest number a width takes. */
  function Largest(w: Width): nat {
    match w
    case Uint8 => 0xFF
    case Uint16 => 0xFFFF
    case Uint32 => 0xFFFF_FFFF
  }

  /** The type chosen takes the number, no narrower one does, and there is one for every number that some
      type takes. */
  lemma OptimalIsNarrowest(n: int)
    ensures OptimalNumericType(n).None? <==> forall w :: !(0 <= n <= Largest(w))
    ensures OptimalNumericType(n).Some? ==>
              && 0 <= n <= Largest(OptimalNumericType(n).value)
              && forall w :: 0 <= n <= Largest(w) ==> Largest(OptimalNumericType(n).value) <= Largest(w)
  {
    assert Largest(Uint8) < Largest(Uint16) < Largest(Uint32) == MAX_UINT32;
  }

  predicate Fits(v: Value) { v.Number? ==> 0 <= v.n <= MAX_UINT32 }

  function PutOptimized(o: Object, key: string, v: Value): (r: Object)
    ensures Consistent(o) ==> Consistent(r)
  {
    PutPair(if v.Number? then Put(o, PREFIX + key, Plain(v)) else o, key, v)
  }

  /** The object built, or none when a number does not fit. */
  function BuildOptimized(es: seq<Entry>): (r: Option<Object>)
    ensures r.Some? ==> Consistent(r.value)
  {
    if es == [] then Some(EMPTY)
    else
      var n := |es| - 1;
      var front, v := BuildOptimized(es[..n]), ValuesOf(es)[n];
      if front.Some? && Fits(v) then Some(PutOptimized(front.value, es[n].key, v)) else None
  }

  function DefinedOptimized(es: seq<Entry>): (r: Option<Object>)
    ensures r.Some? ==> Consistent(r.value)
  {
    var o := BuildOptimized(es);
    if o.Some? then Some(Sealed(o.value, Keys(es), ValuesOf(es))) else None
  }

  ghost predicate OptimizedFrom(es: seq<Entry>, i: nat, o: Object, keys: seq<string>, values: seq<Value>, used: set<Value>)
    requires i <= |es|
  {
    && BuildOptimized(es[..i]) == Some(o) && keys == Keys(es[..i])
    && values == ValuesOf(es)[..i] && used == Used(values)
  }

  lemma {:induction false} OneMoreOptimized(es: seq<Entry>, i: nat, o: Object, keys: seq<string>, values: seq<Value>,
                                            used: set<Value>, v: Value)
    requires i < |es| && OptimizedFrom(es, i, o, keys, values, used)
    requires v == if es[i].val.Some? then es[i].val.value else Number(FirstFree(used, i))
    ensures v == ValuesOf(es)[i]
    ensures Fits(v) ==> OptimizedFrom(es, i + 1, PutOptimized(o, es[i].key, v), keys + [es[i].key], values + [v], used + {v})
  {
    hide ValuesOf, PutOptimized, FirstFree;
    ValueAt(es, i);
    ValuesOfPrefix(es, i + 1);
    var upTo := es[..i + 1];
    assert upTo[..i] == es[..i] && upTo[i] == es[i] && ValuesOf(upTo)[i] == v;
    assert Keys(upTo) == keys + [es[i].key];
  }

  lemma {:induction false} OptimizedAtStart(es: seq<Entry>)
    ensures OptimizedFrom(es, 0, EMPTY, [], [], {})
  {
  }

  lemma {:induction false} OptimizedAtEnd(es: seq<Entry>, o: Object, keys: seq<string>, values: seq<Value>, used: set<Value>)
    requires OptimizedFrom(es, |es|, o, keys, values, used)
    ensures DefinedOptimized(es) == Some(Sealed(o, keys, values))
  {
    hide BuildOptimized, ValuesOf, Keys, Sealed;
    assert es[..|es|] == es && ValuesOf(es)[..|es|] == ValuesOf(es);
  }

  /** `defineOptimizedEnum`; none when it throws. */
  method DefineOptimizedEnum(entries: seq<Entry>) returns (e: Option<Object>)
    ensures e == DefinedOptimized(entries)
  {
    hide Put, FirstFree, DefinedOptimized, OptimizedFrom, ValuesOf, Sealed, Name;
    var result, keys, values := EMPTY, [], [];
    var usedValues: set<Value> := {};
    OptimizedAtStart(entries);
    for i := 0 to |entries|
      invariant OptimizedFrom(entries, i, result, keys, values, usedValues)
    {
      var value;
      if entries[i].val.Some? {
        value := entries[i].val.value;
        OneMoreOptimized(entries, i, result, keys, values, usedValues, value);
        if value.Number? {
          if OptimalNumericType(value.n).None? {
            Throws(entries, i);
            return None;
          }
          result := Put(result, PREFIX + entries[i].key, Plain(value));
        }
      } else {
        var index := i;
        while Number(index) in usedValues
          invariant i <= index <= FirstFree(usedValues, i)
          decreases FirstFree(usedValues, i) - index
        {
          index := index + 1;
        }
        value := Number(index);
        OneMoreOptimized(entries, i, result, keys, values, usedValues, value);
        if OptimalNumericType(index).None? {
          Throws(entries, i);
          return None;
        }
        result := Put(result, PREFIX + entries[i].key, Plain(value));
      }
      result := Put(result, entries[i].key, Plain(value));
      result := Put(result, Name(value), Plain(Text(entries[i].key)));
      keys := keys + [entries[i].key];
      values := values + [value];
      usedValues := usedValues + {value};
    }
    OptimizedAtEnd(entries, result, keys, values, usedValues);
    e := Some(Sealed(result, keys, values));
  }

  ghost predicate AllFit(vs: seq<Value>) { forall i :: 0 <= i < |vs| ==> Fits(vs[i]) }

  lemma {:induction false} BuiltExactlyWhenAllFit(es: seq<Entry>)
    ensures BuildOptimized(es).Some? <==> AllFit(ValuesOf(es))
  {
    hide ValuesOf, PutOptimized, Fits;
    if es != [] {
      var n := |es| - 1;
      BuiltExactlyWhenAllFit(es[..n]);
      ValuesOfPrefix(es, n);
      var vs := ValuesOf(es);
      assert vs == vs[..n] + [vs[n]];
      assert AllFit(vs) <==> AllFit(vs[..n]) && Fits(vs[n]);
    }
  }

  /** It throws exactly when some number, given or by default, is negative or beyond 32 bits. */
  lemma {:induction false} ThrowsExactlyBeyondUint32(es: seq<Entry>)
    ensures DefinedOptimized(es).None? <==>
            exists i :: 0 <= i < |es| && ValuesOf(es)[i].Number? && !(0 <= ValuesOf(es)[i].n <= 4_294_967_295)
  {
    hide ValuesOf, BuildOptimized;
    BuiltExactlyWhenAllFit(es);
  }

  lemma {:induction false} Throws(es: seq<Entry>, i: nat)
    requires i < |es| && !Fits(ValuesOf(es)[i])
    ensures DefinedOptimized(es) == None
  {
    hide ValuesOf, Fits, BuildOptimized;
    BuiltExactlyWhenAllFit(es);
  }

  // -- Agreement with the plain builder --------------------------------------------------

  function Open(): string -> bool { (name: string) => !Hidden(name) }

  /** The same properties in the same order, hidden ones aside. */
  ghost predicate Alike(o: Object, plain: Object) {
    && Filter(Open(), o.names) == Filter(Open(), plain.names)
    && forall name :: !Hidden(name) ==>
         (name in o.props <==> name in plain.props) && (name in plain.props ==> o.props[name] == plain.props[name])
  }

  lemma {:induction false} PutAlike(o: Object, plain: Object, name: string, c: Property)
    requires Alike(o, plain)
    ensures Alike(Put(o, name, c), Put(plain, name, c))
    ensures Hidden(name) ==> Alike(Put(o, name, c), plain)
  {
    hide Filter;
    FilterMore(Open(), o.names, name);
    FilterMore(Open(), plain.names, name);
  }

  /** For every list of entries that the optimized builder accepts: apart from its hidden properties it
      defines the same object as the plain builder, in both directions and in the same order. */
  lemma {:induction false} OptimizedIsAlike(es: seq<Entry>)
    requires DefinedOptimized(es).Some?
    ensures Alike(DefinedOptimized(es).value, Defined(es))
  {
    hide Put, Alike;
    BuiltAlike(es);
    var o, plain := BuildOptimized(es).value, Build(es);
    var ks, vs := KeySchema(Keys(es)), ValueSchema(ValuesOf(es));
    PutAlike(o, plain, "keySchema", ks);
    PutAlike(Put(o, "keySchema", ks), Put(plain, "keySchema", ks), "valueSchema", vs);
  }

  lemma {:induction false} BuiltAlike(es: seq<Entry>)
    requires BuildOptimized(es).Some?
    ensures Alike(BuildOptimized(es).value, Build(es))
  {
    hide Put, Alike, ValuesOf;
    if es == [] {
      AlikeToItself(EMPTY);
    } else {
      var n := |es| - 1;
      var key, v := es[n].key, ValuesOf(es)[n];
      BuiltAlike(es[..n]);
      var o, plain := BuildOptimized(es[..n]).value, Build(es[..n]);
      var o' := if v.Number? then Put(o, PREFIX + key, Plain(v)) else o;
      PutAlike(o, plain, PREFIX + key, Plain(v));
      PutAlike(o', plain, key, Plain(v));
      PutAlike(Put(o', key, Plain(v)), Put(plain, key, Plain(v)), Name(v), Plain(Text(key)));
    }
  }

  lemma AlikeToItself(o: Object)
    ensures Alike(o, o)
  {
  }

  // -- Keys that look like hidden properties ----------------------------------------------

  /** The hidden property of entry `j` is stored under the key of the earlier entry `i`. */
  predicate Shadows(es: seq<Entry>, i: nat, j: nat) {
    i < j < |es| && es[i].key == PREFIX + es[j].key && ValuesOf(es)[j].Number?
  }

  /** No key is the prefix plus a later key with a different number. */
  ghost predicate NoneShadowed(es: seq<Entry>) {
    forall i, j :: 0 <= i < |es| && 0 <= j < |es| && Shadows(es, i, j) ==> ValuesOf(es)[i] == ValuesOf(es)[j]
  }

  lemma {:induction false} PutOptimizedMaps(o: Object, key: string, v: Value)
    requires Name(v) != key
    ensures var r := PutOptimized(o, key, v);
            && KeyMaps(r, key, v)
            && (forall name :: name != key && name != Name(v) && name != PREFIX + key ==>
                  (name in o.props <==> name in r.props) && (name in o.props ==> r.props[name] == o.props[name]))
            && (v.Number? && Name(v) != PREFIX + key ==> KeyMaps(r, PREFIX + key, v))
            && (!v.Number? && PREFIX + key != Name(v) ==>
                  (PREFIX + key in o.props <==> PREFIX + key in r.props)
                  && (PREFIX + key in o.props ==> r.props[PREFIX + key] == o.props[PREFIX + key]))
  {
    assert |PREFIX + key| > |key|;
  }

  /** Keys differ, so only one entry's hidden property can be stored under a key. */
  lemma {:induction false} ShadowsOnce(es: seq<Entry>, i: nat, n: nat)
    requires DistinctKeys(es) && n < |es| && Shadows(es, i, n)
    ensures forall j :: 0 <= j < |es| && Shadows(es, i, j) ==> j == n
  {
    hide ValuesOf;
    forall j | 0 <= j < |es| && Shadows(es, i, j) ensures j == n {
      assert (PREFIX + es[j].key)[|PREFIX|..] == es[j].key;
      assert (PREFIX + es[n].key)[|PREFIX|..] == es[n].key;
    }
  }

  /** The last entry leaves an earlier key alone unless its hidden property is stored there. */
  lemma {:induction false} LastLeavesKey(es: seq<Entry>, i: nat, v: Value)
    requires KeysApart(es) && BuildOptimized(es).Some? && i < |es| - 1 && !Shadows(es, i, |es| - 1)
    requires KeyMaps(BuildOptimized(es[..|es| - 1]).value, es[i].key, v)
    ensures KeyMaps(BuildOptimized(es).value, es[i].key, v)
  {
    hide ValuesOf, Name, PutOptimized;
    var n := |es| - 1;
    PutOptimizedMaps(BuildOptimized(es[..n]).value, es[n].key, ValuesOf(es)[n]);
  }

  lemma {:induction false} ShadowsPrefix(es: seq<Entry>, i: nat, j: nat)
    requires j < |es| - 1
    ensures Shadows(es[..|es| - 1], i, j) <==> Shadows(es, i, j)
  {
    hide ValuesOf;
    ValuesOfPrefix(es, |es| - 1);
  }

  /** A key keeps its value when no later entry's hidden property is stored under it. */
  lemma {:induction false} KeyKept(es: seq<Entry>, i: nat)
    requires KeysApart(es) && BuildOptimized(es).Some? && i < |es|
    requires forall j :: 0 <= j < |es| ==> !Shadows(es, i, j)
    ensures KeyMaps(BuildOptimized(es).value, es[i].key, ValuesOf(es)[i])
  {
    hide ValuesOf, Name, PutOptimized, KeyMaps, Shadows;
    var n := |es| - 1;
    if i == n {
      PutOptimizedMaps(BuildOptimized(es[..n]).value, es[n].key, ValuesOf(es)[n]);
    } else {
      ApartPrefix(es, n);
      forall j | 0 <= j < n ensures !Shadows(es[..n], i, j) {
        ShadowsPrefix(es, i, j);
      }
      KeyKept(es[..n], i);
      ValuesOfPrefix(es, n);
      hide KeysApart;
      LastLeavesKey(es, i, ValuesOf(es)[i]);
    }
  }

  /** Otherwise it has that entry's number. */
  lemma {:induction false} KeyShadowed(es: seq<Entry>, i: nat, j: nat)
    requires KeysApart(es) && BuildOptimized(es).Some? && i < |es| && Shadows(es, i, j)
    ensures KeyMaps(BuildOptimized(es).value, es[i].key, ValuesOf(es)[j])
  {
    hide ValuesOf, Name, PutOptimized, KeyMaps;
    var n := |es| - 1;
    if j == n {
      PutOptimizedMaps(BuildOptimized(es[..n]).value, es[n].key, ValuesOf(es)[n]);
    } else {
      ApartPrefix(es, n);
      ShadowsPrefix(es, i, j);
      KeyShadowed(es[..n], i, j);
      ValuesOfPrefix(es, n);
      ShadowsOnce(es, i, j);
      hide KeysApart, Shadows;
      LastLeavesKey(es, i, ValuesOf(es)[j]);
    }
  }

  /** With distinct keys that are apart from the values' names, the optimized builder gives every key the
      plain builder's value exactly when no key is the prefix plus a later key with a different number. */
  lemma {:induction false} KeysAgreeExactlyWithoutShadowing(es: seq<Entry>)
    requires KeysApart(es) && NoSchemaNames(es) && DefinedOptimized(es).Some?
    ensures (forall i :: 0 <= i < |es| ==> KeyMaps(DefinedOptimized(es).value, es[i].key, ValuesOf(es)[i]))
            <==> NoneShadowed(es)
  {
    hide ValuesOf, Name, BuildOptimized, Sealed, Shadows;
    var o, built, vs := DefinedOptimized(es).value, BuildOptimized(es).value, ValuesOf(es);
    forall i | 0 <= i < |es|
      ensures KeyMaps(o, es[i].key, vs[i]) <==> KeyMaps(built, es[i].key, vs[i])
      ensures (forall j :: 0 <= j < |es| ==> !Shadows(es, i, j)) ==> KeyMaps(built, es[i].key, vs[i])
      ensures forall j :: 0 <= j < |es| && Shadows(es, i, j) ==> KeyMaps(built, es[i].key, vs[j])
    {
      forall j | 0 <= j < |es| && Shadows(es, i, j) ensures KeyMaps(built, es[i].key, vs[j]) {
        KeyShadowed(es, i, j);
      }
      if forall j :: 0 <= j < |es| ==> !Shadows(es, i, j) {
        KeyKept(es, i);
      }
      SealedMaps(built, Keys(es), vs, es[i].key);
    }
  }

  /** No key is the prefix plus a later key. */
  ghost predicate NoPrefixedKeys(es: seq<Entry>) {
    forall i, j :: 0 <= i < j < |es| ==> es[i].key != PREFIX + es[j].key
  }

  /** Of a numeric enum with usual keys, the optimized builder maps each value to the key that the plain one
      maps it to. */
  lemma {:induction false} ValuesAgree(numeric: string -> bool, es: seq<Entry>, i: nat)
    requires ReadsDecimals(numeric) && UsualKeys(numeric, es) && AllNumbers(es) && DefinedOptimized(es).Some?
    requires i < |es|
    ensures ValueMaps(DefinedOptimized(es).value, es[i].key, ValuesOf(es)[i])
            <==> ValueMaps(Defined(es), es[i].key, ValuesOf(es)[i])
  {
    hide ValuesOf, Name, Defined, DefinedOptimized, UsualKeys, ReadsDecimals;
    OptimizedIsAlike(es);
    NumbersOnly(es, i);
    NumbersAreNotHidden(ValuesOf(es)[i]);
  }

  lemma {:induction false} ShadowingIsByPrefix(es: seq<Entry>)
    requires AllNumbers(es) && DistinctValues(ValuesOf(es))
    ensures NoneShadowed(es) <==> NoPrefixedKeys(es)
  {
    hide ValuesOf;
    forall i, j | 0 <= i < j < |es| ensures Shadows(es, i, j) <==> es[i].key == PREFIX + es[j].key {
      NumbersOnly(es, j);
    }
  }

  /** Its directions are mutual inverses exactly when no number that is given repeats an earlier value and
      no key is the prefix plus a later key. */
  lemma {:induction false} OptimizedInverseExactly(numeric: string -> bool, es: seq<Entry>)
    requires ReadsDecimals(numeric) && UsualKeys(numeric, es) && AllNumbers(es) && DefinedOptimized(es).Some?
    ensures MutuallyInverse(DefinedOptimized(es).value, es) <==> NoRepeats(es) && NoPrefixedKeys(es)
  {
    hide ValuesOf, Defined, DefinedOptimized, NoRepeats, NoneShadowed, NoPrefixedKeys, DistinctValues, KeyMaps, ValueMaps;
    NumbersStayApart(numeric, es);
    forall i | 0 <= i < |es|
      ensures ValueMaps(DefinedOptimized(es).value, es[i].key, ValuesOf(es)[i])
              <==> ValueMaps(Defined(es), es[i].key, ValuesOf(es)[i])
    {
      ValuesAgree(numeric, es, i);
    }
    InverseExactlyWithoutRepeats(numeric, es);
    KeysAgreeExactlyWithoutShadowing(es);
    DistinctExactlyWithoutRepeats(es);
    hide KeysApart, NoSchemaNames, UsualKeys, AllNumbers, ReadsDecimals;
    if NoRepeats(es) {
      ShadowingIsByPrefix(es);
    }
  }

  lemma NumbersAreNotHidden(v: Value)
    requires v.Number?
    ensures !Hidden(Name(v))
  {
    hide Decimal.Print, Decimal.ParseInt;
    Decimal.PrintReadsBack(v.n);
    assert PREFIX[0] == '_';
  }

  /** `X` with the number 1 overwrites the earlier key that is the name of its hidden property. */
  lemma {:induction false} HiddenPropertyOverwritesKey()
    ensures var es := [Entry(PREFIX + "X", Some(Number(5))), Entry("X", Some(Number(1)))];
            && KeyMaps(Defined(es), PREFIX + "X", Number(5))
            && DefinedOptimized(es).Some?
            && KeyMaps(DefinedOptimized(es).value, PREFIX + "X", Number(1))
  {
    var es := [Entry(PREFIX + "X", Some(Number(5))), Entry("X", Some(Number(1)))];
    TwoValues(es);
    hide ValuesOf, KeyMaps, Name;
    TwoKeysApart(es);
    ThrowsExactlyBeyondUint32(es);
    KeyShadowed(es, 0, 1);
    BuildMaps(es);
    hide BuildOptimized, Build, KeysApart;
    OnlySealed(Build(es), Keys(es), ValuesOf(es), PREFIX + "X", Number(5));
    OnlySealed(BuildOptimized(es).value, Keys(es), ValuesOf(es), PREFIX + "X", Number(1));
  }

  lemma {:induction false} OnlySealed(o: Object, keys: seq<string>, values: seq<Value>, name: string, v: Value)
    requires name == PREFIX + "X" && KeyMaps(o, name, v)
    ensures KeyMaps(Sealed(o, keys, values), name, v)
  {
    hide Sealed;
    assert name[0] == '_';
    SealedMaps(o, keys, values, name);
  }

  lemma {:induction false} TwoValues(es: seq<Entry>)
    requires es == [Entry(PREFIX + "X", Some(Number(5))), Entry("X", Some(Number(1)))]
    ensures ValuesOf(es) == [Number(5), Number(1)]
  {
    hide ValuesOf;
    ValueAt(es, 0);
    ValueAt(es, 1);
  }

  lemma {:induction false} TwoKeysApart(es: seq<Entry>)
    requires |es| == 2 && es[0].key == PREFIX + "X" && es[1].key == "X"
    requires ValuesOf(es) == [Number(5), Number(1)]
    ensures KeysApart(es)
  {
    hide ValuesOf, Decimal.Print;
    Decimal.PrintReadsBack(5);
    Decimal.PrintReadsBack(1);
    assert es[0].key[0] == '_' && es[1].key[0] == 'X';
  }

  /** Which properties the optimized getters list. */
  function ListedOptimized(numeric: string -> bool): string -> bool {
    (name: string) => !SchemaName(name) && !Hidden(name) && !numeric(name)
  }

  lemma {:induction false} FilterOpenFirst(numeric: string -> bool, names: seq<string>)
    ensures Filter(ListedOptimized(numeric), names) == Filter(ListedOptimized(numeric), Filter(Open(), names))
  {
    if names != [] {
      var front, last := names[..|names| - 1], names[|names| - 1];
      FilterOpenFirst(numeric, front);
      FilterMore(ListedOptimized(numeric), Filter(Open(), front), last);
    }
  }

  /** The optimized getters list of some names what the plain ones list, hidden names left out. */
  lemma {:induction false} ListedThenOpen(numeric: string -> bool, names: seq<string>)
    ensures Filter(ListedOptimized(numeric), names) == Filter(Open(), Filter(Listed(numeric), names))
  {
    if names != [] {
      var front, last := names[..|names| - 1], names[|names| - 1];
      ListedThenOpen(numeric, front);
      FilterMore(Open(), Filter(Listed(numeric), front), last);
    }
  }

  lemma {:induction false} OpenFilterIsNothing(names: seq<string>)
    ensures Filter(Open(), names) == names <==> forall name :: name in names ==> !Hidden(name)
  {
    if names != [] {
      var front, last := names[..|names| - 1], names[|names| - 1];
      OpenFilterIsNothing(front);
      assert names == front + [last];
      FilterIsNoLonger(Open(), front);
      if !Hidden(last) {
        assert Filter(Open(), names)[..|Filter(Open(), front)|] == Filter(Open(), front);
      }
    }
  }

  lemma {:induction false} FilterIsNoLonger(p: string -> bool, names: seq<string>)
    ensures |Filter(p, names)| <= |names|
  {
    if names != [] {
      FilterIsNoLonger(p, names[..|names| - 1]);
    }
  }

  lemma NothingListed(p: string -> bool, o: Object)
    ensures Filter(p, []) == [] && Paired(o, []) == []
  {
  }

  lemma PairedMore(o: Object, names: seq<string>, name: string)
    requires name in o.props && forall n :: n in names ==> n in o.props
    ensures Paired(o, names + [name]) == Paired(o, names) + [(name, o.props[name])]
  {
  }

  /** `getOptimizedEnumEntries`. */
  method GetOptimizedEnumEntries(numeric: string -> bool, o: Object) returns (entries: seq<(string, Property)>)
    requires Consistent(o)
    ensures entries == Paired(o, Filter(ListedOptimized(numeric), o.names))
  {
    hide Paired, Filter;
    entries := [];
    ghost var p := ListedOptimized(numeric);
    NothingListed(p, o);
    for i := 0 to |o.names|
      invariant entries == Paired(o, Filter(p, o.names[..i]))
    {
      assert o.names[..i + 1] == o.names[..i] + [o.names[i]];
      FilterMore(p, o.names[..i], o.names[i]);
      PairedMore(o, Filter(p, o.names[..i]), o.names[i]);
      if !SchemaName(o.names[i]) && !Hidden(o.names[i]) && !numeric(o.names[i]) {
        entries := entries + [(o.names[i], o.props[o.names[i]])];
      }
    }
    assert o.names[..|o.names|] == o.names;
  }

  lemma PairedTellsNames(o: Object, names: seq<string>, plain: Object, names': seq<string>)
    requires (forall n :: n in names ==> n in o.props) && (forall n :: n in names' ==> n in plain.props)
    requires Paired(o, names) == Paired(plain, names')
    ensures names == names'
  {
    assert |Paired(o, names)| == |names| && |Paired(plain, names')| == |names'|;
    forall i | 0 <= i < |names| ensures names[i] == names'[i] {
      assert Paired(o, names)[i].0 == names[i] && Paired(plain, names')[i].0 == names'[i];
    }
  }

  /** For every list of entries that the optimized builder accepts, reading it back gives the entries that
      reading the plain enum gives exactly when no name listed there is a hidden one. */
  lemma {:induction false} SameEntriesExactlyWithoutHiddenNames(numeric: string -> bool, es: seq<Entry>)
    requires DefinedOptimized(es).Some?
    ensures var o, plain := DefinedOptimized(es).value, Defined(es);
            Paired(o, Filter(ListedOptimized(numeric), o.names)) == Paired(plain, Filter(Listed(numeric), plain.names))
            <==> forall name :: name in Filter(Listed(numeric), plain.names) ==> !Hidden(name)
  {
    hide Filter, DefinedOptimized, Defined;
    var o, plain := DefinedOptimized(es).value, Defined(es);
    var names, listed := Filter(ListedOptimized(numeric), o.names), Filter(Listed(numeric), plain.names);
    OptimizedIsAlike(es);
    FilterOpenFirst(numeric, o.names);
    FilterOpenFirst(numeric, plain.names);
    ListedThenOpen(numeric, plain.names);
    OpenFilterIsNothing(listed);
    assert names == Filter(Open(), listed);
    if Paired(o, names) == Paired(plain, listed) {
      PairedTellsNames(o, names, plain, listed);
    }
  }

  /** Reading an optimized enum back gives the entries that reading the plain one gives, provided no
      property of the plain one has a hidden name. */
  lemma {:induction false} SameEntriesComeBack(numeric: string -> bool, es: seq<Entry>)
    requires DefinedOptimized(es).Some?
    requires forall name :: name in Defined(es).names ==> !Hidden(name)
    ensures var o, plain := DefinedOptimized(es).value, Defined(es);
            Paired(o, Filter(ListedOptimized(numeric), o.names)) == Paired(plain, Filter(Listed(numeric), plain.names))
  {
    hide Filter, DefinedOptimized, Defined;
    SameEntriesExactlyWithoutHiddenNames(numeric, es);
  }
}
