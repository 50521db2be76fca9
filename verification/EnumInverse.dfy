/** When the two directions of an enum are inverses of each other, and what its getters give back. */
module EnumInverse {
  import opened EnumUtils

  ghost predicate DistinctKeys(es: seq<Entry>) {
    forall i, j :: 0 <= i < j < |es| ==> es[i].key != es[j].key
  }

  /** No value is stored under the name of a key. */
  ghost predicate KeysApart(es: seq<Entry>) {
    && DistinctKeys(es)
    && forall i, j :: 0 <= i < |es| && 0 <= j < |es| ==> Name(ValuesOf(es)[i]) != es[j].key
  }

  ghost predicate NoSchemaNames(es: seq<Entry>) {
    forall i :: 0 <= i < |es| ==> !SchemaName(es[i].key) && !SchemaName(Name(ValuesOf(es)[i]))
  }

  ghost predicate KeyMaps(o: Object, key: string, v: Value) {
    key in o.props && o.props[key] == Plain(v)
  }

  ghost predicate ValueMaps(o: Object, key: string, v: Value) {
    Name(v) in o.props && o.props[Name(v)] == Plain(Text(key))
  }

  /** Every key leads to its value, and every value back to its key. */
  ghost predicate MutuallyInverse(o: Object, es: seq<Entry>) {
    forall i :: 0 <= i < |es| ==> KeyMaps(o, es[i].key, ValuesOf(es)[i]) && ValueMaps(o, es[i].key, ValuesOf(es)[i])
  }

  ghost predicate DistinctNames(vs: seq<Value>) {
    forall i, j :: 0 <= i < j < |vs| ==> Name(vs[i]) != Name(vs[j])
  }

  lemma {:induction false} ApartPrefix(es: seq<Entry>, k: nat)
    requires k <= |es| && KeysApart(es)
    ensures KeysApart(es[..k])
  {
    hide ValuesOf, Name;
    ValuesOfPrefix(es, k);
  }

  lemma {:induction false} PairIsPut(o: Object, key: string, v: Value)
    requires Name(v) != key
    ensures KeyMaps(PutPair(o, key, v), key, v) && ValueMaps(PutPair(o, key, v), key, v)
    ensures forall name :: name != key && name != Name(v) ==>
              (name in PutPair(o, key, v).props <==> name in o.props)
              && (name in o.props ==> PutPair(o, key, v).props[name] == o.props[name])
  {
  }

  /** The builder keeps every key's value. */
  lemma {:induction false} KeysMap(es: seq<Entry>, i: nat)
    requires KeysApart(es) && i < |es|
    ensures KeyMaps(Build(es), es[i].key, ValuesOf(es)[i])
  {
    hide ValuesOf, Name, PutPair;
    var n := |es| - 1;
    PairIsPut(Build(es[..n]), es[n].key, ValuesOf(es)[n]);
    if i < n {
      ApartPrefix(es, n);
      KeysMap(es[..n], i);
      ValuesOfPrefix(es, n);
    }
  }

  /** The name of a value leads to the last key that has it. */
  lemma {:induction false} ValuesMap(es: seq<Entry>, i: nat)
    requires KeysApart(es) && i < |es|
    requires forall j :: i < j < |es| ==> Name(ValuesOf(es)[j]) != Name(ValuesOf(es)[i])
    ensures ValueMaps(Build(es), es[i].key, ValuesOf(es)[i])
  {
    hide ValuesOf, Name, PutPair;
    var n := |es| - 1;
    PairIsPut(Build(es[..n]), es[n].key, ValuesOf(es)[n]);
    if i < n {
      var front := es[..n];
      ApartPrefix(es, n);
      ValuesOfPrefix(es, n);
      assert forall j :: 0 <= j < n ==> ValuesOf(front)[j] == ValuesOf(es)[j];
      ValuesMap(front, i);
    }
  }

  /** Every key leads to its value, and the name of a value to the last key that has it. */
  lemma {:induction false} BuildMaps(es: seq<Entry>)
    requires KeysApart(es)
    ensures var vs := ValuesOf(es);
            && (forall i :: 0 <= i < |es| ==> KeyMaps(Build(es), es[i].key, vs[i]))
            && (forall i :: 0 <= i < |es| && (forall j :: i < j < |es| ==> Name(vs[j]) != Name(vs[i])) ==>
                  ValueMaps(Build(es), es[i].key, vs[i]))
  {
    hide ValuesOf, Name, Build, KeyMaps, ValueMaps, KeysApart;
    var vs := ValuesOf(es);
    forall i | 0 <= i < |es| ensures KeyMaps(Build(es), es[i].key, vs[i]) {
      KeysMap(es, i);
    }
    forall i | 0 <= i < |es| && (forall j :: i < j < |es| ==> Name(vs[j]) != Name(vs[i]))
      ensures ValueMaps(Build(es), es[i].key, vs[i])
    {
      ValuesMap(es, i);
    }
  }

  lemma {:induction false} SealedMaps(o: Object, keys: seq<string>, values: seq<Value>, name: string)
    requires !SchemaName(name)
    ensures name in Sealed(o, keys, values).props <==> name in o.props
    ensures name in o.props ==> Sealed(o, keys, values).props[name] == o.props[name]
  {
  }

  /** With keys that differ from each other and from the values' names, key to value always holds, and
      value to key holds as well exactly when the values have different names. */
  lemma {:induction false} InverseExactlyWithDistinctNames(es: seq<Entry>)
    requires KeysApart(es) && NoSchemaNames(es)
    ensures forall i :: 0 <= i < |es| ==> KeyMaps(Defined(es), es[i].key, ValuesOf(es)[i])
    ensures MutuallyInverse(Defined(es), es) <==> DistinctNames(ValuesOf(es))
  {
    hide ValuesOf, Name, Build, Sealed;
    var o, vs := Defined(es), ValuesOf(es);
    BuildMaps(es);
    forall i | 0 <= i < |es|
      ensures KeyMaps(o, es[i].key, vs[i])
      ensures ValueMaps(o, es[i].key, vs[i]) <==> ValueMaps(Build(es), es[i].key, vs[i])
    {
      SealedMaps(Build(es), Keys(es), vs, es[i].key);
      SealedMaps(Build(es), Keys(es), vs, Name(vs[i]));
    }
  }

  // -- Numeric enums ---------------------------------------------------------------------

  ghost predicate AllNumbers(es: seq<Entry>) {
    forall i :: 0 <= i < |es| && es[i].val.Some? ==> es[i].val.value.Number?
  }

  ghost predicate DistinctValues(vs: seq<Value>) {
    forall i, j :: 0 <= i < j < |vs| ==> vs[i] != vs[j]
  }

  /** No value that is given repeats the value of an earlier entry. */
  ghost predicate NoRepeats(es: seq<Entry>) {
    forall i :: 0 <= i < |es| && es[i].val.Some? ==> es[i].val.value !in ValuesOf(es)[..i]
  }

  ghost predicate ReadsDecimals(numeric: string -> bool) {
    forall n: int :: numeric(Decimal.Print(n))
  }

  /** Keys that differ, do not read as numbers, and are not the names of the schemas. */
  ghost predicate UsualKeys(numeric: string -> bool, es: seq<Entry>) {
    DistinctKeys(es) && forall i :: 0 <= i < |es| ==> Listed(numeric)(es[i].key)
  }

  /** Defaults never repeat an earlier value, so only the given values can. */
  lemma {:induction false} DistinctExactlyWithoutRepeats(es: seq<Entry>)
    ensures DistinctValues(ValuesOf(es)) <==> NoRepeats(es)
  {
    hide ValuesOf, FirstFree;
    var vs := ValuesOf(es);
    forall i | 0 <= i < |es|
      ensures es[i].val.None? ==> vs[i] !in vs[..i]
      ensures es[i].val.Some? ==> vs[i] == es[i].val.value
    {
      if es[i].val.None? {
        DefaultIsLeastFree(es, i);
      }
      ValueAt(es, i);
    }
    assert forall i, j :: 0 <= i < j < |vs| ==> vs[..j][i] == vs[i];
  }

  lemma {:induction false} NumbersOnly(es: seq<Entry>, i: nat)
    requires AllNumbers(es) && i < |es|
    ensures ValuesOf(es)[i].Number?
  {
    hide ValuesOf, FirstFree;
    ValueAt(es, i);
  }

  lemma {:induction false} NumericNamesDiffer(vs: seq<Value>)
    requires forall v :: v in vs ==> v.Number?
    ensures DistinctNames(vs) <==> DistinctValues(vs)
  {
    hide Decimal.Print;
    forall i, j | 0 <= i < j < |vs| ensures Name(vs[i]) == Name(vs[j]) <==> vs[i] == vs[j] {
      Decimal.PrintIsInjective(vs[i].n, vs[j].n);
    }
  }

  lemma {:induction false} NumbersStayApart(numeric: string -> bool, es: seq<Entry>)
    requires ReadsDecimals(numeric) && UsualKeys(numeric, es) && AllNumbers(es)
    ensures KeysApart(es) && NoSchemaNames(es)
    ensures forall v :: v in ValuesOf(es) ==> v.Number? && numeric(Name(v)) && !SchemaName(Name(v))
  {
    hide ValuesOf, Decimal.Print;
    forall v | v in ValuesOf(es) ensures v.Number? && numeric(Name(v)) && !SchemaName(Name(v)) {
      var i :| 0 <= i < |es| && ValuesOf(es)[i] == v;
      NumbersOnly(es, i);
      Decimal.PrintReadsBack(v.n);
      assert numeric(Decimal.Print(v.n));
    }
  }

  /** A numeric enum with usual keys: its two directions are mutual inverses exactly when no number
      that is given repeats an earlier value. */
  lemma {:induction false} InverseExactlyWithoutRepeats(numeric: string -> bool, es: seq<Entry>)
    requires ReadsDecimals(numeric) && UsualKeys(numeric, es) && AllNumbers(es)
    ensures forall i :: 0 <= i < |es| ==> KeyMaps(Defined(es), es[i].key, ValuesOf(es)[i])
    ensures MutuallyInverse(Defined(es), es) <==> NoRepeats(es)
  {
    hide ValuesOf, Name, Defined, KeyMaps, MutuallyInverse, DistinctNames, DistinctValues;
    NumbersStayApart(numeric, es);
    InverseExactlyWithDistinctNames(es);
    NumericNamesDiffer(ValuesOf(es));
    DistinctExactlyWithoutRepeats(es);
  }

  // -- The getters -----------------------------------------------------------------------

  lemma {:induction false} BuiltNames(es: seq<Entry>, name: string)
    ensures name in Build(es).props ==>
              exists i :: 0 <= i < |es| && (name == es[i].key || name == Name(ValuesOf(es)[i]))
  {
    hide ValuesOf, Name;
    if es != [] && name in Build(es).props {
      var n := |es| - 1;
      if name != es[n].key && name != Name(ValuesOf(es)[n]) {
        BuiltNames(es[..n], name);
        ValuesOfPrefix(es, n);
        var i :| 0 <= i < n && (name == es[..n][i].key || name == Name(ValuesOf(es[..n])[i]));
        assert es[..n][i] == es[i] && ValuesOf(es[..n])[i] == ValuesOf(es)[i];
      }
    }
  }

  lemma {:induction false} PutLists(p: string -> bool, o: Object, name: string, c: Property)
    ensures Filter(p, Put(o, name, c).names) ==
            if p(name) && name !in o.props then Filter(p, o.names) + [name] else Filter(p, o.names)
  {
    FilterMore(p, o.names, name);
  }

  lemma FilterNone(p: string -> bool)
    ensures Filter(p, []) == []
  {
  }

  lemma {:induction false} KeysAreListed(numeric: string -> bool, es: seq<Entry>)
    requires ReadsDecimals(numeric) && UsualKeys(numeric, es) && AllNumbers(es)
    ensures Filter(Listed(numeric), Build(es).names) == Keys(es)
  {
    hide ValuesOf, Name, Filter, Put;
    if es == [] {
      FilterNone(Listed(numeric));
    } else {
      var n := |es| - 1;
      var front, key, v, p := es[..n], es[n].key, ValuesOf(es)[n], Listed(numeric);
      KeysAreListed(numeric, front);
      NumbersStayApart(numeric, front);
      NumbersStayApart(numeric, es);
      assert v in ValuesOf(es);
      assert key !in Build(front).props by {
        BuiltNames(front, key);
        assert forall i :: 0 <= i < n ==> ValuesOf(front)[i] in ValuesOf(front);
      }
      PutLists(p, Build(front), key, Plain(v));
      PutLists(p, Put(Build(front), key, Plain(v)), Name(v), Plain(Text(key)));
      assert Keys(es) == Keys(front) + [key];
    }
  }

  lemma {:induction false} SchemasAreNotListed(p: string -> bool, o: Object, keys: seq<string>, values: seq<Value>)
    requires !p("keySchema") && !p("valueSchema")
    ensures Filter(p, Sealed(o, keys, values).names) == Filter(p, o.names)
  {
    hide Put, Filter;
    PutLists(p, o, "keySchema", KeySchema(keys));
    PutLists(p, Put(o, "keySchema", KeySchema(keys)), "valueSchema", ValueSchema(values));
  }

  lemma SchemasAreUnlisted(numeric: string -> bool, name: string)
    requires SchemaName(name)
    ensures !Listed(numeric)(name)
  {
  }

  /** A numeric enum with usual keys gives back its keys, in order. */
  lemma {:induction false} KeysComeBack(numeric: string -> bool, es: seq<Entry>)
    requires ReadsDecimals(numeric) && UsualKeys(numeric, es) && AllNumbers(es)
    ensures Filter(Listed(numeric), Defined(es).names) == Keys(es)
  {
    hide ValuesOf, Build, Sealed, Filter, Keys, UsualKeys, AllNumbers, ReadsDecimals;
    KeysAreListed(numeric, es);
    SchemasAreUnlisted(numeric, "keySchema");
    SchemasAreUnlisted(numeric, "valueSchema");
    SchemasAreNotListed(Listed(numeric), Build(es), Keys(es), ValuesOf(es));
  }

  /** It gives back its entries, in order and with the defaults filled in, even where numbers repeat. */
  lemma {:induction false} EntriesComeBack(numeric: string -> bool, es: seq<Entry>)
    requires ReadsDecimals(numeric) && UsualKeys(numeric, es) && AllNumbers(es)
    ensures Paired(Defined(es), Filter(Listed(numeric), Defined(es).names)) ==
            seq(|es|, i requires 0 <= i < |es| => (es[i].key, Plain(ValuesOf(es)[i])))
    ensures Contents(Defined(es), Filter(Listed(numeric), Defined(es).names)) ==
            seq(|es|, i requires 0 <= i < |es| => Plain(ValuesOf(es)[i]))
  {
    hide ValuesOf, Defined, Filter, Name, MutuallyInverse, Listed, UsualKeys;
    KeysComeBack(numeric, es);
    InverseExactlyWithoutRepeats(numeric, es);
  }

  /** Its values are all listed, once each, when no number that is given repeats an earlier value. */
  lemma {:induction false} ValuesComeBack(numeric: string -> bool, es: seq<Entry>)
    requires ReadsDecimals(numeric) && UsualKeys(numeric, es) && AllNumbers(es) && NoRepeats(es)
    ensures FirstOccurrences(Contents(Defined(es), Filter(Listed(numeric), Defined(es).names))) ==
            seq(|es|, i requires 0 <= i < |es| => Plain(ValuesOf(es)[i]))
  {
    hide ValuesOf, Defined, Filter, FirstOccurrences;
    EntriesComeBack(numeric, es);
    DistinctExactlyWithoutRepeats(es);
    OccursOnce(Contents(Defined(es), Filter(Listed(numeric), Defined(es).names)));
  }
}
