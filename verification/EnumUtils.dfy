/** The bidirectional enum builder and its getters. */
module EnumUtils {
  import Decimal
  import opened Prelude

  datatype Value = Number(n: int) | Text(s: string) | Flag(b: bool)

  /** An entry's value may be left out. */
  datatype Entry = Entry(key: string, val: Option<Value>)

  /** What a property of the enum object holds. */
  datatype Property = Plain(value: Value) | KeySchema(keys: seq<string>) | ValueSchema(values: seq<Value>)

  /** An object: its property names in the order they were added, and their contents. */
  datatype Object = Object(names: seq<string>, props: map<string, Property>)

  const EMPTY := Object([], map[])

  /** The property name a value turns into when it is used as an index. */
  function Name(v: Value): string {
    match v
    case Number(n) => Decimal.Print(n)
    case Text(s) => s
    case Flag(b) => if b then "true" else "false"
  }

  ghost predicate Consistent(o: Object) {
    && (forall i, j :: 0 <= i < j < |o.names| ==> o.names[i] != o.names[j])
    && (forall name :: name in o.names <==> name in o.props)
  }

  /** Assignment to a property: the first one adds the name, a later one keeps its place. */
  function Put(o: Object, name: string, p: Property): (r: Object)
    ensures Consistent(o) ==> Consistent(r)
  {
    Object(if name in o.props then o.names else o.names + [name], o.props[name := p])
  }

  // -- Default values --------------------------------------------------------------------

  /** The first index from `i` on that is not in use; `used` bounds the search. */
  function FirstFree(used: set<Value>, i: nat): (r: nat)
    ensures i <= r <= i + |used| && Number(r) !in used
    ensures forall j :: i <= j < r ==> Number(j) in used
    decreases |used|
  {
    if Number(i) in used then
      var r := FirstFree(used - {Number(i)}, i + 1);
      assert forall j :: i + 1 <= j < r ==> Number(j) in used - {Number(i)};
      assert Number(r) in used ==> Number(r) in used - {Number(i)};
      r
    else i
  }

  function Used(vs: seq<Value>): set<Value> { set v | v in vs }

  /** The value of each entry: its own, or the first free index from its position on. */
  function ValuesOf(es: seq<Entry>): (vs: seq<Value>)
    ensures |vs| == |es|
  {
    if es == [] then []
    else
      var i := |es| - 1;
      var before := ValuesOf(es[..i]);
      before + [if es[i].val.Some? then es[i].val.value else Number(FirstFree(Used(before), i))]
  }

  lemma {:induction false} UsedIsNoLarger(vs: seq<Value>)
    ensures |Used(vs)| <= |vs|
  {
    if vs != [] {
      var front := vs[..|vs| - 1];
      UsedIsNoLarger(front);
      assert Used(vs) == Used(front) + {vs[|vs| - 1]};
    }
  }

  lemma {:induction false} ValuesOfPrefix(es: seq<Entry>, k: nat)
    requires k <= |es|
    ensures ValuesOf(es)[..k] == ValuesOf(es[..k])
  {
    if k < |es| {
      ValuesOfPrefix(es[..|es| - 1], k);
      assert es[..|es| - 1][..k] == es[..k];
    } else {
      assert es[..k] == es;
    }
  }

  /** The value at `i` depends on the entries up to it. */
  lemma {:induction false} ValueAt(es: seq<Entry>, i: nat)
    requires i < |es|
    ensures var before := ValuesOf(es)[..i];
            ValuesOf(es)[i] == if es[i].val.Some? then es[i].val.value else Number(FirstFree(Used(before), i))
  {
    hide FirstFree;
    ValuesOfPrefix(es, i + 1);
    ValuesOfPrefix(es, i);
    var upTo := es[..i + 1];
    assert upTo[..i] == es[..i] && ValuesOf(es)[i] == ValuesOf(upTo)[i];
  }

  /** An entry without a value gets the least index from its position on that no earlier entry uses, and
      that is at most twice its position. */
  lemma {:induction false} DefaultIsLeastFree(es: seq<Entry>, i: nat)
    requires i < |es| && es[i].val.None?
    ensures var vs := ValuesOf(es);
            && vs[i].Number? && i <= vs[i].n <= 2 * i
            && vs[i] !in vs[..i]
            && forall j :: i <= j < vs[i].n ==> Number(j) in vs[..i]
  {
    hide ValuesOf;
    ValueAt(es, i);
    UsedIsNoLarger(ValuesOf(es)[..i]);
  }

  /** The bound is reached at every position. */
  lemma {:induction false} DefaultReachesTwiceItsPosition(i: nat)
    ensures exists es: seq<Entry> :: |es| == i + 1 && es[i].val.None? && ValuesOf(es)[i] == Number(2 * i)
  {
    hide ValuesOf;
    var taken := seq(i, k requires 0 <= k < i => Entry("", Some(Number(i + k))));
    var es := taken + [Entry("", None)];
    DefaultIsLeastFree(es, i);
    var vs := ValuesOf(es);
    forall v: Value | v.Number? && i <= v.n < 2 * i ensures v in vs[..i] {
      ValueAt(es, v.n - i);
      assert vs[..i][v.n - i] == v;
    }
    assert |es| == i + 1 && es[i].val.None?;
  }

  // -- Building --------------------------------------------------------------------------

  /** Both directions of one entry. */
  function PutPair(o: Object, key: string, v: Value): Object {
    Put(Put(o, key, Plain(v)), Name(v), Plain(Text(key)))
  }

  function Build(es: seq<Entry>): (o: Object)
    ensures Consistent(o)
  {
    if es == [] then EMPTY
    else PutPair(Build(es[..|es| - 1]), es[|es| - 1].key, ValuesOf(es)[|es| - 1])
  }

  function Keys(es: seq<Entry>): seq<string> {
    seq(|es|, i requires 0 <= i < |es| => es[i].key)
  }

  /** The schemas are added last, over any property of their name. */
  function Sealed(o: Object, keys: seq<string>, values: seq<Value>): (r: Object)
    ensures Consistent(o) ==> Consistent(r)
  {
    Put(Put(o, "keySchema", KeySchema(keys)), "valueSchema", ValueSchema(values))
  }

  function Defined(es: seq<Entry>): (o: Object)
    ensures Consistent(o)
  {
    Sealed(Build(es), Keys(es), ValuesOf(es))
  }

  /** Under the two schema names the finished object has the keys and the values of all entries, whatever
      the entries are called; every other property is as the entries left it. */
  lemma SchemasOverride(es: seq<Entry>)
    ensures var props := Defined(es).props;
            && "keySchema" in props && "valueSchema" in props
            && props["keySchema"] == KeySchema(Keys(es))
            && props["valueSchema"] == ValueSchema(ValuesOf(es))
            && forall name :: name != "keySchema" && name != "valueSchema" ==>
                 (name in props <==> name in Build(es).props) && (name in props ==> props[name] == Build(es).props[name])
  {
    hide Build, ValuesOf, Keys, Consistent;
    assert "keySchema"[0] != "valueSchema"[0];
  }

  /** The builder's state after some of the entries. */
  ghost predicate BuiltFrom(es: seq<Entry>, i: nat, o: Object, keys: seq<string>, values: seq<Value>, used: set<Value>)
    requires i <= |es|
  {
    && o == Build(es[..i]) && keys == Keys(es[..i])
    && values == ValuesOf(es)[..i] && used == Used(values)
  }

  /** One more entry. */
  lemma {:induction false} OneMoreEntry(es: seq<Entry>, i: nat, o: Object, keys: seq<string>, values: seq<Value>,
                                        used: set<Value>, v: Value)
    requires i < |es| && BuiltFrom(es, i, o, keys, values, used)
    requires v == if es[i].val.Some? then es[i].val.value else Number(FirstFree(used, i))
    ensures BuiltFrom(es, i + 1, PutPair(o, es[i].key, v), keys + [es[i].key], values + [v], used + {v})
  {
    hide ValuesOf, PutPair, FirstFree;
    ValueAt(es, i);
    ValuesOfPrefix(es, i + 1);
    var upTo := es[..i + 1];
    assert upTo[..i] == es[..i] && upTo[i] == es[i] && ValuesOf(upTo)[i] == v;
    assert Keys(upTo) == keys + [es[i].key];
  }

  /** `defineEnum`. */
  method DefineEnum(entries: seq<Entry>) returns (e: Object)
    ensures e == Defined(entries)
  {
    hide Put, FirstFree;
    var result, keys, values := EMPTY, [], [];
    var usedValues: set<Value> := {};
    for i := 0 to |entries|
      invariant BuiltFrom(entries, i, result, keys, values, usedValues)
    {
      hide BuiltFrom;
      var value;
      if entries[i].val.Some? {
        value := entries[i].val.value;
      } else {
        var index := i;
        while Number(index) in usedValues
          invariant i <= index <= FirstFree(usedValues, i)
          decreases FirstFree(usedValues, i) - index
        {
          index := index + 1;
        }
        value := Number(index);
      }
      OneMoreEntry(entries, i, result, keys, values, usedValues, value);
      result := Put(result, entries[i].key, Plain(value));
      result := Put(result, Name(value), Plain(Text(entries[i].key)));
      keys := keys + [entries[i].key];
      values := values + [value];
      usedValues := usedValues + {value};
    }
    assert entries[..|entries|] == entries;
    assert ValuesOf(entries)[..|entries|] == ValuesOf(entries);
    e := Sealed(result, keys, values);
  }

  // -- Reading an enum back --------------------------------------------------------------

  predicate SchemaName(name: string) { name == "keySchema" || name == "valueSchema" }

  /** Which properties the getters list, where `numeric` says which names read as numbers. */
  function Listed(numeric: string -> bool): string -> bool {
    (name: string) => !SchemaName(name) && !numeric(name)
  }

  function Filter(p: string -> bool, names: seq<string>): (r: seq<string>)
    ensures forall name :: name in r <==> name in names && p(name)
  {
    if names == [] then []
    else
      var front, last := names[..|names| - 1], names[|names| - 1];
      assert names == front + [last];
      if p(last) then Filter(p, front) + [last] else Filter(p, front)
  }

  lemma FilterMore(p: string -> bool, names: seq<string>, last: string)
    ensures Filter(p, names + [last]) == if p(last) then Filter(p, names) + [last] else Filter(p, names)
  {
    assert (names + [last])[..|names|] == names;
  }

  /** Each element once, at its first place. */
  function FirstOccurrences<T(==)>(s: seq<T>): seq<T> {
    if s == [] then []
    else
      var front, last := FirstOccurrences(s[..|s| - 1]), s[|s| - 1];
      if last in front then front else front + [last]
  }

  function Contents(o: Object, names: seq<string>): seq<Property>
    requires forall name :: name in names ==> name in o.props
  {
    seq(|names|, i requires 0 <= i < |names| => o.props[names[i]])
  }

  function Paired(o: Object, names: seq<string>): seq<(string, Property)>
    requires forall name :: name in names ==> name in o.props
  {
    seq(|names|, i requires 0 <= i < |names| => (names[i], o.props[names[i]]))
  }

  /** `getEnumKeys`. */
  method GetEnumKeys(numeric: string -> bool, o: Object) returns (keys: seq<string>)
    ensures keys == Filter(Listed(numeric), o.names)
  {
    keys := [];
    for i := 0 to |o.names|
      invariant keys == Filter(Listed(numeric), o.names[..i])
    {
      assert o.names[..i + 1] == o.names[..i] + [o.names[i]];
      FilterMore(Listed(numeric), o.names[..i], o.names[i]);
      if !SchemaName(o.names[i]) && !numeric(o.names[i]) {
        keys := keys + [o.names[i]];
      }
    }
    assert o.names[..|o.names|] == o.names;
  }

  /** `getEnumEntries`. */
  method GetEnumEntries(numeric: string -> bool, o: Object) returns (entries: seq<(string, Property)>)
    requires Consistent(o)
    ensures entries == Paired(o, Filter(Listed(numeric), o.names))
  {
    var keys := GetEnumKeys(numeric, o);
    entries := seq(|keys|, i requires 0 <= i < |keys| => (keys[i], o.props[keys[i]]));
  }

  /** `getEnumValues`. */
  method GetEnumValues(numeric: string -> bool, o: Object) returns (values: seq<Property>)
    requires Consistent(o)
    ensures values == FirstOccurrences(Contents(o, Filter(Listed(numeric), o.names)))
  {
    values := [];
    var seen: set<Property> := {};
    ghost var p := Listed(numeric);
    for i := 0 to |o.names|
      invariant values == FirstOccurrences(Contents(o, Filter(p, o.names[..i])))
      invariant forall v :: v in values <==> v in seen
    {
      ghost var before := Filter(p, o.names[..i]);
      assert o.names[..i + 1] == o.names[..i] + [o.names[i]];
      FilterMore(p, o.names[..i], o.names[i]);
      if !SchemaName(o.names[i]) && !numeric(o.names[i]) {
        var value := o.props[o.names[i]];
        OneMoreContent(o, before, o.names[i]);
        if value !in seen {
          values := values + [value];
          seen := seen + {value};
        }
      }
    }
    assert o.names[..|o.names|] == o.names;
  }

  lemma OneMoreContent(o: Object, names: seq<string>, name: string)
    requires name in o.props && forall n :: n in names ==> n in o.props
    ensures var front := FirstOccurrences(Contents(o, names));
            FirstOccurrences(Contents(o, names + [name])) ==
            if o.props[name] in front then front else front + [o.props[name]]
  {
    var all := Contents(o, names + [name]);
    assert all[..|all| - 1] == Contents(o, names);
  }

  lemma FirstOccurrencesMore<T>(front: seq<T>, last: T)
    ensures var r := FirstOccurrences(front);
            FirstOccurrences(front + [last]) == if last in r then r else r + [last]
  {
    assert (front + [last])[..|front|] == front;
  }

  ghost predicate AllDifferent<T>(s: seq<T>) { forall i, j :: 0 <= i < j < |s| ==> s[i] != s[j] }

  lemma DifferentMore<T>(front: seq<T>, last: T)
    ensures AllDifferent(front + [last]) <==> AllDifferent(front) && last !in front
  {
    var s := front + [last];
    assert forall i :: 0 <= i < |front| ==> s[i] == front[i];
    assert s[|front|] == last;
  }

  /** Nothing is listed twice, nothing is lost, and without repetitions nothing changes. */
  lemma {:induction false} OccursOnce<T>(s: seq<T>)
    ensures AllDifferent(FirstOccurrences(s))
    ensures forall x :: x in FirstOccurrences(s) <==> x in s
    ensures AllDifferent(s) ==> FirstOccurrences(s) == s
  {
    if s != [] {
      var front, last := s[..|s| - 1], s[|s| - 1];
      assert s == front + [last];
      OccursOnce(front);
      FirstOccurrencesMore(front, last);
      DifferentMore(front, last);
      DifferentMore(FirstOccurrences(front), last);
      hide FirstOccurrences, AllDifferent;
      forall x ensures x in FirstOccurrences(s) <==> x in s {
        assert x in s <==> x in front || x == last;
      }
    }
  }
}
