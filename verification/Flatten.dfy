/**
 The state flattener of assignment4/kubespray/contrib/terraform/terraform.py: nested attributes
 become dotted keys, with a `#` entry for the length of a list and a `%` entry for the size of a map.
 */
module Flatten {
  import opened Options
  import opened Decimal
  import opened Dicts
  import opened Text

  datatype Json =
    | Null
    | Bool(b: bool)
    | Num(n: int)
    | Str(s: string)
    | List(items: seq<Json>)
    | Obj(fields: seq<(string, Json)>)
  {
    predicate Scalar() { !List? && !Obj? }
  }

  // -------------------------------------------------------------------------------------------
  // What the flattener stores
  // -------------------------------------------------------------------------------------------

  /** convert_to_v3_structure raises no error: list elements are strings or objects, at every depth. */
  predicate Flattenable(v: Json)
    decreases v, 1
  {
    v.Str? || (v.Obj? && FlattenableFields(v.fields))
  }

  predicate FlattenableFields(fields: seq<(string, Json)>)
    decreases fields, 0
  {
    fields == [] || (FlattenableField(fields[0]) && FlattenableFields(fields[1..]))
  }

  predicate FlattenableField(field: (string, Json))
    decreases field, 3
  {
    field.1.List? ==> FlattenableElements(field.1)
  }

  predicate FlattenableElements(value: Json)
    decreases value, 2
  {
    value.List? ==> FlattenableItems(value.items)
  }

  predicate FlattenableItems(items: seq<Json>)
    decreases items, 0
  {
    items == [] || (Flattenable(items[0]) && FlattenableItems(items[1..]))
  }

  /** The list element reached by choosing an attribute and an element of its list, again and again. */
  function ElementAt(v: Json, path: seq<(nat, nat)>): Option<Json> {
    if path == [] then Some(v)
    else
      var (i, j) := path[0];
      if v.Obj? && i < |v.fields| && v.fields[i].1.List? && j < |v.fields[i].1.items|
      then ElementAt(v.fields[i].1.items[j], path[1..])
      else None
  }

  /** The value itself and every list element that can be reached in it is a string or an object. */
  ghost predicate IsConvertible(v: Json) {
    forall path :: ElementAt(v, path).Some? ==> ElementAt(v, path).value.Str? || ElementAt(v, path).value.Obj?
  }

  lemma {:induction false} FlattenableAt(fields: seq<(string, Json)>, i: nat)
    requires FlattenableFields(fields) && i < |fields|
    ensures FlattenableField(fields[i])
  {
    if i > 0 {
      FlattenableAt(fields[1..], i - 1);
    }
  }

  lemma {:induction false} FlattenableItemAt(items: seq<Json>, j: nat)
    requires FlattenableItems(items) && j < |items|
    ensures Flattenable(items[j])
  {
    if j > 0 {
      FlattenableItemAt(items[1..], j - 1);
    }
  }

  lemma {:induction false} ReachedIsFlattenable(v: Json, path: seq<(nat, nat)>)
    requires Flattenable(v) && ElementAt(v, path).Some?
    ensures Flattenable(ElementAt(v, path).value)
    decreases |path|
  {
    if path != [] {
      var (i, j) := path[0];
      FlattenableAt(v.fields, i);
      FlattenableItemAt(v.fields[i].1.items, j);
      ReachedIsFlattenable(v.fields[i].1.items[j], path[1..]);
    }
  }

  lemma {:induction false} FailingField(fields: seq<(string, Json)>) returns (i: nat)
    requires !FlattenableFields(fields)
    ensures i < |fields| && !FlattenableField(fields[i])
  {
    if !FlattenableField(fields[0]) {
      i := 0;
    } else {
      i := FailingField(fields[1..]);
      i := i + 1;
    }
  }

  lemma {:induction false} FailingItem(items: seq<Json>) returns (j: nat)
    requires !FlattenableItems(items)
    ensures j < |items| && !Flattenable(items[j])
  {
    if !Flattenable(items[0]) {
      j := 0;
    } else {
      j := FailingItem(items[1..]);
      j := j + 1;
    }
  }

  lemma {:induction false} FailingPath(v: Json) returns (path: seq<(nat, nat)>)
    requires !Flattenable(v)
    ensures ElementAt(v, path).Some? && !ElementAt(v, path).value.Str? && !ElementAt(v, path).value.Obj?
  {
    if v.Obj? {
      var i := FailingField(v.fields);
      var value := v.fields[i].1;
      var j := FailingItem(value.items);
      var rest := FailingPath(value.items[j]);
      path := [(i, j)] + rest;
      assert path[1..] == rest;
    } else {
      path := [];
    }
  }

  /** The recursion of the code succeeds exactly for such values. */
  lemma FlattenableExactly(v: Json)
    ensures Flattenable(v) <==> IsConvertible(v)
  {
    if Flattenable(v) {
      forall path | ElementAt(v, path).Some?
        ensures ElementAt(v, path).value.Str? || ElementAt(v, path).value.Obj?
      {
        ReachedIsFlattenable(v, path);
      }
    } else {
      var path := FailingPath(v);
      assert !IsConvertible(v);
    }
  }

  /** Lists of strings are fine: an object without other lists can always be converted. */
  lemma StringListsConvert(v: Json)
    requires v.Obj?
    requires forall i :: 0 <= i < |v.fields| && v.fields[i].1.List? ==>
               forall j :: 0 <= j < |v.fields[i].1.items| ==> v.fields[i].1.items[j].Str?
    ensures IsConvertible(v)
  {
    forall path | ElementAt(v, path).Some?
      ensures ElementAt(v, path).value.Str? || ElementAt(v, path).value.Obj?
    {
      if path != [] {
        var (i, j) := path[0];
        var item := v.fields[i].1.items[j];
        assert item.Str? && path[1..] == [] ==> ElementAt(v, path) == Some(item);
      }
    }
  }

  /** The entries, one level of keys below `prefix`. */
  function Under<V>(prefix: string, entries: Dict<V>): Dict<V> {
    seq(|entries|, i requires 0 <= i < |entries| => (prefix + entries[i].0, entries[i].1))
  }

  /**
   The assignments for v, if it can be flattened, with keys relative to v and in the order they are
   made. A string among the elements of a list is stored under a random number: `draw(at)` is the
   number drawn for the string whose place has the prefix `at`.
   */
  function Flat(v: Json, at: string, draw: string -> nat): Dict<Json>
    decreases v, 1
  {
    if v.Str? then [(Numeral(draw(at)), v)] else if v.Obj? then FlatFields(v.fields, at, draw) else []
  }

  function FlatFields(fields: seq<(string, Json)>, at: string, draw: string -> nat): Dict<Json>
    decreases fields, 0
  {
    if fields == [] then []
    else
      FlatField(fields[0], at, draw) + FlatFields(fields[1..], at, draw)
  }

  function FlatField(field: (string, Json), at: string, draw: string -> nat): Dict<Json>
    decreases field, 3
  {
    var (key, value) := field;
    if value.List? then Under(key + ".", FlatList(value, at + key + ".", draw))
    else if value.Obj? then Under(key + ".", FlatMap(value.fields))
    else [(key, value)]
  }

  function FlatList(value: Json, at: string, draw: string -> nat): Dict<Json>
    decreases value, 2
  {
    if !value.List? then []
    else (if value.items == [] then [] else [("#", Num(|value.items|))]) + FlatItems(value.items, 0, at, draw)
  }

  function FlatItems(items: seq<Json>, from: nat, at: string, draw: string -> nat): Dict<Json>
    decreases items, 0
  {
    if items == [] then []
    else
      var prefix := Numeral(from) + ".";
      Under(prefix, Flat(items[0], at + prefix, draw)) + FlatItems(items[1..], from + 1, at, draw)
  }

  function FlatMap(fields: seq<(string, Json)>): Dict<Json> {
    [("%", Num(|fields|))] + fields
  }

  /** convert_to_v3_structure(v, prefix): the dictionary those assignments build. */
  function Flattened(v: Json, prefix: string, at: string, draw: string -> nat): Dict<Json>
  {
    PutAll([], Under(prefix, Flat(v, at, draw)))
  }

  lemma UnderUnder<V>(p: string, q: string, entries: Dict<V>)
    ensures Under(p, Under(q, entries)) == Under(p + q, entries)
  {
    assert forall i :: 0 <= i < |entries| ==> p + (q + entries[i].0) == p + q + entries[i].0;
  }

  lemma UnderConcat<V>(p: string, a: Dict<V>, b: Dict<V>)
    ensures Under(p, a + b) == Under(p, a) + Under(p, b)
  {
  }

  // -------------------------------------------------------------------------------------------
  // The code
  // -------------------------------------------------------------------------------------------

  /** None is the AttributeError for a value that is neither a string nor a dictionary. */
  method ConvertToV3Structure(attributes: Json, prefix: string, draw: string -> nat) returns (r: Option<Dict<Json>>)
    ensures r.Some? <==> Flattenable(attributes)
    ensures r.Some? <==> IsConvertible(attributes)
    ensures r.Some? ==> r.value == Flattened(attributes, prefix, prefix, draw)
    decreases attributes, 1
  {
    FlattenableExactly(attributes);
    if attributes.Str? {
      r := Some([(prefix + Numeral(draw(prefix)), attributes)]);
      assert Under(prefix, Flat(attributes, prefix, draw)) == r.value;
      PutAllFresh([], r.value);
      return;
    }
    if !attributes.Obj? {
      return None;
    }
    var fields := attributes.fields;
    var result: Dict<Json> := [];
    for n := 0 to |fields|
      invariant FlattenableFields(fields) <==> FlattenableFields(fields[n..])
      invariant FlattenableFields(fields) ==>
                  PutAll([], Under(prefix, FlatFields(fields, prefix, draw))) ==
                  PutAll(result, Under(prefix, FlatFields(fields[n..], prefix, draw)))
    {
      assert fields[n..][1..] == fields[n + 1..];
      var stored, ok := StoreField(result, fields[n], prefix, draw);
      if !ok {
        return None;
      }
      if FlattenableFields(fields) {
        FieldStored(result, stored, fields[n..], prefix, draw);
      }
      result := stored;
    }
    assert fields[|fields|..] == [];
    r := Some(result);
  }

  /** The body of the loop over the attributes. */
  method StoreField(start: Dict<Json>, field: (string, Json), prefix: string, draw: string -> nat)
    returns (result: Dict<Json>, ok: bool)
    ensures ok <==> FlattenableField(field)
    ensures ok ==> result == PutAll(start, Under(prefix, FlatField(field, prefix, draw)))
    decreases field, 3
  {
    var (key, value) := field;
    result, ok := start, true;
    if value.List? {
      if |value.items| > 0 {
        result := Put(result, prefix + key + ".#", Num(|value.items|));
      }
      result, ok := UpdateWithItems(result, value.items, prefix + key + ".", draw);
      if ok {
        ListFieldStored(start, key, value, prefix, draw);
      }
    } else if value.Obj? {
      result := Put(result, prefix + key + ".%", Num(|value.fields|));
      result := UpdateWithMap(result, value.fields, prefix + key + ".");
      MapFieldStored(start, key, value.fields, prefix);
    } else {
      result := Put(result, prefix + key, value);
    }
  }

  /** The loop over the elements of a list: each one flattened and merged into the result. */
  method UpdateWithItems(start: Dict<Json>, items: seq<Json>, prefix: string, draw: string -> nat)
    returns (result: Dict<Json>, ok: bool)
    ensures ok <==> FlattenableItems(items)
    ensures ok ==> result == PutAll(start, Under(prefix, FlatItems(items, 0, prefix, draw)))
    decreases items, 0
  {
    result, ok := start, true;
    for i := 0 to |items|
      invariant FlattenableItems(items) <==> FlattenableItems(items[i..])
      invariant FlattenableItems(items) ==>
                  PutAll(start, Under(prefix, FlatItems(items, 0, prefix, draw))) ==
                  PutAll(result, Under(prefix, FlatItems(items[i..], i, prefix, draw)))
    {
      assert items[i..][1..] == items[i + 1..];
      var sub := ConvertToV3Structure(items[i], prefix + Numeral(i) + ".", draw);
      if sub.None? {
        return result, false;
      }
      if FlattenableItems(items) {
        ItemStored(result, items[i..], i, prefix, draw);
      }
      result := PutAll(result, sub.value);
    }
    assert items[|items|..] == [];
  }

  /** The loop over the entries of a map. */
  method UpdateWithMap(start: Dict<Json>, fields: seq<(string, Json)>, prefix: string) returns (result: Dict<Json>)
    ensures result == PutAll(start, Under(prefix, fields))
  {
    result := start;
    for i := 0 to |fields|
      invariant PutAll(start, Under(prefix, fields)) == PutAll(result, Under(prefix, fields[i..]))
    {
      assert Under(prefix, fields[i..])[1..] == Under(prefix, fields[i + 1..]);
      result := Put(result, prefix + fields[i].0, fields[i].1);
    }
  }

  // One step of the loop over the elements.
  lemma ItemStored(result: Dict<Json>, items: seq<Json>, from: nat, prefix: string, draw: string -> nat)
    requires items != [] && FlattenableItems(items)
    ensures var sub := Flattened(items[0], prefix + Numeral(from) + ".", prefix + Numeral(from) + ".", draw);
            PutAll(result, Under(prefix, FlatItems(items, from, prefix, draw))) ==
            PutAll(PutAll(result, sub), Under(prefix, FlatItems(items[1..], from + 1, prefix, draw)))
  {
    var segment := Numeral(from) + ".";
    assert prefix + Numeral(from) + "." == prefix + segment;
    var first := Flat(items[0], prefix + segment, draw);
    var rest := FlatItems(items[1..], from + 1, prefix, draw);
    UnderConcat(prefix, Under(segment, first), rest);
    UnderUnder(prefix, segment, first);
    PutAllConcat(result, Under(prefix + segment, first), Under(prefix, rest));
    PutAllMerge(result, Under(prefix + segment, first));
  }

  // The first of the fields is stored; the remaining ones follow.
  lemma FieldStored(before: Dict<Json>, after: Dict<Json>, fields: seq<(string, Json)>, prefix: string, draw: string -> nat)
    requires fields != [] && FlattenableFields(fields)
    requires after == PutAll(before, Under(prefix, FlatField(fields[0], prefix, draw)))
    ensures PutAll(before, Under(prefix, FlatFields(fields, prefix, draw))) ==
            PutAll(after, Under(prefix, FlatFields(fields[1..], prefix, draw)))
  {
    var first := FlatField(fields[0], prefix, draw);
    var rest := FlatFields(fields[1..], prefix, draw);
    UnderConcat(prefix, first, rest);
    PutAllConcat(before, Under(prefix, first), Under(prefix, rest));
  }

  lemma ListFieldStored(before: Dict<Json>, key: string, value: Json, prefix: string, draw: string -> nat)
    requires value.List? && FlattenableElements(value)
    ensures var below := prefix + key + ".";
            PutAll(if value.items == [] then before else Put(before, prefix + key + ".#", Num(|value.items|)),
                   Under(below, FlatItems(value.items, 0, below, draw))) ==
            PutAll(before, Under(prefix, FlatField((key, value), prefix, draw)))
  {
    var below := prefix + key + ".";
    var list := FlatList(value, below, draw);
    assert prefix + (key + ".") == below && prefix + key + ".#" == below + "#";
    UnderUnder(prefix, key + ".", list);
    if value.items != [] {
      assert Under(below, list)[1..] == Under(below, FlatItems(value.items, 0, below, draw));
    }
  }

  lemma MapFieldStored(before: Dict<Json>, key: string, fields: seq<(string, Json)>, prefix: string)
    ensures var below := prefix + key + ".";
            PutAll(Put(before, prefix + key + ".%", Num(|fields|)), Under(below, fields)) ==
            PutAll(before, Under(prefix, Under(key + ".", FlatMap(fields))))
  {
    var below := prefix + key + ".";
    assert prefix + (key + ".") == below && prefix + key + ".%" == below + "%";
    UnderUnder(prefix, key + ".", FlatMap(fields));
    assert Under(below, FlatMap(fields))[1..] == Under(below, fields);
  }

  // -------------------------------------------------------------------------------------------
  // No two attributes share a key
  // -------------------------------------------------------------------------------------------

  /** What Python guarantees of dictionaries, and no dot in the keys the flattener joins with dots. */
  predicate Clean(v: Json)
    decreases v, 1
  {
    v.Obj? ==> Distinct(Keys(v.fields)) && CleanFields(v.fields)
  }

  predicate CleanFields(fields: seq<(string, Json)>)
    decreases fields, 0
  {
    fields == [] || (CleanField(fields[0]) && CleanFields(fields[1..]))
  }

  predicate CleanField(field: (string, Json))
    decreases field, 3
  {
    && Free(field.0, '.')
    && (field.1.List? ==> CleanElements(field.1))
    && (field.1.Obj? ==> Distinct(Keys(field.1.fields)))
  }

  predicate CleanElements(value: Json)
    decreases value, 2
  {
    value.List? ==> CleanItems(value.items)
  }

  predicate CleanItems(items: seq<Json>)
    decreases items, 0
  {
    items == [] || (Clean(items[0]) && CleanItems(items[1..]))
  }

  /** No map-valued attribute, at any depth, has a key "%". */
  predicate NoPercent(v: Json)
    decreases v, 1
  {
    v.Obj? ==> NoPercentFields(v.fields)
  }

  predicate NoPercentFields(fields: seq<(string, Json)>)
    decreases fields, 0
  {
    fields == [] || (NoPercentField(fields[0]) && NoPercentFields(fields[1..]))
  }

  predicate NoPercentField(field: (string, Json))
    decreases field, 3
  {
    && (field.1.List? ==> NoPercentElements(field.1))
    && (field.1.Obj? ==> "%" !in Keys(field.1.fields))
  }

  predicate NoPercentElements(value: Json)
    decreases value, 2
  {
    value.List? ==> NoPercentItems(value.items)
  }

  predicate NoPercentItems(items: seq<Json>)
    decreases items, 0
  {
    items == [] || (NoPercent(items[0]) && NoPercentItems(items[1..]))
  }

  /** The part of a key before its first dot. */
  function Head(k: string): string {
    if SplitFirst(k, '.').Some? then SplitFirst(k, '.').value.0 else k
  }

  lemma HeadsUnder<V>(head: string, entries: Dict<V>)
    requires Free(head, '.')
    ensures forall k :: k in Keys(Under(head + ".", entries)) ==> Head(k) == head
    ensures Distinct(Keys(Under(head + ".", entries))) <==> Distinct(Keys(entries))
  {
    var below := Under(head + ".", entries);
    forall i | 0 <= i < |entries|
      ensures Head(below[i].0) == head
    {
      SplitFirstOfJoined(head, '.', entries[i].0);
    }
    assert forall i :: 0 <= i < |entries| ==> Keys(below)[i] == head + "." + Keys(entries)[i];
    assert forall i :: 0 <= i < |entries| ==> Keys(below)[i][|head| + 1..] == Keys(entries)[i];
  }

  lemma {:induction false} FieldHeads(field: (string, Json), at: string, draw: string -> nat)
    requires CleanField(field)
    ensures forall k :: k in Keys(FlatField(field, at, draw)) ==> Head(k) == field.0
  {
    var (key, value) := field;
    if value.List? {
      HeadsUnder(key, FlatList(value, at + key + ".", draw));
    } else if value.Obj? {
      HeadsUnder(key, FlatMap(value.fields));
    } else {
      SplitFirstParts(key, '.');
    }
  }

  lemma {:induction false} FieldsHeads(fields: seq<(string, Json)>, at: string, draw: string -> nat)
    requires CleanFields(fields)
    ensures forall k :: k in Keys(FlatFields(fields, at, draw)) ==> Head(k) in Keys(fields)
  {
    if fields != [] {
      FieldHeads(fields[0], at, draw);
      FieldsHeads(fields[1..], at, draw);
      KeysOfConcat(FlatField(fields[0], at, draw), FlatFields(fields[1..], at, draw));
      assert Keys(fields) == [fields[0].0] + Keys(fields[1..]);
    }
  }

  /** The key starts with the place of an element, counted from `from` up to `to`. */
  predicate IsElementKey(k: string, from: nat, to: nat) {
    SplitFirst(k, '.').Some? && exists j :: from <= j < to && Head(k) == Numeral(j)
  }

  lemma {:induction false} ItemsHeads(items: seq<Json>, from: nat, at: string, draw: string -> nat)
    ensures forall k :: k in Keys(FlatItems(items, from, at, draw)) ==> IsElementKey(k, from, from + |items|)
  {
    if items != [] {
      var prefix := Numeral(from) + ".";
      var first, rest := Flat(items[0], at + prefix, draw), FlatItems(items[1..], from + 1, at, draw);
      ItemsHeads(items[1..], from + 1, at, draw);
      KeysOfConcat(Under(prefix, first), rest);
      NumeralIsFree(from, '.');
      forall k | k in Keys(Under(prefix, first))
        ensures IsElementKey(k, from, from + |items|)
      {
        var i :| 0 <= i < |first| && k == prefix + first[i].0;
        SplitFirstOfJoined(Numeral(from), '.', first[i].0);
        assert Head(k) == Numeral(from);
      }
      forall k | k in Keys(rest)
        ensures IsElementKey(k, from, from + |items|)
      {
        assert IsElementKey(k, from + 1, from + 1 + |items[1..]|);
      }
    }
  }

  /**
   Given dot-free keys, the flattened attributes never share a key, so that no stored value is
   overwritten, exactly when no map has an attribute named "%": that one meets the size entry.
   */
  lemma {:induction false} FlatKeysDistinct(v: Json, at: string, draw: string -> nat)
    requires Clean(v)
    ensures Distinct(Keys(Flat(v, at, draw))) <==> NoPercent(v)
    decreases v, 1
  {
    if v.Obj? {
      FlatFieldsDistinct(v.fields, at, draw);
    }
  }

  lemma {:induction false} FlatFieldsDistinct(fields: seq<(string, Json)>, at: string, draw: string -> nat)
    requires CleanFields(fields) && Distinct(Keys(fields))
    ensures Distinct(Keys(FlatFields(fields, at, draw))) <==> NoPercentFields(fields)
    decreases fields, 0
  {
    if fields != [] {
      var first, rest := FlatField(fields[0], at, draw), FlatFields(fields[1..], at, draw);
      assert Keys(fields) == [fields[0].0] + Keys(fields[1..]);
      DistinctConcat([fields[0].0], Keys(fields[1..]));
      FlatFieldDistinct(fields[0], at, draw);
      FlatFieldsDistinct(fields[1..], at, draw);
      FieldHeads(fields[0], at, draw);
      FieldsHeads(fields[1..], at, draw);
      KeysOfConcat(first, rest);
      DistinctConcat(Keys(first), Keys(rest));
    }
  }

  lemma {:induction false} FlatFieldDistinct(field: (string, Json), at: string, draw: string -> nat)
    requires CleanField(field)
    ensures Distinct(Keys(FlatField(field, at, draw))) <==> NoPercentField(field)
    decreases field, 3
  {
    var (key, value) := field;
    if value.List? {
      HeadsUnder(key, FlatList(value, at + key + ".", draw));
      FlatListDistinct(value, at + key + ".", draw);
    } else if value.Obj? {
      HeadsUnder(key, FlatMap(value.fields));
      assert Keys(FlatMap(value.fields)) == ["%"] + Keys(value.fields);
      DistinctConcat(["%"], Keys(value.fields));
      assert "%" in ["%"];
    } else {
      assert Keys([(key, value)]) == [key];
    }
  }

  lemma {:induction false} FlatListDistinct(value: Json, at: string, draw: string -> nat)
    requires value.List? && CleanElements(value)
    ensures Distinct(Keys(FlatList(value, at, draw))) <==> NoPercentElements(value)
    decreases value, 2
  {
    var items := FlatItems(value.items, 0, at, draw);
    FlatItemsDistinct(value.items, 0, at, draw);
    ItemsHeads(value.items, 0, at, draw);
    if value.items != [] {
      assert Keys([("#", Num(|value.items|))]) == ["#"];
      KeysOfConcat([("#", Num(|value.items|))], items);
      DistinctConcat(["#"], Keys(items));
    }
  }

  lemma {:induction false} FlatItemsDistinct(items: seq<Json>, from: nat, at: string, draw: string -> nat)
    requires CleanItems(items)
    ensures Distinct(Keys(FlatItems(items, from, at, draw))) <==> NoPercentItems(items)
    decreases items, 0
  {
    if items != [] {
      var prefix := Numeral(from) + ".";
      var first, rest := Flat(items[0], at + prefix, draw), FlatItems(items[1..], from + 1, at, draw);
      FlatKeysDistinct(items[0], at + prefix, draw);
      FlatItemsDistinct(items[1..], from + 1, at, draw);
      NumeralIsFree(from, '.');
      HeadsUnder(Numeral(from), first);
      ItemsHeads(items[1..], from + 1, at, draw);
      forall j: nat | from < j
        ensures Numeral(j) != Numeral(from)
      {
        NumeralsDiffer(j, from);
      }
      KeysOfConcat(Under(prefix, first), rest);
      DistinctConcat(Keys(Under(prefix, first)), Keys(rest));
    }
  }

  // -------------------------------------------------------------------------------------------
  // Nothing is lost, and every value is where its path says
  // -------------------------------------------------------------------------------------------

  /** One entry for a scalar or a string element, one more for each non-empty list and each map. */
  function EntryCount(v: Json): nat
    decreases v, 1
  {
    if v.Str? then 1 else if v.Obj? then FieldsCount(v.fields) else 0
  }

  function FieldsCount(fields: seq<(string, Json)>): nat
    decreases fields, 0
  {
    if fields == [] then 0 else FieldCount(fields[0]) + FieldsCount(fields[1..])
  }

  function FieldCount(field: (string, Json)): nat
    decreases field, 3
  {
    if field.1.List? then ListCount(field.1)
    else if field.1.Obj? then 1 + |field.1.fields|
    else 1
  }

  function ListCount(value: Json): nat
    decreases value, 2
  {
    if !value.List? then 0 else (if value.items == [] then 0 else 1) + ItemsCount(value.items)
  }

  function ItemsCount(items: seq<Json>): nat
    decreases items, 0
  {
    if items == [] then 0 else EntryCount(items[0]) + ItemsCount(items[1..])
  }

  lemma {:induction false} FlatSize(v: Json, at: string, draw: string -> nat)
    ensures |Flat(v, at, draw)| == EntryCount(v)
    decreases v, 1
  {
    if v.Obj? {
      FlatFieldsSize(v.fields, at, draw);
    }
  }

  lemma {:induction false} FlatFieldsSize(fields: seq<(string, Json)>, at: string, draw: string -> nat)
    ensures |FlatFields(fields, at, draw)| == FieldsCount(fields)
    decreases fields, 0
  {
    if fields != [] {
      FlatFieldSize(fields[0], at, draw);
      FlatFieldsSize(fields[1..], at, draw);
    }
  }

  lemma {:induction false} FlatFieldSize(field: (string, Json), at: string, draw: string -> nat)
    ensures |FlatField(field, at, draw)| == FieldCount(field)
    decreases field, 3
  {
    if field.1.List? {
      FlatListSize(field.1, at + field.0 + ".", draw);
    }
  }

  lemma {:induction false} FlatListSize(value: Json, at: string, draw: string -> nat)
    ensures |FlatList(value, at, draw)| == ListCount(value)
    decreases value, 2
  {
    if value.List? {
      FlatItemsSize(value.items, 0, at, draw);
    }
  }

  lemma {:induction false} FlatItemsSize(items: seq<Json>, from: nat, at: string, draw: string -> nat)
    ensures |FlatItems(items, from, at, draw)| == ItemsCount(items)
    decreases items, 0
  {
    if items != [] {
      FlatSize(items[0], at + (Numeral(from) + "."), draw);
      FlatItemsSize(items[1..], from + 1, at, draw);
    }
  }

  lemma PrefixKeepsDistinct<V>(prefix: string, entries: Dict<V>)
    ensures Distinct(Keys(Under(prefix, entries))) <==> Distinct(Keys(entries))
  {
    var below := Under(prefix, entries);
    assert forall i :: 0 <= i < |entries| ==> Keys(below)[i] == prefix + Keys(entries)[i];
    assert forall i :: 0 <= i < |entries| ==> Keys(below)[i][|prefix|..] == Keys(entries)[i];
  }

  /**
   For every outcome of the random draws the dictionary has exactly as many entries as there are
   values and counters to store, so that none has overwritten another, if and only if no map has
   a key "%".
   */
  lemma FlatteningLosesNothing(v: Json, prefix: string, at: string, draw: string -> nat)
    requires IsConvertible(v) && Clean(v)
    ensures |Flattened(v, prefix, at, draw)| == EntryCount(v) <==> NoPercent(v)
    ensures NoPercent(v) ==> Flattened(v, prefix, at, draw) == Under(prefix, Flat(v, at, draw))
  {
    var entries := Under(prefix, Flat(v, at, draw));
    FlatSize(v, at, draw);
    FlatKeysDistinct(v, at, draw);
    PrefixKeepsDistinct(prefix, Flat(v, at, draw));
    PutAllSize(entries);
    if NoPercent(v) {
      assert [] + entries == entries;
      PutAllFresh([], entries);
    }
  }

  /**
   The reader the flattener has to agree with: it follows a dotted key down into the nested
   attributes and returns what is stored there.
   */
  function ReadKey(v: Json, k: string, at: string, draw: string -> nat): Option<Json>
    decreases v, 1
  {
    if v.Str? then
      if k == Numeral(draw(at)) then Some(v) else None
    else if v.Obj? then ReadFields(v.fields, k, at, draw)
    else None
  }

  function ReadFields(fields: seq<(string, Json)>, k: string, at: string, draw: string -> nat): Option<Json>
    decreases fields, 0
  {
    if fields == [] then None
    else if fields[0].0 == Head(k) then ReadField(fields[0], k, at, draw)
    else ReadFields(fields[1..], k, at, draw)
  }

  function ReadField(field: (string, Json), k: string, at: string, draw: string -> nat): Option<Json>
    decreases field, 3
  {
    var (key, value) := field;
    if SplitFirst(k, '.').None? then
      if value.Scalar() then Some(value) else None
    else
      var rest := SplitFirst(k, '.').value.1;
      if value.List? then ReadList(value, rest, at + key + ".", draw)
      else if value.Obj? then
        if rest == "%" then Some(Num(|value.fields|)) else Get(value.fields, rest)
      else None
  }

  function ReadList(value: Json, k: string, at: string, draw: string -> nat): Option<Json>
    decreases value, 2
  {
    if !value.List? then None
    else if k == "#" then
      if value.items == [] then None else Some(Num(|value.items|))
    else
      var (index, rest) :- SplitFirst(k, '.');
      if index != "" && AllDigits(index) && Numeral(Value(index)) == index && Value(index) < |value.items| then
        ReadKey(value.items[Value(index)], rest, at + (index + "."), draw)
      else None
  }

  lemma {:induction false} GetUnder<V>(head: string, entries: Dict<V>, k: string)
    requires Free(head, '.')
    ensures Get(Under(head + ".", entries), k) ==
            if SplitFirst(k, '.').Some? && SplitFirst(k, '.').value.0 == head
            then Get(entries, SplitFirst(k, '.').value.1) else None
  {
    if entries != [] {
      var below := Under(head + ".", entries);
      assert below[1..] == Under(head + ".", entries[1..]);
      GetUnder(head, entries[1..], k);
      SplitFirstOfJoined(head, '.', entries[0].0);
      SplitFirstParts(k, '.');
    }
  }

  /** The flattened dictionary answers every key, stored or not, as the reader does. */
  lemma {:induction false} FlatAgreesWithReader(v: Json, k: string, at: string, draw: string -> nat)
    requires Flattenable(v) && Clean(v) && NoPercent(v)
    ensures Get(Flat(v, at, draw), k) == ReadKey(v, k, at, draw)
    decreases v, 1
  {
    if v.Obj? {
      GetInFields(v.fields, k, at, draw);
    }
  }

  lemma {:induction false} GetInFields(fields: seq<(string, Json)>, k: string, at: string, draw: string -> nat)
    requires FlattenableFields(fields) && CleanFields(fields) && NoPercentFields(fields) && Distinct(Keys(fields))
    ensures Get(FlatFields(fields, at, draw), k) == ReadFields(fields, k, at, draw)
    decreases fields, 0
  {
    if fields != [] {
      var first, rest := FlatField(fields[0], at, draw), FlatFields(fields[1..], at, draw);
      assert Keys(fields) == [fields[0].0] + Keys(fields[1..]);
      DistinctConcat([fields[0].0], Keys(fields[1..]));
      GetOfConcat(first, rest, k);
      FieldHeads(fields[0], at, draw);
      GetOfKey(first, k);
      if Head(k) == fields[0].0 {
        assert Head(k) in [fields[0].0];
        FieldsHeads(fields[1..], at, draw);
        GetOfKey(rest, k);
        GetInField(fields[0], k, at, draw);
      } else {
        GetInFields(fields[1..], k, at, draw);
      }
    }
  }

  lemma {:induction false} GetInField(field: (string, Json), k: string, at: string, draw: string -> nat)
    requires FlattenableField(field) && CleanField(field) && NoPercentField(field) && Head(k) == field.0
    ensures Get(FlatField(field, at, draw), k) == ReadField(field, k, at, draw)
    decreases field, 3
  {
    var (key, value) := field;
    SplitFirstParts(k, '.');
    if value.List? {
      GetUnder(key, FlatList(value, at + key + ".", draw), k);
      if SplitFirst(k, '.').Some? {
        GetInList(value, SplitFirst(k, '.').value.1, at + key + ".", draw);
      }
    } else if value.Obj? {
      GetUnder(key, FlatMap(value.fields), k);
      assert FlatMap(value.fields)[1..] == value.fields;
    }
  }

  lemma {:induction false} GetInList(value: Json, k: string, at: string, draw: string -> nat)
    requires value.List? && FlattenableElements(value) && CleanElements(value) && NoPercentElements(value)
    ensures Get(FlatList(value, at, draw), k) == ReadList(value, k, at, draw)
    decreases value, 2
  {
    var items := FlatItems(value.items, 0, at, draw);
    GetInItems(value.items, 0, k, at, draw);
    assert SplitFirst("#", '.') == None;
    if value.items != [] {
      assert FlatList(value, at, draw)[1..] == items;
    } else {
      assert FlatList(value, at, draw) == items;
    }
    if SplitFirst(k, '.').Some? {
      var index := SplitFirst(k, '.').value.0;
      forall n: nat | index == Numeral(n)
        ensures Value(index) == n
      {
        ValueOfNumeral(n);
      }
    }
  }

  /** The place that a key below a list names, if it is one of from..from + size. */
  function Place(k: string, from: nat, size: nat): Option<nat> {
    var (index, _) :- SplitFirst(k, '.');
    if index != "" && AllDigits(index) && Numeral(Value(index)) == index && from <= Value(index) < from + size
    then Some(Value(index)) else None
  }

  lemma PlaceStep(k: string, from: nat, size: nat)
    requires size > 0
    ensures SplitFirst(k, '.').Some? && SplitFirst(k, '.').value.0 == Numeral(from) ==>
              Place(k, from, size) == Some(from) && Place(k, from + 1, size - 1) == None
    ensures SplitFirst(k, '.').None? || SplitFirst(k, '.').value.0 != Numeral(from) ==>
              Place(k, from, size) == Place(k, from + 1, size - 1)
  {
    ValueOfNumeral(from);
  }

  lemma {:induction false} GetInItems(items: seq<Json>, from: nat, k: string, at: string, draw: string -> nat)
    requires FlattenableItems(items) && CleanItems(items) && NoPercentItems(items)
    ensures Place(k, from, |items|).None? ==> Get(FlatItems(items, from, at, draw), k) == None
    ensures Place(k, from, |items|).Some? ==>
              var n := Place(k, from, |items|).value;
              && Flattenable(items[n - from])
              && Get(FlatItems(items, from, at, draw), k) ==
                 ReadKey(items[n - from], SplitFirst(k, '.').value.1, at + (Numeral(n) + "."), draw)
    decreases items, 0
  {
    if items != [] {
      var prefix := Numeral(from) + ".";
      var first, rest := Flat(items[0], at + prefix, draw), FlatItems(items[1..], from + 1, at, draw);
      PlaceStep(k, from, |items|);
      GetInItems(items[1..], from + 1, k, at, draw);
      GetAcross(from, first, rest, k);
      if SplitFirst(k, '.').Some? && SplitFirst(k, '.').value.0 == Numeral(from) {
        FlatAgreesWithReader(items[0], SplitFirst(k, '.').value.1, at + prefix, draw);
      }
    }
  }

  // A key is looked up in the first element if it names its place, and in the others if it does not.
  lemma GetAcross<V>(from: nat, first: Dict<V>, rest: Dict<V>, k: string)
    ensures SplitFirst(k, '.').Some? && SplitFirst(k, '.').value.0 == Numeral(from) && Get(rest, k) == None ==>
              Get(Under(Numeral(from) + ".", first) + rest, k) == Get(first, SplitFirst(k, '.').value.1)
    ensures SplitFirst(k, '.').None? || SplitFirst(k, '.').value.0 != Numeral(from) ==>
              Get(Under(Numeral(from) + ".", first) + rest, k) == Get(rest, k)
  {
    var below := Under(Numeral(from) + ".", first);
    NumeralIsFree(from, '.');
    GetUnder(Numeral(from), first, k);
    GetOfConcat(below, rest, k);
    GetOfKey(below, k);
  }

  /** Each stored value sits under exactly its own path, for every outcome of the random draws. */
  lemma FlattenedAgreesWithReader(v: Json, prefix: string, k: string, at: string, draw: string -> nat)
    requires IsConvertible(v) && Clean(v) && NoPercent(v)
    ensures Get(Flattened(v, prefix, at, draw), prefix + k) == ReadKey(v, k, at, draw)
  {
    FlattenableExactly(v);
    FlatteningLosesNothing(v, prefix, at, draw);
    FlatAgreesWithReader(v, k, at, draw);
    GetWithPrefix(prefix, Flat(v, at, draw), k);
  }

  lemma {:induction false} GetWithPrefix<V>(prefix: string, entries: Dict<V>, k: string)
    ensures Get(Under(prefix, entries), prefix + k) == Get(entries, k)
  {
    if entries != [] {
      assert Under(prefix, entries)[1..] == Under(prefix, entries[1..]);
      assert prefix + entries[0].0 == prefix + k <==> entries[0].0 == k by {
        assert (prefix + k)[|prefix|..] == k && (prefix + entries[0].0)[|prefix|..] == entries[0].0;
      }
      GetWithPrefix(prefix, entries[1..], k);
    }
  }
}
