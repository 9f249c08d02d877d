/**
 The readers of flattened attributes in assignment4/kubespray/contrib/terraform/terraform.py, and
 what they give back of what was flattened.
 */
module Readers {
  import opened Options
  import opened Decimal
  import opened Dicts
  import opened Flatten
  import opened Text

  /** What `_parse_prefix` yields, in the order of the source. */
  function Parsed<V>(source: Dict<V>, prefix: string, sep: char): Dict<V> {
    if source == [] then [] else ParsedEntry(source[0], prefix, sep) + Parsed(source[1..], prefix, sep)
  }

  function ParsedEntry<V>(entry: (string, V), prefix: string, sep: char): Dict<V> {
    var split := SplitFirst(entry.0, sep);
    if split.Some? && split.value.0 == prefix && split.value.1 != "#" then [(split.value.1, entry.1)] else []
  }

  method ParsePrefix<V>(source: Dict<V>, prefix: string, sep: char) returns (yielded: Dict<V>)
    ensures yielded == Parsed(source, prefix, sep)
  {
    yielded := [];
    for i := 0 to |source|
      invariant Parsed(source, prefix, sep) == yielded + Parsed(source[i..], prefix, sep)
    {
      var (compkey, value) := source[i];
      OneParsed(yielded, source, i, prefix, sep);
      var split := SplitFirst(compkey, sep);
      if split.None? {
        continue;
      }
      var (curprefix, rest) := split.value;
      if curprefix != prefix || rest == "#" {
        continue;
      }
      yielded := yielded + [(rest, value)];
    }
  }

  lemma OneParsed<V>(yielded: Dict<V>, source: Dict<V>, i: nat, prefix: string, sep: char)
    requires i < |source|
    ensures yielded + Parsed(source[i..], prefix, sep) ==
            yielded + ParsedEntry(source[i], prefix, sep) + Parsed(source[i + 1..], prefix, sep)
    ensures yielded + [] == yielded
  {
    assert source[i..][1..] == source[i + 1..];
  }

  /** parse_dict */
  function ParseDict<V>(source: Dict<V>, prefix: string, sep: char): Dict<V> {
    PutAll([], Parsed(source, prefix, sep))
  }

  /** parse_list */
  function ParseList<V>(source: Dict<V>, prefix: string, sep: char): seq<V> {
    Values(Parsed(source, prefix, sep))
  }

  /** attrs[idx][key] = value on a defaultdict(dict) */
  function PutNested<V>(attrs: Dict<Dict<V>>, idx: string, key: string, value: V): Dict<Dict<V>> {
    Put(attrs, idx, Put(if Get(attrs, idx).Some? then Get(attrs, idx).value else [], key, value))
  }

  /** The groups that parse_attr_list collects; none where a key has no second separator. */
  function Grouped<V>(attrs: Dict<Dict<V>>, entries: Dict<V>, sep: char): Option<Dict<Dict<V>>>
    decreases |entries|
  {
    if entries == [] then Some(attrs)
    else
      var (idx, key) :- SplitFirst(entries[0].0, sep);
      Grouped(PutNested(attrs, idx, key, entries[0].1), entries[1..], sep)
  }

  function AttrList<V>(source: Dict<V>, prefix: string, sep: char): Option<seq<Dict<V>>> {
    var groups :- Grouped([], Parsed(source, prefix, sep), sep);
    Some(Values(groups))
  }

  /** None is the ValueError of unpacking a key without a second separator. */
  method ParseAttrList<V>(source: Dict<V>, prefix: string, sep: char) returns (r: Option<seq<Dict<V>>>)
    ensures r == AttrList(source, prefix, sep)
  {
    var attrs: Dict<Dict<V>> := [];
    var entries := ParsePrefix(source, prefix, sep);
    for i := 0 to |entries|
      invariant Grouped([], entries, sep) == Grouped(attrs, entries[i..], sep)
    {
      assert entries[i..][1..] == entries[i + 1..];
      var split := SplitFirst(entries[i].0, sep);
      if split.None? {
        return None;
      }
      var (idx, key) := split.value;
      attrs := PutNested(attrs, idx, key, entries[i].1);
    }
    assert entries[|entries|..] == [];
    r := Some(Values(attrs));
  }

  // -------------------------------------------------------------------------------------------
  // Reading one attribute of a flattened object
  // -------------------------------------------------------------------------------------------

  lemma {:induction false} ParsedConcat<V>(a: Dict<V>, b: Dict<V>, prefix: string, sep: char)
    ensures Parsed(a + b, prefix, sep) == Parsed(a, prefix, sep) + Parsed(b, prefix, sep)
  {
    if a == [] {
      assert a + b == b;
    } else {
      assert (a + b)[0] == a[0] && (a + b)[1..] == a[1..] + b;
      ParsedConcat(a[1..], b, prefix, sep);
      var first := ParsedEntry(a[0], prefix, sep);
      assert first + Parsed(a[1..], prefix, sep) + Parsed(b, prefix, sep) ==
             first + (Parsed(a[1..], prefix, sep) + Parsed(b, prefix, sep));
    }
  }

  function NoHash<V>(entries: Dict<V>): Dict<V> {
    if entries == [] then []
    else (if entries[0].0 != "#" then [entries[0]] else []) + NoHash(entries[1..])
  }

  lemma {:induction false} NoHashIsAll<V>(entries: Dict<V>)
    requires "#" !in Keys(entries)
    ensures NoHash(entries) == entries
  {
    if entries != [] {
      assert Keys(entries) == [entries[0].0] + Keys(entries[1..]);
      NoHashIsAll(entries[1..]);
    }
  }

  // The entries below one key are found under that key and under no other.
  lemma {:induction false} ParsedUnder<V>(head: string, entries: Dict<V>, prefix: string)
    requires Free(head, '.')
    ensures Parsed(Under(head + ".", entries), prefix, '.') == if head == prefix then NoHash(entries) else []
  {
    if entries != [] {
      assert Under(head + ".", entries)[1..] == Under(head + ".", entries[1..]);
      SplitFirstOfJoined(head, '.', entries[0].0);
      ParsedUnder(head, entries[1..], prefix);
    }
  }

  /** What a flattened object yields for a prefix is what that one attribute stored, less its `#`. */
  lemma {:induction false} ParsedAttribute(fields: seq<(string, Json)>, prefix: string, at: string, draw: string -> nat)
    requires FlattenableFields(fields) && CleanFields(fields) && Distinct(Keys(fields))
    ensures Get(fields, prefix).None? ==> Parsed(FlatFields(fields, at, draw), prefix, '.') == []
    ensures Get(fields, prefix).Some? ==>
              var value := Get(fields, prefix).value;
              && FlattenableField((prefix, value))
              && Parsed(FlatFields(fields, at, draw), prefix, '.') ==
                 if value.List? then NoHash(FlatList(value, at + prefix + ".", draw))
                 else if value.Obj? then NoHash(FlatMap(value.fields))
                 else []
    decreases |fields|
  {
    if fields != [] {
      var (key, value) := fields[0];
      assert Keys(fields) == [key] + Keys(fields[1..]);
      DistinctConcat([key], Keys(fields[1..]));
      ParsedConcat(FlatField(fields[0], at, draw), FlatFields(fields[1..], at, draw), prefix, '.');
      ParsedAttribute(fields[1..], prefix, at, draw);
      GetOfKey(fields[1..], prefix);
      assert key in [key];
      if value.List? {
        ParsedUnder(key, FlatList(value, at + key + ".", draw), prefix);
      } else if value.Obj? {
        ParsedUnder(key, FlatMap(value.fields), prefix);
      } else {
        SplitFirstParts(key, '.');
        assert [(key, value)][1..] == [];
      }
    }
  }

  // The `#` entry of a list is the only one that reading drops.
  lemma ListWithoutHash(value: Json, at: string, draw: string -> nat)
    requires value.List?
    ensures NoHash(FlatList(value, at, draw)) == FlatItems(value.items, 0, at, draw)
  {
    var items := FlatItems(value.items, 0, at, draw);
    ItemsHeads(value.items, 0, at, draw);
    assert "#" !in Keys(items) by {
      assert SplitFirst("#", '.') == None;
      assert !IsElementKey("#", 0, |value.items|);
    }
    NoHashIsAll(items);
    if value.items != [] {
      assert FlatList(value, at, draw)[1..] == items;
    } else {
      assert FlatList(value, at, draw) == items;
    }
  }

  // -------------------------------------------------------------------------------------------
  // Reading after overwriting
  // -------------------------------------------------------------------------------------------

  // Assigning to a key that the reader yields assigns to what it yields.
  lemma {:induction false} ParsedPut<V>(m: Dict<V>, k: string, v: V, prefix: string, sep: char)
    ensures ParsedEntry((k, v), prefix, sep) == [] ==> Parsed(Put(m, k, v), prefix, sep) == Parsed(m, prefix, sep)
    ensures ParsedEntry((k, v), prefix, sep) != [] ==>
              Parsed(Put(m, k, v), prefix, sep) ==
              Put(Parsed(m, prefix, sep), ParsedEntry((k, v), prefix, sep)[0].0, v)
  {
    if m == [] {
      assert [(k, v)][1..] == [];
    } else {
      var head, rest := ParsedEntry(m[0], prefix, sep), Parsed(m[1..], prefix, sep);
      SplitFirstParts(k, sep);
      SplitFirstParts(m[0].0, sep);
      ParsedPut(m[1..], k, v, prefix, sep);
      if m[0].0 == k {
        assert Put(m, k, v)[1..] == m[1..];
        assert Parsed(Put(m, k, v), prefix, sep) == ParsedEntry((k, v), prefix, sep) + rest;
      } else {
        assert Put(m, k, v)[1..] == Put(m[1..], k, v);
        assert Parsed(Put(m, k, v), prefix, sep) == head + Parsed(Put(m[1..], k, v), prefix, sep);
      }
      if head != [] {
        assert head + rest == [head[0]] + rest && (head + rest)[1..] == rest;
      } else {
        assert head + rest == rest;
      }
    }
  }

  lemma {:induction false} ParsedPutAll<V>(m: Dict<V>, entries: Dict<V>, prefix: string, sep: char)
    ensures Parsed(PutAll(m, entries), prefix, sep) == PutAll(Parsed(m, prefix, sep), Parsed(entries, prefix, sep))
    decreases |entries|
  {
    if entries != [] {
      var (k, v) := entries[0];
      var head := ParsedEntry(entries[0], prefix, sep);
      ParsedPut(m, k, v, prefix, sep);
      ParsedPutAll(Put(m, k, v), entries[1..], prefix, sep);
      PutAllConcat(Parsed(m, prefix, sep), head, Parsed(entries[1..], prefix, sep));
      assert head != [] ==> head[1..] == [];
    }
  }

  /** So the reader sees, of a flattened object, the assignments below the prefix, one after the other. */
  lemma ParsedFlattened(d: Json, p: string, draw: string -> nat)
    requires d.Obj?
    ensures Parsed(Flattened(d, "", "", draw), p, '.') == PutAll([], Parsed(FlatFields(d.fields, "", draw), p, '.'))
  {
    var entries := FlatFields(d.fields, "", draw);
    assert forall i :: 0 <= i < |entries| ==> "" + entries[i].0 == entries[i].0;
    assert Under("", entries) == entries;
    ParsedPutAll([], entries, p, '.');
  }

  // -------------------------------------------------------------------------------------------
  // Lists of strings
  // -------------------------------------------------------------------------------------------

  lemma {:induction false} StringItemsValues(items: seq<Json>, from: nat, at: string, draw: string -> nat)
    requires forall i :: 0 <= i < |items| ==> items[i].Str?
    ensures Values(FlatItems(items, from, at, draw)) == items
    decreases |items|
  {
    if items != [] {
      StringItemsValues(items[1..], from + 1, at, draw);
      assert items == [items[0]] + items[1..];
    }
  }

  lemma {:induction false} StringItemsDistinct(items: seq<Json>, from: nat, at: string, draw: string -> nat)
    requires forall i :: 0 <= i < |items| ==> items[i].Str?
    ensures CleanItems(items) && NoPercentItems(items)
    ensures Distinct(Keys(FlatItems(items, from, at, draw)))
    decreases |items|
  {
    if items != [] {
      StringItemsDistinct(items[1..], from + 1, at, draw);
    }
    FlatItemsDistinct(items, from, at, draw);
  }

  /** parse_list of a flattened list of strings is that list, whatever the random draws. */
  lemma ParseListRoundTrip(d: Json, p: string, draw: string -> nat)
    requires d.Obj? && IsConvertible(d) && Clean(d)
    requires Get(d.fields, p).Some? && Get(d.fields, p).value.List?
    requires forall i :: 0 <= i < |Get(d.fields, p).value.items| ==> Get(d.fields, p).value.items[i].Str?
    ensures ParseList(Flattened(d, "", "", draw), p, '.') == Get(d.fields, p).value.items
  {
    FlattenableExactly(d);
    var value := Get(d.fields, p).value;
    ParsedFlattened(d, p, draw);
    ParsedAttribute(d.fields, p, "", draw);
    ListWithoutHash(value, "" + p + ".", draw);
    var entries := FlatItems(value.items, 0, "" + p + ".", draw);
    StringItemsDistinct(value.items, 0, "" + p + ".", draw);
    assert [] + entries == entries;
    PutAllFresh([], entries);
    StringItemsValues(value.items, 0, "" + p + ".", draw);
  }

  /** In particular, an object whose lists are all lists of strings is converted, and gives each back. */
  lemma StringListsRoundTrip(d: Json, p: string, draw: string -> nat)
    requires d.Obj? && Clean(d)
    requires forall i :: 0 <= i < |d.fields| && d.fields[i].1.List? ==>
               forall j :: 0 <= j < |d.fields[i].1.items| ==> d.fields[i].1.items[j].Str?
    requires Get(d.fields, p).Some? && Get(d.fields, p).value.List?
    ensures IsConvertible(d)
    ensures ParseList(Flattened(d, "", "", draw), p, '.') == Get(d.fields, p).value.items
  {
    StringListsConvert(d);
    GetOfKey(d.fields, p);
    var i :| 0 <= i < |d.fields| && d.fields[i] == (p, Get(d.fields, p).value);
    ParseListRoundTrip(d, p, draw);
  }

  // -------------------------------------------------------------------------------------------
  // Maps
  // -------------------------------------------------------------------------------------------

  /**
   parse_dict of a flattened map is one `%` entry with its size followed by the map itself, exactly
   when the map has neither a key "#", which the reader drops, nor a key "%", which takes the place of
   the size. In general it is the size entry updated with the map less its "#".
   */
  lemma ParseDictRoundTrip(d: Json, p: string, draw: string -> nat)
    requires d.Obj? && IsConvertible(d) && Clean(d)
    requires Get(d.fields, p).Some? && Get(d.fields, p).value.Obj?
    ensures var map_ := Get(d.fields, p).value.fields;
            && ParseDict(Flattened(d, "", "", draw), p, '.') == PutAll([("%", Num(|map_|))], NoHash(map_))
            && (ParseDict(Flattened(d, "", "", draw), p, '.') == [("%", Num(|map_|))] + map_ <==>
                "#" !in Keys(map_) && "%" !in Keys(map_))
  {
    FlattenableExactly(d);
    var entries := Get(d.fields, p).value.fields;
    ParsedFlattened(d, p, draw);
    ParsedAttribute(d.fields, p, "", draw);
    FieldOfObject(d.fields, p);
    PutAllMerge([], NoHash(FlatMap(entries)));
    NoHashOfMap(entries);
    var size: Dict<Json> := [("%", Num(|entries|))];
    assert size + NoHash(entries) == [size[0]] + NoHash(entries) && (size + NoHash(entries))[1..] == NoHash(entries);
    assert PutAll([], size + NoHash(entries)) == PutAll(Put([], size[0].0, size[0].1), NoHash(entries));
    MapReadExactly(entries);
  }

  lemma MapReadExactly(entries: Dict<Json>)
    requires Distinct(Keys(entries))
    ensures var size := [("%", Num(|entries|))];
            PutAll(size, NoHash(entries)) == size + entries <==> "#" !in Keys(entries) && "%" !in Keys(entries)
  {
    var size: Dict<Json> := [("%", Num(|entries|))];
    assert Keys(size) == ["%"] && "%" in Keys(size);
    NoHashKeys(entries);
    KeysOfConcat(size, entries);
    KeysOfConcat(size, NoHash(entries));
    DistinctConcat(Keys(size), Keys(entries));
    DistinctConcat(Keys(size), Keys(NoHash(entries)));
    PutAllDistinct(size, NoHash(entries));
    PutAllKeepsKeys(size, NoHash(entries), "#");
    if "%" !in Keys(entries) {
      PutAllFresh(size, NoHash(entries));
    }
    if "#" !in Keys(entries) {
      NoHashIsAll(entries);
    } else {
      assert "#" in Keys(size + entries);
    }
  }

  lemma NoHashOfMap(entries: Dict<Json>)
    ensures NoHash(FlatMap(entries)) == [("%", Num(|entries|))] + NoHash(entries)
  {
  }

  lemma {:induction false} NoHashKeys<V>(entries: Dict<V>)
    requires Distinct(Keys(entries))
    ensures Distinct(Keys(NoHash(entries)))
    ensures forall k :: k in Keys(NoHash(entries)) <==> k in Keys(entries) && k != "#"
    decreases |entries|
  {
    if entries != [] {
      var (key, value) := entries[0];
      var rest := NoHash(entries[1..]);
      assert Keys(entries) == [key] + Keys(entries[1..]);
      DistinctConcat([key], Keys(entries[1..]));
      NoHashKeys(entries[1..]);
      assert key in [key];
      if key != "#" {
        assert NoHash(entries) == [(key, value)] + rest;
        assert Keys(NoHash(entries)) == [key] + Keys(rest);
        DistinctConcat([key], Keys(rest));
      } else {
        assert NoHash(entries) == rest;
      }
    }
  }

  lemma {:induction false} FieldOfObject(fields: seq<(string, Json)>, p: string)
    requires FlattenableFields(fields) && CleanFields(fields) && Get(fields, p).Some?
    ensures FlattenableField((p, Get(fields, p).value)) && CleanField((p, Get(fields, p).value))
    decreases |fields|
  {
    if fields[0].0 != p {
      FieldOfObject(fields[1..], p);
    } else {
      assert fields[0] == (p, Get(fields, p).value);
    }
  }

  // -------------------------------------------------------------------------------------------
  // Lists of objects
  // -------------------------------------------------------------------------------------------

  lemma {:induction false} GroupedConcat<V>(attrs: Dict<Dict<V>>, a: Dict<V>, b: Dict<V>, sep: char)
    ensures Grouped(attrs, a + b, sep) ==
            if Grouped(attrs, a, sep).Some? then Grouped(Grouped(attrs, a, sep).value, b, sep) else None
    decreases |a|
  {
    if a == [] {
      assert a + b == b;
    } else {
      assert (a + b)[1..] == a[1..] + b;
      if SplitFirst(a[0].0, sep).Some? {
        var (idx, key) := SplitFirst(a[0].0, sep).value;
        GroupedConcat(PutNested(attrs, idx, key, a[0].1), a[1..], b, sep);
      }
    }
  }

  predicate HasNested<V>(attrs: Dict<Dict<V>>, idx: string, key: string) {
    Get(attrs, idx).Some? && key in Keys(Get(attrs, idx).value)
  }

  lemma NestedPresent<V>(attrs: Dict<Dict<V>>, idx: string, key: string, v: V, i: string, k: string)
    ensures HasNested(PutNested(attrs, idx, key, v), i, k) <==> (i == idx && k == key) || HasNested(attrs, i, k)
  {
    var group := if Get(attrs, idx).Some? then Get(attrs, idx).value else [];
    PutGet(attrs, idx, Put(group, key, v), i);
    PutKeys(group, key, v);
  }

  lemma NestedTwice<V>(attrs: Dict<Dict<V>>, idx: string, key: string, v: V, w: V)
    ensures PutNested(PutNested(attrs, idx, key, v), idx, key, w) == PutNested(attrs, idx, key, w)
  {
    var group := if Get(attrs, idx).Some? then Get(attrs, idx).value else [];
    PutGet(attrs, idx, Put(group, key, v), idx);
    PutTwice(group, key, v, w);
    PutTwice(attrs, idx, Put(group, key, v), Put(group, key, w));
  }

  lemma NestedCommutes<V>(attrs: Dict<Dict<V>>, idx: string, key: string, v: V, i: string, k: string, w: V)
    requires HasNested(attrs, idx, key) && (i, k) != (idx, key)
    ensures PutNested(PutNested(attrs, idx, key, v), i, k, w) == PutNested(PutNested(attrs, i, k, w), idx, key, v)
  {
    var group := Get(attrs, idx).value;
    var other := if Get(attrs, i).Some? then Get(attrs, i).value else [];
    PutGet(attrs, idx, Put(group, key, v), i);
    PutGet(attrs, i, Put(other, k, w), idx);
    GetOfKey(attrs, idx);
    if i == idx {
      PutCommutes(group, key, v, k, w);
      PutTwice(attrs, idx, Put(group, key, v), Put(Put(group, key, v), k, w));
      PutTwice(attrs, idx, Put(group, k, w), Put(Put(group, k, w), key, v));
    } else {
      PutCommutes(attrs, idx, Put(group, key, v), i, Put(other, k, w));
    }
  }

  // An assignment can be done last if no later one has the same key.
  lemma {:induction false} NestedLast<V>(attrs: Dict<Dict<V>>, entries: Dict<V>, idx: string, key: string, v: V, sep: char)
    requires HasNested(attrs, idx, key) && Free(idx, sep) && idx + [sep] + key !in Keys(entries)
    requires Grouped(attrs, entries, sep).Some?
    ensures Grouped(PutNested(attrs, idx, key, v), entries, sep) ==
            Some(PutNested(Grouped(attrs, entries, sep).value, idx, key, v))
    decreases |entries|
  {
    if entries != [] {
      var (i, k) := SplitFirst(entries[0].0, sep).value;
      var w := entries[0].1;
      SplitFirstParts(entries[0].0, sep);
      assert Keys(entries) == [entries[0].0] + Keys(entries[1..]);
      assert (i, k) != (idx, key);
      NestedCommutes(attrs, idx, key, v, i, k, w);
      NestedPresent(attrs, i, k, w, idx, key);
      NestedLast(PutNested(attrs, i, k, w), entries[1..], idx, key, v, sep);
    }
  }

  // Assigning to an entry assigns to what is grouped from it.
  lemma {:induction false} GroupedPut<V>(attrs: Dict<Dict<V>>, m: Dict<V>, k: string, v: V, sep: char)
    requires Distinct(Keys(m)) && Grouped(attrs, m, sep).Some? && SplitFirst(k, sep).Some?
    ensures var (idx, key) := SplitFirst(k, sep).value;
            Grouped(attrs, Put(m, k, v), sep) == Some(PutNested(Grouped(attrs, m, sep).value, idx, key, v))
    decreases |m|
  {
    var (idx, key) := SplitFirst(k, sep).value;
    if m == [] {
      assert [(k, v)][1..] == [];
    } else {
      var (i, j) := SplitFirst(m[0].0, sep).value;
      var old_ := m[0].1;
      assert Keys(m) == [m[0].0] + Keys(m[1..]);
      DistinctConcat([m[0].0], Keys(m[1..]));
      if m[0].0 == k {
        assert Put(m, k, v)[1..] == m[1..] && k in [k];
        SplitFirstParts(k, sep);
        NestedPresent(attrs, i, j, old_, i, j);
        NestedTwice(attrs, i, j, old_, v);
        NestedLast(PutNested(attrs, i, j, old_), m[1..], i, j, v, sep);
      } else {
        assert Put(m, k, v)[1..] == Put(m[1..], k, v);
        GroupedPut(PutNested(attrs, i, j, old_), m[1..], k, v, sep);
      }
    }
  }

  /** So overwriting entries makes no difference to the groups. */
  lemma {:induction false} GroupedPutAll<V>(m: Dict<V>, entries: Dict<V>, sep: char)
    requires Distinct(Keys(m)) && Grouped([], m, sep).Some?
    requires Grouped(Grouped([], m, sep).value, entries, sep).Some?
    ensures Grouped([], PutAll(m, entries), sep) == Grouped(Grouped([], m, sep).value, entries, sep)
    decreases |entries|
  {
    if entries != [] {
      var (k, v) := entries[0];
      GroupedPut([], m, k, v, sep);
      PutDistinct(m, k, v);
      GroupedPutAll(Put(m, k, v), entries[1..], sep);
    }
  }

  // The entries of one element all go to the last group.
  lemma {:induction false} GroupedUnder<V>(attrs: Dict<Dict<V>>, idx: string, got: Dict<V>, entries: Dict<V>)
    requires Free(idx, '.') && idx !in Keys(attrs)
    ensures Grouped(attrs + [(idx, got)], Under(idx + ".", entries), '.') == Some(attrs + [(idx, PutAll(got, entries))])
    decreases |entries|
  {
    if entries != [] {
      var groups := attrs + [(idx, got)];
      assert Under(idx + ".", entries)[1..] == Under(idx + ".", entries[1..]);
      SplitFirstOfJoined(idx, '.', entries[0].0);
      GetOfConcat(attrs, [(idx, got)], idx);
      PutOnLast(attrs, idx, got, Put(got, entries[0].0, entries[0].1));
      GroupedUnder(attrs, idx, Put(got, entries[0].0, entries[0].1), entries[1..]);
    }
  }

  lemma {:induction false} PutOnLast<V>(m: Dict<V>, k: string, v: V, w: V)
    requires k !in Keys(m)
    ensures Put(m + [(k, v)], k, w) == m + [(k, w)]
  {
    if m == [] {
      assert m + [(k, v)] == [(k, v)];
      assert [(k, v)][1..] == [];
    } else {
      assert Keys(m) == [m[0].0] + Keys(m[1..]);
      assert (m + [(k, v)])[1..] == m[1..] + [(k, v)];
      PutOnLast(m[1..], k, v, w);
    }
  }

  // The first entry of an element opens its group.
  lemma GroupedElement<V>(attrs: Dict<Dict<V>>, idx: string, entries: Dict<V>)
    requires Free(idx, '.') && idx !in Keys(attrs)
    ensures Grouped(attrs, Under(idx + ".", entries), '.') ==
            Some(if entries == [] then attrs else attrs + [(idx, PutAll([], entries))])
  {
    if entries != [] {
      assert Under(idx + ".", entries)[1..] == Under(idx + ".", entries[1..]);
      SplitFirstOfJoined(idx, '.', entries[0].0);
      GetOfKey(attrs, idx);
      var first := Put([], entries[0].0, entries[0].1);
      PutKeys(attrs, idx, first);
      GroupedUnder(attrs, idx, first, entries[1..]);
    }
  }

  /** Parts of a dictionary, each below its own name. */
  function UnderEach<V>(names: seq<string>, parts: seq<Dict<V>>): Dict<V>
    requires |names| == |parts|
  {
    if names == [] then [] else Under(names[0] + ".", parts[0]) + UnderEach(names[1..], parts[1..])
  }

  /** The groups of such a dictionary: one for each part with at least one entry. */
  function GroupEach<V>(names: seq<string>, parts: seq<Dict<V>>): Dict<Dict<V>>
    requires |names| == |parts|
  {
    if names == [] then []
    else (if parts[0] == [] then [] else [(names[0], PutAll([], parts[0]))]) + GroupEach(names[1..], parts[1..])
  }

  lemma GroupedInTurn<V>(attrs: Dict<Dict<V>>, a: Dict<V>, mid: Dict<Dict<V>>, b: Dict<V>, result: Dict<Dict<V>>)
    requires Grouped(attrs, a, '.') == Some(mid) && Grouped(mid, b, '.') == Some(result)
    ensures Grouped(attrs, a + b, '.') == Some(result)
  {
    GroupedConcat(attrs, a, b, '.');
  }

  // One part more, in front.
  lemma GroupedFirst<V>(attrs: Dict<Dict<V>>, name: string, part: Dict<V>, group: Dict<Dict<V>>, b: Dict<V>, rest: Dict<Dict<V>>)
    requires Grouped(attrs, Under(name + ".", part), '.') == Some(attrs + group)
    requires Grouped(attrs + group, b, '.') == Some(attrs + group + rest)
    ensures Grouped(attrs, Under(name + ".", part) + b, '.') == Some(attrs + (group + rest))
  {
    assert attrs + group + rest == attrs + (group + rest);
    GroupedInTurn(attrs, Under(name + ".", part), attrs + group, b, attrs + (group + rest));
  }

  lemma {:induction false} GroupedEach<V>(attrs: Dict<Dict<V>>, names: seq<string>, parts: seq<Dict<V>>)
    requires |names| == |parts| && Distinct(Keys(attrs) + names)
    requires forall i :: 0 <= i < |names| ==> Free(names[i], '.')
    ensures Grouped(attrs, UnderEach(names, parts), '.') == Some(attrs + GroupEach(names, parts))
    decreases |names|
  {
    assert attrs + [] == attrs;
    if names != [] {
      var group := if parts[0] == [] then [] else [(names[0], PutAll([], parts[0]))];
      DistinctAfter(attrs, names, group);
      GroupedElement(attrs, names[0], parts[0]);
      GroupedEach(attrs + group, names[1..], parts[1..]);
      GroupedFirst(attrs, names[0], parts[0], group, UnderEach(names[1..], parts[1..]), GroupEach(names[1..], parts[1..]));
    }
  }

  lemma DistinctAfter<V>(attrs: Dict<V>, names: seq<string>, group: Dict<V>)
    requires names != [] && Distinct(Keys(attrs) + names)
    requires group == [] || (|group| == 1 && group[0].0 == names[0])
    ensures names[0] !in Keys(attrs) && Distinct(Keys(attrs + group) + names[1..])
  {
    DistinctConcat(Keys(attrs), names);
    assert names[0] in names;
    if group == [] {
      assert attrs + group == attrs;
      DistinctConcat(Keys(attrs), names[1..]);
    } else {
      assert Keys(attrs + group) + names[1..] == Keys(attrs) + names;
    }
  }

  function Numerals(from: nat, count: nat): seq<string> {
    seq(count, i requires 0 <= i => Numeral(from + i))
  }

  lemma NumeralsAreNames(from: nat, count: nat)
    ensures Distinct(Numerals(from, count))
    ensures forall i :: 0 <= i < count ==> Free(Numerals(from, count)[i], '.')
  {
    forall i, j | 0 <= i < j < count
      ensures Numerals(from, count)[i] != Numerals(from, count)[j]
    {
      NumeralsDiffer(from + i, from + j);
    }
    forall i | 0 <= i < count
      ensures Free(Numerals(from, count)[i], '.')
    {
      NumeralIsFree(from + i, '.');
    }
  }

  /** What each element of a list stores. */
  function Parts(items: seq<Json>, from: nat, at: string, draw: string -> nat): seq<Dict<Json>>
    decreases |items|
  {
    if items == [] then []
    else [Flat(items[0], at + (Numeral(from) + "."), draw)] + Parts(items[1..], from + 1, at, draw)
  }

  lemma {:induction false} ItemsAreParts(items: seq<Json>, from: nat, at: string, draw: string -> nat)
    ensures |Parts(items, from, at, draw)| == |items|
    ensures FlatItems(items, from, at, draw) == UnderEach(Numerals(from, |items|), Parts(items, from, at, draw))
    decreases |items|
  {
    if items != [] {
      ItemsAreParts(items[1..], from + 1, at, draw);
      assert Numerals(from, |items|)[1..] == Numerals(from + 1, |items[1..]|);
      assert Parts(items, from, at, draw)[1..] == Parts(items[1..], from + 1, at, draw);
    }
  }

  /** The elements flattened on their own, in order, without those that give an empty dictionary. */
  function FlattenedElements(items: seq<Json>, from: nat, at: string, draw: string -> nat): seq<Dict<Json>>
    decreases |items|
  {
    if items == [] then []
    else
      var flattened := Flattened(items[0], "", at + (Numeral(from) + "."), draw);
      (if flattened == [] then [] else [flattened]) + FlattenedElements(items[1..], from + 1, at, draw)
  }

  lemma FlattenedAlone(item: Json, at: string, draw: string -> nat)
    ensures Flattened(item, "", at, draw) == PutAll([], Flat(item, at, draw))
    ensures Flattened(item, "", at, draw) == [] <==> Flat(item, at, draw) == []
    ensures Flattened(item, "", at, draw) == [] <==> EntryCount(item) == 0
  {
    var entries := Flat(item, at, draw);
    FlatSize(item, at, draw);
    assert forall i :: 0 <= i < |entries| ==> "" + entries[i].0 == entries[i].0;
    assert Under("", entries) == entries;
    if entries != [] {
      PutAllKeepsKeys([], entries, entries[0].0);
      assert Keys(entries)[0] == entries[0].0;
    }
  }

  lemma {:induction false} GroupsAreElements(items: seq<Json>, names: seq<string>, from: nat, at: string, draw: string -> nat)
    requires |names| == |items| == |Parts(items, from, at, draw)|
    ensures Values(GroupEach(names, Parts(items, from, at, draw))) == FlattenedElements(items, from, at, draw)
    decreases |items|
  {
    if items != [] {
      FlattenedAlone(items[0], at + (Numeral(from) + "."), draw);
      assert Parts(items, from, at, draw)[1..] == Parts(items[1..], from + 1, at, draw);
      GroupsAreElements(items[1..], names[1..], from + 1, at, draw);
    }
  }

  /** An element is missing exactly when there is nothing to store for it, as with {"tags": []}. */
  lemma {:induction false} NoElementDropped(items: seq<Json>, from: nat, at: string, draw: string -> nat)
    ensures |FlattenedElements(items, from, at, draw)| <= |items|
    ensures |FlattenedElements(items, from, at, draw)| == |items| <==> HasEntries(items)
    decreases |items|
  {
    if items != [] {
      FlattenedAlone(items[0], at + (Numeral(from) + "."), draw);
      NoElementDropped(items[1..], from + 1, at, draw);
    }
  }

  predicate HasEntries(items: seq<Json>)
  {
    items == [] || (EntryCount(items[0]) > 0 && HasEntries(items[1..]))
  }

  lemma AttrListOfItems(source: Dict<Json>, p: string, items: seq<Json>, at: string, draw: string -> nat)
    requires Parsed(source, p, '.') == PutAll([], FlatItems(items, 0, at, draw))
    ensures AttrList(source, p, '.') == Some(FlattenedElements(items, 0, at, draw))
  {
    var names, parts := Numerals(0, |items|), Parts(items, 0, at, draw);
    ItemsAreParts(items, 0, at, draw);
    NumeralsAreNames(0, |items|);
    assert Keys<Dict<Json>>([]) + names == names;
    GroupedEach([], names, parts);
    assert [] + GroupEach(names, parts) == GroupEach(names, parts);
    GroupedPutAll([], FlatItems(items, 0, at, draw), '.');
    GroupsAreElements(items, names, 0, at, draw);
  }

  /**
   Reading back a flattened list commutes with flattening: parse_attr_list of the flattened object
   gives the elements flattened on their own, in order and with the same random draws, all of them
   exactly when every element has at least one entry.
   */
  lemma ParseAttrListCommutes(d: Json, p: string, draw: string -> nat)
    requires d.Obj? && IsConvertible(d) && Clean(d)
    requires Get(d.fields, p).Some? && Get(d.fields, p).value.List?
    ensures var items := Get(d.fields, p).value.items;
            && FlattenableItems(items)
            && AttrList(Flattened(d, "", "", draw), p, '.') == Some(FlattenedElements(items, 0, p + ".", draw))
            && (|FlattenedElements(items, 0, p + ".", draw)| == |items| <==> HasEntries(items))
  {
    FlattenableExactly(d);
    var value := Get(d.fields, p).value;
    FieldOfObject(d.fields, p);
    assert FlattenableElements(value);
    ParsedFlattened(d, p, draw);
    ParsedAttribute(d.fields, p, "", draw);
    assert "" + p + "." == p + ".";
    ListWithoutHash(value, p + ".", draw);
    AttrListOfItems(Flattened(d, "", "", draw), p, value.items, p + ".", draw);
    NoElementDropped(value.items, 0, p + ".", draw);
  }

  // Assigning never moves the first entry.
  lemma {:induction false} FirstStays<V>(m: Dict<V>, entries: Dict<V>)
    requires m != []
    ensures PutAll(m, entries) != [] && PutAll(m, entries)[0].0 == m[0].0
    decreases |entries|
  {
    if entries != [] {
      FirstStays(Put(m, entries[0].0, entries[0].1), entries[1..]);
    }
  }

  /** On the attributes of a map, parse_attr_list fails on the size entry, which has no second dot. */
  lemma ParseAttrListOfMapFails(d: Json, p: string, draw: string -> nat)
    requires d.Obj? && IsConvertible(d) && Clean(d)
    requires Get(d.fields, p).Some? && Get(d.fields, p).value.Obj?
    ensures AttrList(Flattened(d, "", "", draw), p, '.') == None
  {
    FlattenableExactly(d);
    var fields := Get(d.fields, p).value.fields;
    ParsedFlattened(d, p, draw);
    ParsedAttribute(d.fields, p, "", draw);
    NoHashOfMap(fields);
    var read := NoHash(FlatMap(fields));
    assert read[0] == ("%", Num(|fields|));
    FirstStays([read[0]], read[1..]);
    assert SplitFirst("%", '.') == None;
  }
}
