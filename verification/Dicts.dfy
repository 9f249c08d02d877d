/** Python dictionaries: insertion-ordered, assignment to a present key keeps its place. */
module Dicts {
  import opened Options

  type Dict<V> = seq<(string, V)>

  function Keys<V>(m: Dict<V>): seq<string> {
    seq(|m|, i requires 0 <= i < |m| => m[i].0)
  }

  function Values<V>(m: Dict<V>): seq<V> {
    seq(|m|, i requires 0 <= i < |m| => m[i].1)
  }

  predicate Distinct(keys: seq<string>) {
    forall i, j :: 0 <= i < j < |keys| ==> keys[i] != keys[j]
  }

  function Get<V>(m: Dict<V>, k: string): Option<V> {
    if m == [] then None else if m[0].0 == k then Some(m[0].1) else Get(m[1..], k)
  }

  /** m[k] = v */
  function Put<V>(m: Dict<V>, k: string, v: V): Dict<V> {
    if m == [] then [(k, v)]
    else if m[0].0 == k then [(k, v)] + m[1..]
    else [m[0]] + Put(m[1..], k, v)
  }

  /** del m[k], or m.pop(k), of a key that occurs at most once */
  function Remove<V>(m: Dict<V>, k: string): Dict<V> {
    if m == [] then [] else if m[0].0 == k then m[1..] else [m[0]] + Remove(m[1..], k)
  }

  /** m.update(entries), or one assignment after the other */
  function PutAll<V>(m: Dict<V>, entries: Dict<V>): Dict<V>
    decreases |entries|
  {
    if entries == [] then m else PutAll(Put(m, entries[0].0, entries[0].1), entries[1..])
  }

  lemma {:induction false} GetOfKey<V>(m: Dict<V>, k: string)
    ensures Get(m, k).Some? <==> k in Keys(m)
    ensures Get(m, k).Some? ==> (k, Get(m, k).value) in m
  {
    if m != [] {
      assert Keys(m) == [m[0].0] + Keys(m[1..]);
      GetOfKey(m[1..], k);
    }
  }

  lemma {:induction false} GetOfEntry<V>(m: Dict<V>, i: nat)
    requires Distinct(Keys(m)) && i < |m|
    ensures Get(m, m[i].0) == Some(m[i].1)
  {
    if i > 0 {
      assert Keys(m)[0] != Keys(m)[i];
      assert Keys(m[1..]) == Keys(m)[1..];
      GetOfEntry(m[1..], i - 1);
    }
  }

  lemma {:induction false} GetOfConcat<V>(a: Dict<V>, b: Dict<V>, k: string)
    ensures Get(a + b, k) == if k in Keys(a) then Get(a, k) else Get(b, k)
  {
    if a == [] {
      assert a + b == b;
    } else {
      assert (a + b)[1..] == a[1..] + b;
      assert Keys(a) == [a[0].0] + Keys(a[1..]);
      GetOfConcat(a[1..], b, k);
    }
  }

  lemma KeysOfConcat<V>(a: Dict<V>, b: Dict<V>)
    ensures Keys(a + b) == Keys(a) + Keys(b)
  {
  }

  lemma DistinctConcat(a: seq<string>, b: seq<string>)
    ensures Distinct(a + b) <==> Distinct(a) && Distinct(b) && forall k :: k in a ==> k !in b
  {
    if Distinct(a + b) {
      forall i, j | 0 <= i < |a| && 0 <= j < |b|
        ensures a[i] != b[j]
      {
        assert (a + b)[i] != (a + b)[|a| + j];
      }
      assert forall i :: 0 <= i < |b| ==> b[i] == (a + b)[|a| + i];
      assert forall i :: 0 <= i < |a| ==> a[i] == (a + b)[i];
    } else {
      var i, j :| 0 <= i < j < |a + b| && (a + b)[i] == (a + b)[j];
      assert (a + b)[i] in a || (a + b)[i] in b;
    }
  }

  lemma {:induction false} PutKeys<V>(m: Dict<V>, k: string, v: V)
    ensures Keys(Put(m, k, v)) == if k in Keys(m) then Keys(m) else Keys(m) + [k]
    ensures k !in Keys(m) ==> Put(m, k, v) == m + [(k, v)]
  {
    if m != [] {
      assert Keys(m) == [m[0].0] + Keys(m[1..]);
      PutKeys(m[1..], k, v);
    }
  }

  lemma PutDistinct<V>(m: Dict<V>, k: string, v: V)
    requires Distinct(Keys(m))
    ensures Distinct(Keys(Put(m, k, v)))
  {
    PutKeys(m, k, v);
  }

  lemma {:induction false} PutGet<V>(m: Dict<V>, k: string, v: V, q: string)
    ensures Get(Put(m, k, v), q) == if q == k then Some(v) else Get(m, q)
  {
    if m != [] {
      PutGet(m[1..], k, v, q);
    }
  }

  lemma {:induction false} PutSame<V>(m: Dict<V>, k: string, v: V)
    requires Get(m, k) == Some(v)
    ensures Put(m, k, v) == m
  {
    if m[0].0 != k {
      PutSame(m[1..], k, v);
    }
  }

  lemma {:induction false} PutTwice<V>(m: Dict<V>, k: string, v: V, w: V)
    ensures Put(Put(m, k, v), k, w) == Put(m, k, w)
  {
    if m != [] && m[0].0 != k {
      PutTwice(m[1..], k, v, w);
    }
  }

  lemma {:induction false} PutCommutes<V>(m: Dict<V>, k: string, v: V, k': string, v': V)
    requires k in Keys(m) && k != k'
    ensures Put(Put(m, k, v), k', v') == Put(Put(m, k', v'), k, v)
  {
    if m[0].0 != k {
      assert Keys(m) == [m[0].0] + Keys(m[1..]);
      PutCommutes(m[1..], k, v, k', v');
    }
  }

  lemma {:induction false} RemoveKeys<V>(m: Dict<V>, k: string)
    requires Distinct(Keys(m))
    ensures Distinct(Keys(Remove(m, k)))
    ensures forall q :: q in Keys(Remove(m, k)) <==> q in Keys(m) && q != k
    ensures |Remove(m, k)| == if k in Keys(m) then |m| - 1 else |m|
    decreases |m|
  {
    if m != [] {
      assert Keys(m) == [m[0].0] + Keys(m[1..]);
      DistinctConcat([m[0].0], Keys(m[1..]));
      RemoveKeys(m[1..], k);
      DistinctConcat([m[0].0], Keys(Remove(m[1..], k)));
      assert m[0].0 != k ==> Keys(Remove(m, k)) == [m[0].0] + Keys(Remove(m[1..], k));
    }
  }

  lemma {:induction false} PutAllConcat<V>(m: Dict<V>, a: Dict<V>, b: Dict<V>)
    ensures PutAll(m, a + b) == PutAll(PutAll(m, a), b)
    decreases |a|
  {
    if a == [] {
      assert a + b == b;
    } else {
      assert (a + b)[1..] == a[1..] + b;
      PutAllConcat(Put(m, a[0].0, a[0].1), a[1..], b);
    }
  }

  lemma PutAllLast<V>(m: Dict<V>, a: Dict<V>, k: string, v: V)
    ensures PutAll(m, a + [(k, v)]) == Put(PutAll(m, a), k, v)
  {
    PutAllConcat(m, a, [(k, v)]);
    assert [(k, v)][1..] == [];
  }

  /** Nothing is lost or moved when all keys are new. */
  lemma {:induction false} PutAllFresh<V>(m: Dict<V>, entries: Dict<V>)
    requires Distinct(Keys(m + entries))
    ensures PutAll(m, entries) == m + entries
    decreases |entries|
  {
    if entries == [] {
      assert m + entries == m;
    } else {
      var (k, v) := entries[0];
      KeysOfConcat(m, entries);
      DistinctConcat(Keys(m), Keys(entries));
      assert Keys(entries)[0] == k;
      PutKeys(m, k, v);
      assert m + [(k, v)] + entries[1..] == m + entries;
      PutAllFresh(m + [(k, v)], entries[1..]);
    }
  }

  lemma {:induction false} PutAllDistinct<V>(m: Dict<V>, entries: Dict<V>)
    requires Distinct(Keys(m))
    ensures Distinct(Keys(PutAll(m, entries)))
    ensures |PutAll(m, entries)| <= |m| + |entries|
    decreases |entries|
  {
    if entries != [] {
      PutDistinct(m, entries[0].0, entries[0].1);
      PutKeys(m, entries[0].0, entries[0].1);
      assert |Put(m, entries[0].0, entries[0].1)| == |Keys(Put(m, entries[0].0, entries[0].1))| <= |m| + 1;
      PutAllDistinct(Put(m, entries[0].0, entries[0].1), entries[1..]);
    }
  }

  lemma {:induction false} PutAllKeepsKeys<V>(m: Dict<V>, entries: Dict<V>, k: string)
    ensures k in Keys(PutAll(m, entries)) <==> k in Keys(m) || k in Keys(entries)
    decreases |entries|
  {
    if entries != [] {
      PutKeys(m, entries[0].0, entries[0].1);
      PutAllKeepsKeys(Put(m, entries[0].0, entries[0].1), entries[1..], k);
      assert Keys(entries) == [entries[0].0] + Keys(entries[1..]);
    }
  }

  // Assigning to a key that later assignments leave alone can be done last.
  lemma {:induction false} PutBeforeOthers<V>(m: Dict<V>, k: string, v: V, others: Dict<V>)
    requires k in Keys(m) && k !in Keys(others)
    ensures PutAll(Put(m, k, v), others) == Put(PutAll(m, others), k, v)
    decreases |others|
  {
    if others != [] {
      var (k', v') := others[0];
      assert Keys(others)[0] == k';
      assert Keys(others) == [k'] + Keys(others[1..]);
      PutCommutes(m, k, v, k', v');
      PutKeys(m, k', v');
      PutBeforeOthers(Put(m, k', v'), k, v, others[1..]);
    }
  }

  lemma {:induction false} PutAllOfPut<V>(m: Dict<V>, entries: Dict<V>, k: string, v: V)
    requires Distinct(Keys(entries))
    ensures PutAll(m, Put(entries, k, v)) == Put(PutAll(m, entries), k, v)
    decreases |entries|
  {
    if entries == [] {
      PutAllLast(m, [], k, v);
    } else {
      var (k0, v0) := entries[0];
      assert Keys(entries) == [k0] + Keys(entries[1..]);
      assert Distinct(Keys(entries[1..])) by {
        assert Keys(entries[1..]) == Keys(entries)[1..];
      }
      if k0 == k {
        DistinctConcat([k], Keys(entries[1..]));
        assert Put(entries, k, v)[1..] == entries[1..];
        PutTwice(m, k, v0, v);
        PutKeys(m, k, v0);
        PutBeforeOthers(Put(m, k, v0), k, v, entries[1..]);
      } else {
        assert Put(entries, k, v)[1..] == Put(entries[1..], k, v);
        PutAllOfPut(Put(m, k0, v0), entries[1..], k, v);
      }
    }
  }

  /** Updating with a dictionary is repeating the assignments that built it. */
  lemma {:induction false} PutAllMerge<V>(m: Dict<V>, entries: Dict<V>)
    ensures PutAll(m, PutAll([], entries)) == PutAll(m, entries)
    decreases |entries|
  {
    if entries != [] {
      var n := |entries| - 1;
      var (k, v) := entries[n];
      assert entries == entries[..n] + [(k, v)];
      PutAllLast([], entries[..n], k, v);
      PutAllLast(m, entries[..n], k, v);
      PutAllDistinct([], entries[..n]);
      PutAllOfPut(m, PutAll([], entries[..n]), k, v);
      PutAllMerge(m, entries[..n]);
    }
  }

  /** The keys were distinct exactly when no assignment overwrote another. */
  lemma {:induction false} PutAllSize<V>(entries: Dict<V>)
    ensures |PutAll([], entries)| == |entries| <==> Distinct(Keys(entries))
    ensures |PutAll([], entries)| <= |entries|
    decreases |entries|
  {
    if entries != [] {
      var n := |entries| - 1;
      var (k, v) := entries[n];
      assert entries == entries[..n] + [(k, v)];
      PutAllSize(entries[..n]);
      PutAllLast([], entries[..n], k, v);
      PutKeys(PutAll([], entries[..n]), k, v);
      assert |Put(PutAll([], entries[..n]), k, v)| == |Keys(Put(PutAll([], entries[..n]), k, v))|;
      PutAllKeepsKeys([], entries[..n], k);
      KeysOfConcat(entries[..n], [(k, v)]);
      assert Keys([(k, v)]) == [k];
      DistinctConcat(Keys(entries[..n]), [k]);
    }
  }
}
