/**
 The window function of assignment5/WordCount.java: a TreeMap keeps the last count of every word,
 and a TreeSet whose comparator never answers 0 sorts the entries by count.
 */
module SortedCounts {
  import opened Streams

  // -------------------------------------------------------------------------------------------
  // The order of words (String.compareTo)
  // -------------------------------------------------------------------------------------------

  predicate Less(a: string, b: string) {
    b != "" && (a == "" || a[0] < b[0] || (a[0] == b[0] && Less(a[1..], b[1..])))
  }

  /** At the first place where they differ a has the smaller character, or a is at its end there. */
  predicate DiffersFirstAt(a: string, b: string, i: nat) {
    && i <= |a| && i < |b| && a[..i] == b[..i]
    && (i == |a| || a[i] < b[i])
  }

  lemma {:induction false} LessIsLexicographic(a: string, b: string)
    ensures Less(a, b) <==> exists i: nat :: DiffersFirstAt(a, b, i)
  {
    if a == "" {
      assert b != "" ==> DiffersFirstAt(a, b, 0);
    } else if b != "" && a[0] == b[0] {
      LessIsLexicographic(a[1..], b[1..]);
      if i: nat :| DiffersFirstAt(a[1..], b[1..], i) {
        assert a[..i + 1] == [a[0]] + a[1..][..i] && b[..i + 1] == [b[0]] + b[1..][..i];
        assert DiffersFirstAt(a, b, i + 1);
      }
      if i: nat :| DiffersFirstAt(a, b, i) {
        assert i > 0;
        assert a[1..][..i - 1] == a[..i][1..] && b[1..][..i - 1] == b[..i][1..];
        assert DiffersFirstAt(a[1..], b[1..], i - 1);
      }
    } else if b != "" {
      assert a[0] < b[0] ==> DiffersFirstAt(a, b, 0);
      if i: nat :| DiffersFirstAt(a, b, i) {
        assert i > 0 ==> a[..i][0] == b[..i][0];
      }
    }
  }

  lemma {:induction false} LessIsTransitive(a: string, b: string, c: string)
    requires Less(a, b) && Less(b, c)
    ensures Less(a, c)
  {
    if a != "" && a[0] == b[0] == c[0] {
      LessIsTransitive(a[1..], b[1..], c[1..]);
    }
  }

  lemma {:induction false} LessIsTotal(a: string, b: string)
    ensures Less(a, b) || a == b || Less(b, a)
  {
    if a != "" && b != "" && a[0] == b[0] {
      LessIsTotal(a[1..], b[1..]);
      assert a == [a[0]] + a[1..] && b == [b[0]] + b[1..];
    }
  }

  lemma {:induction false} LessIsStrict(a: string, b: string)
    requires Less(a, b)
    ensures a != b && !Less(b, a)
  {
    if a != "" && a[0] == b[0] {
      LessIsStrict(a[1..], b[1..]);
    }
  }

  // -------------------------------------------------------------------------------------------
  // The TreeMap
  // -------------------------------------------------------------------------------------------

  predicate SortedByWord(entries: seq<Entry>) {
    forall i, j :: 0 <= i < j < |entries| ==> Less(entries[i].word, entries[j].word)
  }

  /** The count given last for every word of a sequence. */
  function LastCounts(entries: seq<Entry>): map<string, int> {
    if entries == [] then map[]
    else
      var last := entries[|entries| - 1];
      LastCounts(entries[..|entries| - 1])[last.word := last.count]
  }

  /** The last entry of each word decides. */
  lemma {:induction false} LastCountsMeans(entries: seq<Entry>, i: nat)
    requires i < |entries| && forall k :: i < k < |entries| ==> entries[k].word != entries[i].word
    ensures entries[i].word in LastCounts(entries) && LastCounts(entries)[entries[i].word] == entries[i].count
  {
    var n := |entries| - 1;
    if i < n {
      assert entries[n].word != entries[i].word;
      LastCountsMeans(entries[..n], i);
    }
  }

  lemma {:induction false} LastCountsOnly(entries: seq<Entry>, word: string)
    ensures word in LastCounts(entries) <==> exists i :: 0 <= i < |entries| && entries[i].word == word
  {
    if entries != [] {
      var n := |entries| - 1;
      LastCountsOnly(entries[..n], word);
      assert forall i :: 0 <= i < n ==> entries[..n][i] == entries[i];
    }
  }

  /** The entries are those of the map. */
  predicate Lists(m: map<string, int>, entries: seq<Entry>) {
    && (forall i :: 0 <= i < |entries| ==> entries[i].word in m && m[entries[i].word] == entries[i].count)
    && (forall w :: w in m ==> Entry(w, m[w]) in entries)
  }

  class TreeMap {
    var entries: seq<Entry>
    ghost var Contents: map<string, int>

    ghost predicate Valid()
      reads this
    {
      SortedByWord(entries) && Lists(Contents, entries)
    }

    constructor ()
      ensures Valid() && Contents == map[]
    {
      entries := [];
      Contents := map[];
    }

    method Put(word: string, count: int)
      requires Valid()
      modifies this
      ensures Valid() && Contents == old(Contents)[word := count]
    {
      var i := 0;
      while i < |entries| && Less(entries[i].word, word)
        invariant 0 <= i <= |entries|
        invariant forall k :: 0 <= k < i ==> Less(entries[k].word, word)
      {
        i := i + 1;
      }
      PutKeepsSorted(entries, i, word, count);
      PutKeepsListed(Contents, entries, i, word, count);
      entries := PutAt(entries, i, Entry(word, count));
      Contents := Contents[word := count];
    }
  }

  /** The entry replaces the one at place i if that has the same word, else it goes in before it. */
  function PutAt(entries: seq<Entry>, i: nat, e: Entry): seq<Entry>
    requires i <= |entries|
  {
    if i < |entries| && entries[i].word == e.word then entries[i := e]
    else entries[..i] + [e] + entries[i..]
  }

  predicate IsPlaceOf(entries: seq<Entry>, i: nat, word: string) {
    && i <= |entries|
    && (forall k :: 0 <= k < i ==> Less(entries[k].word, word))
    && (i < |entries| ==> !Less(entries[i].word, word))
  }

  lemma WordsAfterPlace(entries: seq<Entry>, i: nat, word: string, k: nat)
    requires SortedByWord(entries) && IsPlaceOf(entries, i, word) && i <= k < |entries|
    ensures entries[k].word == word ==> k == i
    ensures entries[k].word != word ==> Less(word, entries[k].word)
  {
    LessIsTotal(word, entries[i].word);
    if k > i {
      if Less(word, entries[i].word) {
        LessIsTransitive(word, entries[i].word, entries[k].word);
      }
      LessIsStrict(word, entries[k].word);
    }
  }

  lemma PutKeepsSorted(entries: seq<Entry>, i: nat, word: string, count: int)
    requires SortedByWord(entries) && IsPlaceOf(entries, i, word)
    ensures SortedByWord(PutAt(entries, i, Entry(word, count)))
  {
    forall k | i <= k < |entries|
      ensures entries[k].word == word || Less(word, entries[k].word)
    {
      WordsAfterPlace(entries, i, word, k);
    }
    forall k | i < k < |entries|
      ensures Less(word, entries[k].word)
    {
      WordsAfterPlace(entries, i, word, k);
    }
  }

  lemma PutKeepsListed(m: map<string, int>, entries: seq<Entry>, i: nat, word: string, count: int)
    requires SortedByWord(entries) && IsPlaceOf(entries, i, word) && Lists(m, entries)
    ensures Lists(m[word := count], PutAt(entries, i, Entry(word, count)))
  {
    var after := PutAt(entries, i, Entry(word, count));
    forall k | 0 <= k < |entries| && k != i
      ensures entries[k].word != word
    {
      if k < i {
        LessIsStrict(entries[k].word, word);
      } else {
        WordsAfterPlace(entries, i, word, k);
      }
    }
    var m' := m[word := count];
    forall w | w in m'
      ensures Entry(w, m'[w]) in after
    {
      if w == word {
        assert after[i] == Entry(word, count);
      } else {
        var k :| 0 <= k < |entries| && entries[k] == Entry(w, m[w]);
        assert k != i || entries[i].word != word;
        assert after[if k < i || |after| == |entries| then k else k + 1] == entries[k];
      }
    }
  }

  // -------------------------------------------------------------------------------------------
  // The TreeSet
  // -------------------------------------------------------------------------------------------

  datatype Tree = Leaf | Node(left: Tree, entry: Entry, right: Tree)

  function InOrder(t: Tree): seq<Entry> {
    match t
    case Leaf => []
    case Node(l, e, r) => InOrder(l) + [e] + InOrder(r)
  }

  // Integer.compareTo
  function CompareInts(x: int, y: int): int {
    if x < y then -1 else if x == y then 0 else 1
  }

  /** The comparator of the TreeSet: equal counts compare as "greater", so it never answers 0. */
  function Compare(e1: Entry, e2: Entry): int {
    var res := CompareInts(e2.count, e1.count);
    if res != 0 then res else 1
  }

  /** The search of TreeMap.put; an entry that compares equal to one of the set is not added. */
  function Insert(t: Tree, e: Entry): Tree {
    match t
    case Leaf => Node(Leaf, e, Leaf)
    case Node(l, x, r) =>
      var c := Compare(e, x);
      if c < 0 then Node(Insert(l, e), x, r)
      else if c > 0 then Node(l, x, Insert(r, e))
      else t
  }

  predicate Descending(entries: seq<Entry>) {
    forall i, j :: 0 <= i < j < |entries| ==> entries[i].count >= entries[j].count
  }

  /** e, after every entry whose count is at least its own. */
  function Place(entries: seq<Entry>, e: Entry): seq<Entry> {
    if entries != [] && entries[0].count >= e.count then [entries[0]] + Place(entries[1..], e)
    else [e] + entries
  }

  lemma {:induction false} PlaceInParts(a: seq<Entry>, x: Entry, b: seq<Entry>, e: Entry)
    requires Descending(a + [x] + b)
    ensures Place(a + [x] + b, e) == if x.count >= e.count then a + [x] + Place(b, e) else Place(a, e) + [x] + b
  {
    var s := a + [x] + b;
    if a == [] {
      assert s[1..] == b;
    } else {
      assert s[0] == a[0];
      assert s[|a|] == x;
      assert s[1..] == a[1..] + [x] + b;
      PlaceInParts(a[1..], x, b, e);
    }
  }

  // Parts of a tree with descending counts have descending counts.
  lemma DescendingParts(l: Tree, x: Entry, r: Tree)
    requires Descending(InOrder(Node(l, x, r)))
    ensures Descending(InOrder(l)) && Descending(InOrder(r))
    ensures Descending(InOrder(l) + [x] + InOrder(r))
  {
    var s := InOrder(l) + [x] + InOrder(r);
    assert forall k :: 0 <= k < |InOrder(l)| ==> InOrder(l)[k] == s[k];
    assert forall k :: 0 <= k < |InOrder(r)| ==> InOrder(r)[k] == s[|InOrder(l)| + 1 + k];
  }

  lemma InsertStep(l: Tree, x: Entry, r: Tree, e: Entry)
    ensures InOrder(Insert(Node(l, x, r), e)) ==
            if e.count > x.count then InOrder(Insert(l, e)) + [x] + InOrder(r)
            else InOrder(l) + [x] + InOrder(Insert(r, e))
  {
    assert Compare(e, x) < 0 <==> e.count > x.count;
    assert Compare(e, x) != 0;
  }

  /** Whatever shape the tree has, the search puts a new entry in the right place and drops none. */
  lemma {:induction false} InsertPlaces(t: Tree, e: Entry)
    requires Descending(InOrder(t))
    ensures InOrder(Insert(t, e)) == Place(InOrder(t), e)
  {
    match t
    case Leaf =>
    case Node(l, x, r) =>
      DescendingParts(l, x, r);
      PlaceInParts(InOrder(l), x, InOrder(r), e);
      InsertStep(l, x, r, e);
      InsertPlaces(l, e);
      InsertPlaces(r, e);
  }

  /** Rotations and recolourings of the red-black tree: any change that keeps the in-order contents. */
  ghost predicate KeepsContents(rebalance: Tree -> Tree) {
    forall t :: InOrder(rebalance(t)) == InOrder(t)
  }

  /** TreeSet<Map.Entry> with the comparator above. */
  class TreeSet {
    var root: Tree
    const rebalance: Tree -> Tree

    constructor (rebalance: Tree -> Tree)
      ensures InOrder(root) == [] && this.rebalance == rebalance
    {
      root := Leaf;
      this.rebalance := rebalance;
    }

    method Add(e: Entry)
      requires KeepsContents(rebalance) && Descending(InOrder(root))
      modifies this
      ensures InOrder(root) == Place(old(InOrder(root)), e)
    {
      InsertPlaces(root, e);
      root := rebalance(Insert(root, e));
    }
  }

  // -------------------------------------------------------------------------------------------
  // The ranking
  // -------------------------------------------------------------------------------------------

  /** Higher counts first, equal counts in the order of the words. */
  predicate Before(a: Entry, b: Entry) {
    a.count > b.count || (a.count == b.count && Less(a.word, b.word))
  }

  predicate Ranked(entries: seq<Entry>) {
    forall i, j :: 0 <= i < j < |entries| ==> Before(entries[i], entries[j])
  }

  predicate IsRankingOf(m: map<string, int>, entries: seq<Entry>) {
    Ranked(entries) && Lists(m, entries)
  }

  /** There is only one ranking of a map. */
  lemma {:induction false} RankingIsUnique(m: map<string, int>, a: seq<Entry>, b: seq<Entry>)
    requires IsRankingOf(m, a) && IsRankingOf(m, b)
    ensures a == b
  {
    SameRankedEntries(a, b);
  }

  lemma BeforeIsStrict(a: Entry, b: Entry)
    requires Before(a, b)
    ensures a != b && !Before(b, a)
  {
    if a.count == b.count {
      LessIsStrict(a.word, b.word);
    }
  }

  lemma {:induction false} SameRankedEntries(a: seq<Entry>, b: seq<Entry>)
    requires Ranked(a) && Ranked(b)
    requires (forall e :: e in a ==> e in b) && (forall e :: e in b ==> e in a)
    ensures a == b
  {
    assert a != [] ==> a[0] in b;
    assert b != [] ==> b[0] in a;
    if a != [] {
      var i :| 0 <= i < |a| && a[i] == b[0];
      var j :| 0 <= j < |b| && b[j] == a[0];
      if i > 0 && j > 0 {
        BeforeIsStrict(a[0], a[i]);
      }
      assert a[0] == b[0];
      TailHasTheRest(a);
      TailHasTheRest(b);
      SameRankedEntries(a[1..], b[1..]);
      assert a == [a[0]] + a[1..] && b == [b[0]] + b[1..];
    }
  }

  lemma TailHasTheRest(a: seq<Entry>)
    requires a != [] && Ranked(a)
    ensures Ranked(a[1..])
    ensures forall e :: e in a[1..] <==> e in a && e != a[0]
  {
    forall e | e in a[1..]
      ensures e != a[0] && e in a
    {
      var k :| 0 <= k < |a[1..]| && a[1..][k] == e;
      BeforeIsStrict(a[0], a[k + 1]);
    }
    forall e | e in a && e != a[0]
      ensures e in a[1..]
    {
      var k :| 0 <= k < |a| && a[k] == e;
      assert a[1..][k - 1] == e;
    }
  }

  lemma {:induction false} PlaceKeepsRanked(entries: seq<Entry>, e: Entry)
    requires Ranked(entries) && forall x :: x in entries ==> Less(x.word, e.word)
    ensures Ranked(Place(entries, e)) && Descending(Place(entries, e))
    ensures forall x :: x in Place(entries, e) <==> x in entries || x == e
  {
    if entries != [] && entries[0].count >= e.count {
      PlaceKeepsRanked(entries[1..], e);
      assert entries[0] in entries;
      forall x | x in Place(entries[1..], e)
        ensures Before(entries[0], x)
      {
        if x in entries[1..] {
          var k :| 0 <= k < |entries[1..]| && entries[1..][k] == x;
          assert Before(entries[0], entries[k + 1]);
        }
      }
      assert entries == [entries[0]] + entries[1..];
    } else if entries != [] {
      forall k | 0 <= k < |entries|
        ensures Before(e, entries[k])
      {
        assert k > 0 ==> Before(entries[0], entries[k]);
      }
    }
  }

  method EntriesSortedByValues(counts: TreeMap, rebalance: Tree -> Tree) returns (sortedEntries: TreeSet)
    requires counts.Valid() && KeepsContents(rebalance)
    ensures fresh(sortedEntries)
    ensures IsRankingOf(counts.Contents, InOrder(sortedEntries.root))
  {
    sortedEntries := new TreeSet(rebalance);
    for i := 0 to |counts.entries|
      invariant fresh(sortedEntries) && sortedEntries.rebalance == rebalance
      invariant Ranked(InOrder(sortedEntries.root)) && Descending(InOrder(sortedEntries.root))
      invariant forall x :: x in InOrder(sortedEntries.root) <==> x in counts.entries[..i]
    {
      PlaceKeepsRanked(InOrder(sortedEntries.root), counts.entries[i]);
      sortedEntries.Add(counts.entries[i]);
    }
    var sorted := InOrder(sortedEntries.root);
    assert counts.entries[..|counts.entries|] == counts.entries;
    assert forall k :: 0 <= k < |sorted| ==> sorted[k] in counts.entries;
  }

  lemma LastCountsOfPrefix(elements: seq<Entry>, i: nat)
    requires i < |elements|
    ensures LastCounts(elements[..i + 1]) == LastCounts(elements[..i])[elements[i].word := elements[i].count]
  {
    assert elements[..i + 1][..i] == elements[..i];
  }

  /** The window function: whatever arrives, it emits the ranking of the last counts. */
  method Process(elements: seq<Entry>, out: Collector<Entry>, rebalance: Tree -> Tree)
    requires KeepsContents(rebalance)
    modifies out
    ensures old(out.collected) <= out.collected
    ensures IsRankingOf(LastCounts(elements), out.collected[|old(out.collected)|..])
  {
    var counts := new TreeMap();
    for i := 0 to |elements|
      invariant fresh(counts) && counts.Valid() && counts.Contents == LastCounts(elements[..i])
      invariant out.collected == old(out.collected)
    {
      LastCountsOfPrefix(elements, i);
      counts.Put(elements[i].word, elements[i].count);
    }
    assert elements[..|elements|] == elements;
    var sortedCounts := EntriesSortedByValues(counts, rebalance);
    var sorted := InOrder(sortedCounts.root);
    for i := 0 to |sorted|
      invariant out.collected == old(out.collected) + sorted[..i]
    {
      out.Collect(sorted[i]);
    }
    assert out.collected[|old(out.collected)|..] == sorted;
  }
}
