/**
 From an empty inventory, canonical IPv4 addresses and ranges give exactly the hosts they denote.
 */
module AddressTheorems {
  import opened Decimal
  import opened Dicts
  import opened Text
  import opened Addresses
  import opened HostNames
  import opened Inventory
  import opened BuildTheorems

  /** One address, or all from `first` to `last`; none if first > last. */
  datatype AddressSpec = One(a: nat) | Range(first: nat, last: nat)

  predicate IsValid(spec: AddressSpec) {
    match spec
    case One(a) => a < ADDRESSES
    case Range(first, last) => first < ADDRESSES && last < ADDRESSES
  }

  /** The argument a user writes. */
  function SpecText(spec: AddressSpec): string {
    match spec
    case One(a) => AddressText(a)
    case Range(first, last) => AddressText(first) + ['-'] + AddressText(last)
  }

  function SpecTexts(specs: seq<AddressSpec>): seq<string> {
    if specs == [] then [] else [SpecText(specs[0])] + SpecTexts(specs[1..])
  }

  /** The addresses meant. */
  predicate Denotes(spec: AddressSpec, a: nat) {
    match spec
    case One(b) => a == b
    case Range(first, last) => first <= a <= last
  }

  predicate Mentions(specs: seq<AddressSpec>, a: nat) {
    exists i :: 0 <= i < |specs| && Denotes(specs[i], a)
  }

  // -------------------------------------------------------------------------------------------
  // From arguments to address texts
  // -------------------------------------------------------------------------------------------

  /** What matters of an address text to the code: digits at both ends, dots, no '-' and no ','. */
  predicate IsHostText(s: string) {
    && s != "" && IsDigit(s[0]) && IsDigit(s[|s| - 1])
    && Free(s, '-') && Free(s, ',') && !Free(s, '.')
  }

  lemma TextOfAddress(n: nat)
    ensures IsHostText(AddressText(n))
  {
    var a, b, c, d := n / OCTET / OCTET / OCTET % OCTET, n / OCTET / OCTET % OCTET, n / OCTET % OCTET, n % OCTET;
    DottedText(Numeral(a), Numeral(b), Numeral(c), Numeral(d));
  }

  lemma DottedText(a: string, b: string, c: string, d: string)
    requires a != "" && b != "" && c != "" && d != ""
    requires AllDigits(a) && AllDigits(b) && AllDigits(c) && AllDigits(d)
    ensures IsHostText(a + ['.'] + (b + ['.'] + (c + ['.'] + d)))
  {
    var s := a + ['.'] + (b + ['.'] + (c + ['.'] + d));
    assert forall i :: 0 <= i < |s| ==> IsDigit(s[i]) || s[i] == '.';
    assert s[|a|] == '.';
    assert s[|s| - 1] == d[|d| - 1];
  }

  lemma ExpandOne(text: string)
    requires IsHostText(text)
    ensures Expand(text) == Ok([text])
  {
  }

  lemma ExpandRange(lo: string, hi: string)
    requires IsHostText(lo) && IsHostText(hi) && ParseAddress(lo).Some? && ParseAddress(hi).Some?
    ensures Expand(lo + ['-'] + hi) == Ok(AddressRange(ParseAddress(lo).value, ParseAddress(hi).value))
  {
    RangeText(lo, hi);
    SplitAllOfJoined(lo, '-', hi);
    SplitAllOfFree(hi, '-');
    assert [lo] + [hi] == [lo, hi];
  }

  lemma RangeText(lo: string, hi: string)
    requires IsHostText(lo) && IsHostText(hi)
    ensures IsRange(lo + ['-'] + hi) && Strip(lo + ['-'] + hi) == lo + ['-'] + hi
  {
    var text := lo + ['-'] + hi;
    assert text[|lo|] == '-';
    assert text[0] == lo[0] && text[|text| - 1] == hi[|hi| - 1];
  }

  lemma ExpandOfText(spec: AddressSpec)
    requires IsValid(spec)
    ensures Expand(SpecText(spec)) == Ok(Texts(Listed(spec)))
  {
    match spec
    case One(a) =>
      TextOfAddress(a);
      ExpandOne(AddressText(a));
      assert Texts([a]) == [AddressText(a)];
    case Range(first, last) =>
      TextOfAddress(first);
      TextOfAddress(last);
      AddressRoundTrip(first);
      AddressRoundTrip(last);
      ExpandRange(AddressText(first), AddressText(last));
      RangeTexts(first, last);
  }

  /** The addresses of a spec in order. */
  function Listed(spec: AddressSpec): seq<nat> {
    match spec
    case One(a) => [a]
    case Range(first, last) => Count(first, last)
  }

  /** The addresses of all specs in order, with repetitions. */
  function Mentioned(specs: seq<AddressSpec>): seq<nat> {
    if specs == [] then [] else Listed(specs[0]) + Mentioned(specs[1..])
  }

  function Count(first: nat, last: nat): seq<nat>
    decreases last - first
  {
    if first > last then [] else [first] + Count(first + 1, last)
  }

  function Texts(addresses: seq<nat>): seq<string> {
    if addresses == [] then [] else [AddressText(addresses[0])] + Texts(addresses[1..])
  }

  lemma {:induction false} TextsConcat(a: seq<nat>, b: seq<nat>)
    ensures Texts(a + b) == Texts(a) + Texts(b)
  {
    if a == [] {
      assert a + b == b;
    } else {
      assert (a + b)[0] == a[0] && (a + b)[1..] == a[1..] + b;
      TextsConcat(a[1..], b);
    }
  }

  lemma {:induction false} TextAt(addresses: seq<nat>, i: nat)
    requires i < |addresses|
    ensures |Texts(addresses)| == |addresses| && Texts(addresses)[i] == AddressText(addresses[i])
  {
    if i > 0 {
      TextAt(addresses[1..], i - 1);
    } else {
      TextsLength(addresses);
    }
  }

  lemma {:induction false} TextsLength(addresses: seq<nat>)
    ensures |Texts(addresses)| == |addresses|
  {
    if addresses != [] {
      TextsLength(addresses[1..]);
    }
  }

  lemma {:induction false} RangeTexts(first: nat, last: nat)
    ensures AddressRange(first, last) == Texts(Count(first, last))
    decreases last - first
  {
    if first <= last {
      RangeTexts(first + 1, last);
      assert Count(first, last)[1..] == Count(first + 1, last);
    }
  }

  lemma {:induction false} CountIsInterval(first: nat, last: nat)
    ensures forall a :: a in Count(first, last) <==> first <= a <= last
    ensures first <= last ==> |Count(first, last)| == last - first + 1
    ensures forall i :: 0 <= i < |Count(first, last)| ==> Count(first, last)[i] == first + i
    decreases last - first
  {
    if first <= last {
      CountIsInterval(first + 1, last);
    }
  }

  lemma {:induction false} ExpandAllOfTexts(specs: seq<AddressSpec>)
    requires forall i :: 0 <= i < |specs| ==> IsValid(specs[i])
    ensures ExpandAll(SpecTexts(specs)) == Ok(Texts(Mentioned(specs)))
  {
    if specs != [] {
      ExpandOfText(specs[0]);
      ExpandAllOfTexts(specs[1..]);
      TextsConcat(Listed(specs[0]), Mentioned(specs[1..]));
      assert SpecTexts(specs)[1..] == SpecTexts(specs[1..]);
    }
  }

  lemma {:induction false} MentionedMeans(specs: seq<AddressSpec>, a: nat)
    ensures a in Mentioned(specs) <==> Mentions(specs, a)
  {
    if specs != [] {
      MentionedMeans(specs[1..], a);
      if specs[0].Range? {
        CountIsInterval(specs[0].first, specs[0].last);
      }
      assert a in Listed(specs[0]) <==> Denotes(specs[0], a);
      if Mentions(specs[1..], a) {
        var i :| 0 <= i < |specs[1..]| && Denotes(specs[1..][i], a);
        assert Denotes(specs[i + 1], a);
      }
      if Mentions(specs, a) {
        var i :| 0 <= i < |specs| && Denotes(specs[i], a);
        assert i > 0 ==> Denotes(specs[1..][i - 1], a);
      }
    }
  }

  lemma TextsDiffer(a: nat, b: nat)
    requires a < ADDRESSES && b < ADDRESSES
    ensures AddressText(a) == AddressText(b) <==> a == b
  {
    AddressRoundTrip(a);
    AddressRoundTrip(b);
  }

  lemma TextsOfMentioned(addresses: seq<nat>, text: string)
    ensures text in Texts(addresses) <==> exists i :: 0 <= i < |addresses| && AddressText(addresses[i]) == text
  {
    TextsLength(addresses);
    forall i | 0 <= i < |addresses|
      ensures Texts(addresses)[i] == AddressText(addresses[i])
    {
      TextAt(addresses, i);
    }
  }

  // -------------------------------------------------------------------------------------------
  // From address texts to hosts
  // -------------------------------------------------------------------------------------------

  /** prefix1, prefix2, ... for these addresses. */
  function Numbered(ips: seq<string>, prefix: string): Hosts {
    seq(|ips|, i requires 0 <= i < |ips| => (GeneratedName(prefix, i + 1), OptsOf(ips[i], ips[i])))
  }

  lemma {:induction false} ExistsIpInNumbered(hosts: Hosts, ips: seq<string>, ip: string)
    requires |hosts| == |ips| && forall i :: 0 <= i < |ips| ==> hosts[i].1 == OptsOf(ips[i], ips[i])
    ensures ExistsIp(hosts, ip) == Ok(ip in ips)
  {
    if ips != [] {
      ExistsIpInNumbered(hosts[1..], ips[1..], ip);
      assert ips == [ips[0]] + ips[1..];
      assert hosts[0].1["ip"] == ips[0];
    }
  }

  /** No generated name is the text of an address. */
  ghost predicate NeverAddress(prefix: string) {
    forall id: nat {:trigger GeneratedName(prefix, id)} :: id >= 1 ==> ParseAddress(GeneratedName(prefix, id)).None?
  }

  lemma NextNumberedIsNew(ips: seq<string>, prefix: string)
    ensures GeneratedName(prefix, |ips| + 1) !in Keys(Numbered(ips, prefix))
  {
    var names := Keys(Numbered(ips, prefix));
    forall i | 0 <= i < |names|
      ensures names[i] != GeneratedName(prefix, |ips| + 1)
    {
      GeneratedNamesDiffer(prefix, i + 1, |ips| + 1);
    }
  }

  predicate IsNumberedBuild(st: Build, ips: seq<string>, prefix: string) {
    st.hosts == Numbered(ips, prefix) && st.nextId == |ips| + 1
  }

  lemma StepOnAddress(st: Build, ips: seq<string>, prefix: string, text: string)
    requires IsNumberedBuild(st, ips, prefix) && IsHostText(text)
    ensures Step(st, text, prefix).Ok?
    ensures var skips := text in Keys(Numbered(ips, prefix)) || text in ips;
            IsNumberedBuild(Step(st, text, prefix).value, if skips then ips else ips + [text], prefix)
  {
    SplitAllOfFree(text, ',');
    NextNumberedIsNew(ips, prefix);
    ExistsIpInNumbered(st.hosts, ips, text);
    if text !in ips {
      NumberedMore(ips, prefix, text);
    }
  }

  lemma NumberedMore(ips: seq<string>, prefix: string, text: string)
    requires GeneratedName(prefix, |ips| + 1) !in Keys(Numbered(ips, prefix))
    ensures Put(Numbered(ips, prefix), GeneratedName(prefix, |ips| + 1), OptsOf(text, text)) == Numbered(ips + [text], prefix)
  {
    var last := (GeneratedName(prefix, |ips| + 1), OptsOf(text, text));
    PutKeys(Numbered(ips, prefix), last.0, last.1);
    assert Numbered(ips + [text], prefix) == Numbered(ips, prefix) + [last];
  }

  /** None of these texts is one of the first n generated names, where n grows with each text. */
  predicate NamesStayApart(texts: seq<string>, n: nat, prefix: string) {
    forall i, j :: 0 <= j < |texts| && 1 <= i <= n + j ==> GeneratedName(prefix, i) != texts[j]
  }

  lemma ApartFromTable(ips: seq<string>, prefix: string, texts: seq<string>)
    requires texts != [] && NamesStayApart(texts, |ips|, prefix)
    ensures texts[0] !in Keys(Numbered(ips, prefix))
    ensures NamesStayApart(texts[1..], |ips|, prefix) && NamesStayApart(texts[1..], |ips| + 1, prefix)
  {
    var names := Keys(Numbered(ips, prefix));
    forall i | 0 <= i < |names|
      ensures names[i] != texts[0]
    {
      assert names[i] == GeneratedName(prefix, i + 1);
    }
    forall i, j | 0 <= j < |texts[1..]| && 1 <= i <= |ips| + 1 + j
      ensures GeneratedName(prefix, i) != texts[1..][j]
    {
      assert texts[1..][j] == texts[j + 1];
    }
  }

  lemma {:induction false} StepsOnAddresses(st: Build, ips: seq<string>, prefix: string, texts: seq<string>)
    requires IsNumberedBuild(st, ips, prefix) && NamesStayApart(texts, |ips|, prefix)
    requires forall i :: 0 <= i < |texts| ==> IsHostText(texts[i])
    ensures Steps(st, texts, prefix).Ok?
    ensures IsNumberedBuild(Steps(st, texts, prefix).value, Append(ips, texts), prefix)
    decreases |texts|
  {
    if texts != [] {
      StepOnAddress(st, ips, prefix, texts[0]);
      ApartFromTable(ips, prefix, texts);
      StepsOnAddresses(Step(st, texts[0], prefix).value, if texts[0] in ips then ips else ips + [texts[0]],
                       prefix, texts[1..]);
    }
  }

  // A step adds one host at most.
  lemma {:induction false} StepsAddFew(st: Build, ips: seq<string>, prefix: string, texts: seq<string>)
    requires IsNumberedBuild(st, ips, prefix) && forall i :: 0 <= i < |texts| ==> IsHostText(texts[i])
    ensures Steps(st, texts, prefix).Ok? && |Steps(st, texts, prefix).value.hosts| <= |ips| + |texts|
    decreases |texts|
  {
    if texts != [] {
      StepOnAddress(st, ips, prefix, texts[0]);
      var skips := texts[0] in Keys(Numbered(ips, prefix)) || texts[0] in ips;
      StepsAddFew(Step(st, texts[0], prefix).value, if skips then ips else ips + [texts[0]], prefix, texts[1..]);
    }
  }

  // A text that is the name of a host by then is skipped.
  lemma {:induction false} SpelledIsSkipped(st: Build, ips: seq<string>, prefix: string, texts: seq<string>, i: nat, j: nat)
    requires IsNumberedBuild(st, ips, prefix) && forall i :: 0 <= i < |texts| ==> IsHostText(texts[i])
    requires j < |texts| && 1 <= i <= |ips| + j && GeneratedName(prefix, i) == texts[j]
    ensures Steps(st, texts, prefix).Ok? && |Steps(st, texts, prefix).value.hosts| < |ips| + |texts|
    decreases |texts|
  {
    StepOnAddress(st, ips, prefix, texts[0]);
    var next := Step(st, texts[0], prefix).value;
    if j == 0 {
      assert Keys(Numbered(ips, prefix))[i - 1] == texts[0];
    }
    if texts[0] in Keys(Numbered(ips, prefix)) || texts[0] in ips {
      StepsAddFew(next, ips, prefix, texts[1..]);
    } else {
      SpelledIsSkipped(next, ips + [texts[0]], prefix, texts[1..], i, j - 1);
    }
  }

  lemma EmptyIsNumbered(prefix: string)
    ensures IsNumberedBuild(StartBuild([]), [], prefix)
  {
    assert Numbered([], prefix) == [];
  }

  lemma TextsAreHostTexts(addresses: seq<nat>)
    ensures forall i :: 0 <= i < |Texts(addresses)| ==> IsHostText(Texts(addresses)[i])
  {
    TextsLength(addresses);
    forall i | 0 <= i < |addresses|
      ensures IsHostText(Texts(addresses)[i])
    {
      TextAt(addresses, i);
      TextOfAddress(addresses[i]);
    }
  }

  predicate IsTextOfMentioned(specs: seq<AddressSpec>, ip: string) {
    exists i :: 0 <= i < |Mentioned(specs)| && AddressText(Mentioned(specs)[i]) == ip
  }

  /** The hosts are prefix1, prefix2, ..., with exactly the addresses that the list denotes, each once. */
  ghost predicate IsUnion(specs: seq<AddressSpec>, prefix: string, ips: seq<string>) {
    && BuildHostnames([], Texts(Mentioned(specs)), prefix) == Ok(Numbered(ips, prefix))
    && Distinct(ips)
    && (forall a: nat :: a < ADDRESSES ==> (AddressText(a) in ips <==> Mentions(specs, a)))
    && (forall ip :: ip in ips ==> IsTextOfMentioned(specs, ip))
  }

  predicate AllValid(specs: seq<AddressSpec>) {
    forall i :: 0 <= i < |specs| ==> IsValid(specs[i])
  }

  lemma TextsAreNoNames(addresses: seq<nat>, prefix: string, n: nat)
    requires NeverAddress(prefix) && forall i :: 0 <= i < |addresses| ==> addresses[i] < ADDRESSES
    ensures NamesStayApart(Texts(addresses), n, prefix)
  {
    TextsLength(addresses);
    forall i, j | 0 <= j < |addresses| && 1 <= i <= n + j
      ensures GeneratedName(prefix, i) != Texts(addresses)[j]
    {
      TextAt(addresses, j);
      AddressRoundTrip(addresses[j]);
    }
  }

  lemma {:induction false} MentionedAreValid(specs: seq<AddressSpec>)
    requires AllValid(specs)
    ensures forall i :: 0 <= i < |Mentioned(specs)| ==> Mentioned(specs)[i] < ADDRESSES
  {
    if specs != [] {
      MentionedAreValid(specs[1..]);
      assert IsValid(specs[0]);
      if specs[0].Range? {
        CountIsInterval(specs[0].first, specs[0].last);
        assert forall i :: 0 <= i < |Listed(specs[0])| ==> Listed(specs[0])[i] in Listed(specs[0]);
      }
    }
  }

  /**
   Any list of canonical addresses and ranges, overlaps allowed, from an empty inventory. The prefix
   may contain dots; what matters is that no generated name can be taken for an address.
   */
  lemma HostsAreTheUnion(specs: seq<AddressSpec>, prefix: string) returns (ips: seq<string>)
    requires NeverAddress(prefix) && AllValid(specs)
    ensures ExpandAll(SpecTexts(specs)) == Ok(Texts(Mentioned(specs)))
    ensures IsUnion(specs, prefix, ips)
  {
    var addresses := Mentioned(specs);
    ExpandAllOfTexts(specs);
    ips := Append([], Texts(addresses));
    EmptyIsNumbered(prefix);
    TextsAreHostTexts(addresses);
    MentionedAreValid(specs);
    TextsAreNoNames(addresses, prefix, 0);
    StepsOnAddresses(StartBuild([]), [], prefix, Texts(addresses));
    AppendDistinct([], Texts(addresses));
    forall ip
      ensures ip in ips <==> ip in Texts(addresses)
    {
      AppendMembers([], Texts(addresses), ip);
    }
    forall a: nat | a < ADDRESSES
      ensures AddressText(a) in ips <==> Mentions(specs, a)
    {
      AddressIsMentioned(specs, a);
    }
    forall ip | ip in ips
      ensures IsTextOfMentioned(specs, ip)
    {
      TextsOfMentioned(addresses, ip);
    }
  }

  lemma AddressIsMentioned(specs: seq<AddressSpec>, a: nat)
    requires a < ADDRESSES && AllValid(specs)
    ensures AddressText(a) in Texts(Mentioned(specs)) <==> Mentions(specs, a)
  {
    var addresses := Mentioned(specs);
    MentionedMeans(specs, a);
    TextsOfMentioned(addresses, AddressText(a));
    MentionedAreValid(specs);
    forall i | 0 <= i < |addresses|
      ensures AddressText(addresses[i]) == AddressText(a) <==> addresses[i] == a
    {
      TextsDiffer(addresses[i], a);
    }
  }

  /**
   A single range of k addresses binds prefix1..prefixk to them, in order, exactly when none of them
   is spelled by the name of a host that is there by then.
   */
  lemma RangeIsNumberedInOrder(first: nat, last: nat, prefix: string)
    requires first <= last < ADDRESSES
    ensures Expand(SpecText(Range(first, last))) == Ok(AddressRange(first, last))
    ensures BuildHostnames([], AddressRange(first, last), prefix) == Ok(Numbered(AddressRange(first, last), prefix)) <==>
            NamesStayApart(AddressRange(first, last), 0, prefix)
    ensures NeverAddress(prefix) ==> NamesStayApart(AddressRange(first, last), 0, prefix)
  {
    ExpandOfText(Range(first, last));
    RangeTexts(first, last);
    RangeTextsDistinct(first, last);
    BuildOfNewTexts(Count(first, last), prefix);
    if NeverAddress(prefix) {
      CountIsInterval(first, last);
      TextsAreNoNames(Count(first, last), prefix, 0);
    }
  }

  /** The k-th host of that table. */
  lemma HostOfRange(first: nat, last: nat, prefix: string, i: nat)
    requires first <= last < ADDRESSES && i <= last - first
    ensures var ip := AddressText(first + i);
            && |Numbered(AddressRange(first, last), prefix)| == last - first + 1
            && Numbered(AddressRange(first, last), prefix)[i].0 == prefix + Numeral(i + 1)
            && IsEntry(Numbered(AddressRange(first, last), prefix)[i].1, ip, ip)
  {
    RangeTexts(first, last);
    CountIsInterval(first, last);
    TextAt(Count(first, last), i);
  }

  lemma BuildOfNewTexts(addresses: seq<nat>, prefix: string)
    requires Distinct(Texts(addresses))
    ensures BuildHostnames([], Texts(addresses), prefix) == Ok(Numbered(Texts(addresses), prefix)) <==>
            NamesStayApart(Texts(addresses), 0, prefix)
  {
    EmptyIsNumbered(prefix);
    TextsAreHostTexts(addresses);
    BuildOfDistinct(Texts(addresses), prefix);
  }

  lemma BuildOfDistinct(texts: seq<string>, prefix: string)
    requires Distinct(texts) && forall i :: 0 <= i < |texts| ==> IsHostText(texts[i])
    requires IsNumberedBuild(StartBuild([]), [], prefix)
    ensures BuildHostnames([], texts, prefix) == Ok(Numbered(texts, prefix)) <==> NamesStayApart(texts, 0, prefix)
  {
    if NamesStayApart(texts, 0, prefix) {
      StepsOnAddresses(StartBuild([]), [], prefix, texts);
      assert [] + texts == texts;
      AppendNew([], texts);
    } else {
      var i, j :| 0 <= j < |texts| && 1 <= i <= 0 + j && GeneratedName(prefix, i) == texts[j];
      SpelledIsSkipped(StartBuild([]), [], prefix, texts, i, j);
    }
  }

  lemma RangeTextsDistinct(first: nat, last: nat)
    requires first <= last < ADDRESSES
    ensures Distinct(AddressRange(first, last)) && |AddressRange(first, last)| == last - first + 1
  {
    var addresses := Count(first, last);
    RangeTexts(first, last);
    CountIsInterval(first, last);
    TextsLength(addresses);
    forall i, j | 0 <= i < j < |addresses|
      ensures Texts(addresses)[i] != Texts(addresses)[j]
    {
      TextAt(addresses, i);
      TextAt(addresses, j);
      TextsDiffer(addresses[i], addresses[j]);
    }
  }
}
