/**
 Generated names that collide: with the name of a host that is present, also of one behind the place
 where the scan for host numbers stops, and with the text of an address, which makes the code skip a
 spec that is the name of a host.
 */
module NameTheorems {
  import opened Decimal
  import opened Dicts
  import opened Text
  import opened Addresses
  import opened HostNames
  import opened Inventory
  import opened BuildTheorems
  import opened AddressTheorems
  import opened Tables

  // -------------------------------------------------------------------------------------------
  // Names of present hosts
  // -------------------------------------------------------------------------------------------

  /** No host of the inventory has got another's entry: what still has its name has its options. */
  predicate KeepsEntries(hosts: Hosts, table: Hosts) {
    forall i :: 0 <= i < |table| && table[i].0 in Keys(hosts) ==> table[i] in hosts
  }

  /** No batch of such specs overwrites an entry or gives a present name to a new host. */
  ghost predicate AlwaysFresh(hosts: Hosts, prefix: string, good: string -> bool) {
    forall specs: seq<string> {:trigger BuildHostnames(hosts, specs, prefix)} ::
      AllSpecs(specs, good) && BuildHostnames(hosts, specs, prefix).Ok? ==>
        KeepsEntries(hosts, BuildHostnames(hosts, specs, prefix).value)
  }

  lemma LowIdsKeepEntries(hosts: Hosts, specs: seq<string>, prefix: string)
    requires Distinct(Keys(hosts)) && IdsBelow(hosts, prefix, HighestId(hosts, 0) + 1)
    requires AllSpecs(specs, IsUnnamed) && BuildHostnames(hosts, specs, prefix).Ok?
    ensures KeepsEntries(hosts, BuildHostnames(hosts, specs, prefix).value)
  {
    var survivors, added, to := TableParts(hosts, specs, prefix);
    SurvivorsAndNew(hosts, survivors, added);
  }

  lemma TableParts(hosts: Hosts, specs: seq<string>, prefix: string) returns (survivors: Hosts, added: Hosts, to: nat)
    requires Distinct(Keys(hosts)) && IdsBelow(hosts, prefix, HighestId(hosts, 0) + 1)
    requires AllSpecs(specs, IsUnnamed) && BuildHostnames(hosts, specs, prefix).Ok?
    ensures BuildHostnames(hosts, specs, prefix).value == survivors + added
    ensures forall host :: host in survivors ==> host in hosts
    ensures AllGenerated(added, prefix, HighestId(hosts, 0) + 1, to)
  {
    var first, carried := HighestId(hosts, 0) + 1, Carried(hosts);
    CarriedIsPrefix(hosts);
    assert IdsBelow(carried, prefix, first);
    var start := StartIsEvolved(hosts, prefix);
    var kept, more := StepsEvolve(carried, first, prefix, StartBuild(hosts), start, [], specs);
    RestrictKeys(carried, kept);
    survivors, added, to := Restrict(carried, kept), more, Steps(StartBuild(hosts), specs, prefix).value.nextId;
  }

  lemma SurvivorsAndNew(hosts: Hosts, survivors: Hosts, added: Hosts)
    requires forall host :: host in survivors ==> host in hosts
    requires forall k :: k in Keys(added) ==> k !in Keys(hosts)
    ensures KeepsEntries(hosts, survivors + added)
  {
    forall i | |survivors| <= i < |survivors + added|
      ensures (survivors + added)[i].0 !in Keys(hosts)
    {
      assert Keys(added)[i - |survivors|] == (survivors + added)[i].0;
    }
  }

  // -------------------------------------------------------------------------------------------
  // A batch that reaches any number
  // -------------------------------------------------------------------------------------------

  function Drops(names: seq<string>): seq<string> {
    seq(|names|, i requires 0 <= i < |names| => ['-'] + names[i])
  }

  lemma {:induction false} DropAll(st: Build, prefix: string)
    ensures Steps(st, Drops(Keys(st.hosts)), prefix) == Ok(st.(hosts := []))
    decreases |st.hosts|
  {
    var drops := Drops(Keys(st.hosts));
    if st.hosts != [] {
      var name := st.hosts[0].0;
      var next := st.(hosts := st.hosts[1..]);
      assert drops[0] == ['-'] + name && drops[0][1..] == name && Keys(st.hosts)[0] == name;
      assert Step(st, drops[0], prefix) == Ok(next);
      assert drops[1..] == Drops(Keys(next.hosts));
      DropAll(next, prefix);
    }
  }

  // Adding an address and deleting it again uses up one number.
  function Burn(ip: string, times: nat): seq<string> {
    if times == 0 then [] else [ip, ['-'] + ip] + Burn(ip, times - 1)
  }

  lemma BurnOne(st: Build, ip: string, prefix: string)
    requires st.hosts == [] && IsPlain(ip, prefix)
    ensures Steps(st, [ip, ['-'] + ip], prefix).Ok?
    ensures var next := Steps(st, [ip, ['-'] + ip], prefix).value; next.hosts == [] && next.nextId == st.nextId + 1
  {
    var name, spec := GeneratedName(prefix, st.nextId), ['-'] + ip;
    PlainIsNoName([], ip, prefix);
    assert st.hosts == Table([], []);
    AddOne(st, [], [], ip, prefix);
    var added := Step(st, ip, prefix).value;
    assert added.hosts == Table([name], [ip]) && Keys(added.hosts) == [name] && spec[1..] == ip;
    ExistsIpInNumbered(added.hosts, [ip], ip);
    assert Step(added, spec, prefix) == Ok(added.(hosts := []));
    assert [ip, spec][1..] == [spec] && [spec][1..] == [];
    assert Steps(added, [spec], prefix) == Ok(added.(hosts := []));
  }

  lemma {:induction false} BurnMany(st: Build, ip: string, times: nat, prefix: string)
    requires st.hosts == [] && IsPlain(ip, prefix)
    ensures Steps(st, Burn(ip, times), prefix).Ok?
    ensures var next := Steps(st, Burn(ip, times), prefix).value; next.hosts == [] && next.nextId == st.nextId + times
    decreases times
  {
    if times > 0 {
      BurnOne(st, ip, prefix);
      StepsConcat(st, [ip, ['-'] + ip], Burn(ip, times - 1), prefix);
      BurnMany(Steps(st, [ip, ['-'] + ip], prefix).value, ip, times - 1, prefix);
    }
  }

  lemma {:induction false} BurnIsIp(ip: string, times: nat)
    requires ParseAddress(ip).Some?
    ensures AllSpecs(Burn(ip, times), IsIpSpec)
  {
    if times > 0 {
      BurnIsIp(ip, times - 1);
    }
  }

  // A table with nothing but a host of this number and address.
  lemma ReachId(hosts: Hosts, id: nat, ip: string, prefix: string) returns (specs: seq<string>)
    requires id > HighestId(hosts, 0) && IsPlain(ip, prefix)
    ensures AllSpecs(specs, IsIpSpec)
    ensures BuildHostnames(hosts, specs, prefix) == Ok([(GeneratedName(prefix, id), OptsOf(ip, ip))])
  {
    var st := StartBuild(hosts);
    var times := id - HighestId(hosts, 0) - 1;
    var drops, burn := Drops(Keys(st.hosts)), Burn(ip, times);
    DropAll(st, prefix);
    var empty := st.(hosts := []);
    BurnMany(empty, ip, times, prefix);
    StepsConcat(st, drops, burn, prefix);
    var last := Steps(empty, burn, prefix).value;
    PlainIsNoName([], ip, prefix);
    assert last.hosts == Table([], []);
    AddOne(last, [], [], ip, prefix);
    assert [ip][1..] == [];
    StepsConcat(st, drops + burn, [ip], prefix);
    specs := drops + burn + [ip];
    assert Steps(last, [ip], prefix) == Step(last, ip, prefix);
    assert Table([] + [GeneratedName(prefix, id)], [] + [ip]) == [(GeneratedName(prefix, id), OptsOf(ip, ip))];
    BurnIsIp(ip, times);
    assert AllSpecs(drops, IsIpSpec);
  }

  lemma HighIdBreaks(hosts: Hosts, prefix: string, i: nat, id: nat) returns (specs: seq<string>)
    requires Distinct(Keys(hosts)) && i < |hosts| && hosts[i].0 == GeneratedName(prefix, id) && id > HighestId(hosts, 0)
    ensures AllSpecs(specs, IsIpSpec) && BuildHostnames(hosts, specs, prefix).Ok?
    ensures !KeepsEntries(hosts, BuildHostnames(hosts, specs, prefix).value)
  {
    var ips := OutsideTexts(prefix, 0, 2);
    OutsideArePlain(prefix, 0, 2);
    var ip := if hosts[i].1 == OptsOf(ips[0], ips[0]) then ips[1] else ips[0];
    assert OptsOf(ips[0], ips[0])["ip"] == ips[0] && OptsOf(ips[1], ips[1])["ip"] == ips[1];
    specs := ReachId(hosts, id, ip, prefix);
    var entry := (GeneratedName(prefix, id), OptsOf(ip, ip));
    assert Keys(hosts)[i] == entry.0;
    forall k | 0 <= k < |hosts|
      ensures hosts[k] != entry
    {
      assert k != i ==> Keys(hosts)[k] != Keys(hosts)[i];
    }
    assert BuildHostnames(hosts, specs, prefix).value[0] == entry;
  }

  /**
   No batch of addresses and deletions ever overwrites an entry of the inventory or reuses a name
   present when it began, exactly when no host has a generated name with a number above the highest
   one that the scan has seen. With a dot-free prefix only the hosts behind the stop can have one.
   */
  lemma BatchesAreFreshExactly(hosts: Hosts, prefix: string)
    requires Distinct(Keys(hosts))
    ensures AlwaysFresh(hosts, prefix, IsUnnamed) <==> IdsBelow(hosts, prefix, HighestId(hosts, 0) + 1)
    ensures AlwaysFresh(hosts, prefix, IsIpSpec) <==> IdsBelow(hosts, prefix, HighestId(hosts, 0) + 1)
    ensures Free(prefix, '.') ==>
              (IdsBelow(hosts, prefix, HighestId(hosts, 0) + 1) <==> IdsBelow(Unseen(hosts), prefix, HighestId(hosts, 0) + 1))
  {
    UnseenIdsMatter(hosts, prefix);
    if IdsBelow(hosts, prefix, HighestId(hosts, 0) + 1) {
      LowIdsAreFresh(hosts, prefix);
    } else {
      var i, id :| 0 <= i < |hosts| && HighestId(hosts, 0) + 1 <= id && hosts[i].0 == GeneratedName(prefix, id);
      var broken := HighIdBreaks(hosts, prefix, i, id);
      NothingToExpand(broken);
      assert !(BuildHostnames(hosts, broken, prefix).Ok? ==> KeepsEntries(hosts, BuildHostnames(hosts, broken, prefix).value));
      assert !AlwaysFresh(hosts, prefix, IsUnnamed);
      assert !AlwaysFresh(hosts, prefix, IsIpSpec);
    }
  }

  lemma LowIdsAreFresh(hosts: Hosts, prefix: string)
    requires Distinct(Keys(hosts)) && IdsBelow(hosts, prefix, HighestId(hosts, 0) + 1)
    ensures AlwaysFresh(hosts, prefix, IsUnnamed) && AlwaysFresh(hosts, prefix, IsIpSpec)
  {
    forall specs: seq<string> {:trigger BuildHostnames(hosts, specs, prefix)} |
      (AllSpecs(specs, IsUnnamed) || AllSpecs(specs, IsIpSpec)) && BuildHostnames(hosts, specs, prefix).Ok?
      ensures KeepsEntries(hosts, BuildHostnames(hosts, specs, prefix).value)
    {
      if AllSpecs(specs, IsIpSpec) {
        NothingToExpand(specs);
      }
      LowIdsKeepEntries(hosts, specs, prefix);
    }
  }

  lemma UnseenIdsMatter(hosts: Hosts, prefix: string)
    ensures Free(prefix, '.') ==>
              (IdsBelow(hosts, prefix, HighestId(hosts, 0) + 1) <==> IdsBelow(Unseen(hosts), prefix, HighestId(hosts, 0) + 1))
  {
    CarriedAndUnseen(hosts);
    IdsBelowConcat(Carried(hosts), Unseen(hosts), prefix, HighestId(hosts, 0) + 1);
    if Free(prefix, '.') {
      CarriedIdsBelow(hosts, prefix);
    }
  }

  lemma IdsBelowConcat(a: Hosts, b: Hosts, prefix: string, first: nat)
    ensures IdsBelow(a + b, prefix, first) <==> IdsBelow(a, prefix, first) && IdsBelow(b, prefix, first)
  {
    var hosts := a + b;
    assert forall i :: 0 <= i < |a| ==> hosts[i] == a[i];
    assert forall i :: 0 <= i < |b| ==> b[i] == hosts[|a| + i];
  }

  /** A host without a number hides the ones behind it: the next new host takes the name of this one. */
  lemma HiddenHostIsOverwritten(stop: string, opts: Opts, prefix: string)
    requires HostId(stop).None? && stop != GeneratedName(prefix, 1)
    ensures var hosts: Hosts := [(stop, opts), (GeneratedName(prefix, 1), opts)];
            Distinct(Keys(hosts)) && NextName(hosts, prefix) == hosts[1].0 && !AlwaysFresh(hosts, prefix, IsIpSpec)
  {
    var hosts: Hosts := [(stop, opts), (GeneratedName(prefix, 1), opts)];
    assert !IdsBelow(hosts, prefix, HighestId(hosts, 0) + 1) by {
      assert hosts[1].0 == GeneratedName(prefix, 1);
    }
    BatchesAreFreshExactly(hosts, prefix);
  }

  // -------------------------------------------------------------------------------------------
  // Names that are addresses
  // -------------------------------------------------------------------------------------------

  /** With a dot-free prefix, or one with any character that addresses have not, this never happens. */
  lemma OrdinaryPrefix(prefix: string)
    requires Free(prefix, '.') || exists k :: 0 <= k < |prefix| && prefix[k] != '.' && !IsDigit(prefix[k])
    ensures NeverAddress(prefix)
  {
    forall id: nat {:trigger GeneratedName(prefix, id)} | id >= 1
      ensures ParseAddress(GeneratedName(prefix, id)).None?
    {
      var name := GeneratedName(prefix, id);
      if Free(prefix, '.') {
        NumeralIsFree(id, '.');
        SplitAllOfFree(name, '.');
      } else {
        var k :| 0 <= k < |prefix| && prefix[k] != '.' && !IsDigit(prefix[k]);
        assert name[k] == prefix[k];
        OnlyAddressChars(name, k);
      }
    }
  }

  lemma OnlyAddressChars(name: string, k: nat)
    requires k < |name| && name[k] != '.' && !IsDigit(name[k])
    ensures ParseAddress(name).None?
  {
    if ParseAddress(name).Some? {
      OnlyCanonicalTexts(name);
      CharsOfAddress(ParseAddress(name).value);
    }
  }

  lemma CharsOfAddress(n: nat)
    ensures forall k :: 0 <= k < |AddressText(n)| ==> IsDigit(AddressText(n)[k]) || AddressText(n)[k] == '.'
  {
  }

  // The number at the end of a name that is an address is part of the last octet.
  lemma IdIsSmall(prefix: string, id: nat)
    requires ParseAddress(GeneratedName(prefix, id)).Some?
    ensures id < 1000
  {
    var name, digits := GeneratedName(prefix, id), Numeral(id);
    OnlyCanonicalTexts(name);
    var n := ParseAddress(name).value;
    var last := Numeral(n % OCTET);
    var front := Numeral(n / OCTET / OCTET / OCTET % OCTET) + ['.'] + (Numeral(n / OCTET / OCTET % OCTET) + ['.'] + Numeral(n / OCTET % OCTET));
    assert name == front + ['.'] + last;
    NumeralIsFree(id, '.');
    LastPart(prefix, digits, front, '.', last);
    ShortNumeral(n % OCTET);
    ShortValue(digits);
    ValueOfNumeral(id);
  }

  lemma LastPart(a: string, b: string, front: string, sep: char, last: string)
    requires a + b == front + [sep] + last
    ensures |b| > |last| ==> !Free(b, sep)
  {
    if |b| > |last| {
      assert (a + b)[|front|] == b[|front| - |a|];
      assert (front + [sep] + last)[|front|] == sep;
    }
  }

  lemma ShortNumeral(n: nat)
    requires n < 1000
    ensures |Numeral(n)| <= 3
  {
    assert n >= 10 ==> Numeral(n) == Numeral(n / 10) + [DigitOf(n % 10)];
    assert n >= 100 ==> Numeral(n / 10) == Numeral(n / 10 / 10) + [DigitOf(n / 10 % 10)];
  }

  lemma ShortValue(s: string)
    requires AllDigits(s) && |s| <= 3
    ensures Value(s) < 1000
  {
    if s != "" {
      var t := s[..|s| - 1];
      assert t != "" ==> Value(t) == 10 * Value(t[..|t| - 1]) + (t[|t| - 1] as int - '0' as int);
      assert |t| > 1 ==> t[..|t| - 1][..|t| - 2] == "";
    }
  }

  /** As many other addresses as it takes to reach that name, and then the address that it spells. */
  function LosingList(prefix: string, id: nat, address: nat): seq<AddressSpec> {
    var base := OutsideBase(prefix);
    [Range(base, base + id - 1), One(address)]
  }

  lemma MentionedInLosing(prefix: string, id: nat, address: nat)
    ensures var base := OutsideBase(prefix);
            Mentioned(LosingList(prefix, id, address)) == Count(base, base + id - 1) + [address]
  {
    var specs := LosingList(prefix, id, address);
    assert specs[1..] == [One(address)] && specs[1..][1..] == [];
    assert Mentioned(specs[1..]) == [address];
  }

  // The hosts before it take the numbers up to this one.
  lemma BlockBuild(prefix: string, id: nat)
    requires 1 <= id < 1000
    ensures var base := OutsideBase(prefix);
            var texts := AddressRange(base, base + id - 1);
            && Steps(StartBuild([]), texts, prefix).Ok?
            && IsNumberedBuild(Steps(StartBuild([]), texts, prefix).value, texts, prefix)
            && |texts| == id
  {
    var texts := AddressRange(OutsideBase(prefix), OutsideBase(prefix) + id - 1);
    BlockTexts(prefix, id);
    EmptyIsNumbered(prefix);
    StepsOnAddresses(StartBuild([]), [], prefix, texts);
    assert [] + texts == texts;
    AppendNew([], texts);
  }

  // So the last spec is skipped.
  lemma LosingSteps(prefix: string, texts: seq<string>, name: string)
    requires texts != [] && GeneratedName(prefix, |texts|) == name && IsHostText(name)
    requires Steps(StartBuild([]), texts, prefix).Ok?
    requires IsNumberedBuild(Steps(StartBuild([]), texts, prefix).value, texts, prefix)
    ensures BuildHostnames([], texts + [name], prefix) == Ok(Numbered(texts, prefix))
  {
    var reached := Steps(StartBuild([]), texts, prefix).value;
    assert Keys(Numbered(texts, prefix))[|texts| - 1] == name;
    StepOnAddress(reached, texts, prefix, name);
    assert [name][1..] == [] && Steps(reached, [name], prefix) == Step(reached, name, prefix);
    StepsConcat(StartBuild([]), texts, [name], prefix);
  }

  lemma LosingTexts(prefix: string, id: nat, address: nat)
    requires id >= 1
    ensures var base := OutsideBase(prefix);
            Texts(Mentioned(LosingList(prefix, id, address))) == AddressRange(base, base + id - 1) + [AddressText(address)]
  {
    var base := OutsideBase(prefix);
    MentionedInLosing(prefix, id, address);
    RangeTexts(base, base + id - 1);
    TextsConcat(Count(base, base + id - 1), [address]);
    assert [address][1..] == [] && Texts([address]) == [AddressText(address)];
  }

  lemma NotInBlock(prefix: string, id: nat, name: string)
    requires 1 <= id < 1000 && name == GeneratedName(prefix, id)
    ensures name !in AddressRange(OutsideBase(prefix), OutsideBase(prefix) + id - 1)
  {
    BlockTexts(prefix, id);
    assert IsSpelled(name, prefix);
  }

  lemma LosingBuild(prefix: string, id: nat, address: nat)
    requires 1 <= id < 1000 && address < ADDRESSES && GeneratedName(prefix, id) == AddressText(address)
    ensures var base := OutsideBase(prefix);
            BuildHostnames([], Texts(Mentioned(LosingList(prefix, id, address))), prefix) ==
            Ok(Numbered(AddressRange(base, base + id - 1), prefix))
  {
    var texts := AddressRange(OutsideBase(prefix), OutsideBase(prefix) + id - 1);
    BlockBuild(prefix, id);
    TextOfAddress(address);
    LosingSteps(prefix, texts, AddressText(address));
    LosingTexts(prefix, id, address);
  }

  // Addresses of the block: each once, and none of them a name.
  lemma BlockTexts(prefix: string, id: nat)
    requires 1 <= id < 1000
    ensures var base := OutsideBase(prefix);
            var texts := AddressRange(base, base + id - 1);
            && |texts| == id && Distinct(texts) && NamesStayApart(texts, 0, prefix)
            && forall i :: 0 <= i < |texts| ==> IsHostText(texts[i]) && !IsSpelled(texts[i], prefix)
  {
    var texts := OutsideTexts(prefix, 0, id);
    BlockIsOutside(prefix, id);
    OutsideArePlain(prefix, 0, id);
    forall i | 0 <= i < |texts|
      ensures IsHostText(texts[i]) && !IsSpelled(texts[i], prefix)
    {
      PlainIsHostText(texts[i]);
    }
  }

  lemma BlockIsOutside(prefix: string, id: nat)
    ensures AddressRange(OutsideBase(prefix), OutsideBase(prefix) + id - 1) == OutsideTexts(prefix, 0, id)
  {
    var base := OutsideBase(prefix);
    var addresses := Count(base, base + id - 1);
    RangeTexts(base, base + id - 1);
    CountIsInterval(base, base + id - 1);
    TextsLength(addresses);
    forall i | 0 <= i < id
      ensures Texts(addresses)[i] == OutsideTexts(prefix, 0, id)[i]
    {
      TextAt(addresses, i);
    }
  }

  ghost predicate GivesUnion(specs: seq<AddressSpec>, prefix: string) {
    exists ips :: IsUnion(specs, prefix, ips)
  }

  lemma LosingIsNoUnion(prefix: string, id: nat, address: nat)
    requires 1 <= id < 1000 && address < ADDRESSES && GeneratedName(prefix, id) == AddressText(address)
    ensures AllValid(LosingList(prefix, id, address))
    ensures !GivesUnion(LosingList(prefix, id, address), prefix)
  {
    var specs := LosingList(prefix, id, address);
    LosingBuild(prefix, id, address);
    NotInBlock(prefix, id, AddressText(address));
    assert Denotes(specs[1], address);
    AddressIsMissing(specs, prefix, AddressRange(OutsideBase(prefix), OutsideBase(prefix) + id - 1), address);
  }

  lemma AddressIsMissing(specs: seq<AddressSpec>, prefix: string, texts: seq<string>, address: nat)
    requires BuildHostnames([], Texts(Mentioned(specs)), prefix) == Ok(Numbered(texts, prefix))
    requires address < ADDRESSES && Mentions(specs, address) && AddressText(address) !in texts
    ensures !GivesUnion(specs, prefix)
  {
    forall ips
      ensures !IsUnion(specs, prefix, ips)
    {
      SameNumbered(ips, texts, prefix);
    }
  }

  lemma SameNumbered(a: seq<string>, b: seq<string>, prefix: string)
    ensures Numbered(a, prefix) == Numbered(b, prefix) ==> a == b
  {
    if Numbered(a, prefix) == Numbered(b, prefix) {
      assert |Numbered(a, prefix)| == |a| && |Numbered(b, prefix)| == |b|;
      forall i | 0 <= i < |a|
        ensures a[i] == b[i]
      {
        assert Numbered(a, prefix)[i].1["ip"] == a[i];
        assert Numbered(b, prefix)[i].1["ip"] == b[i];
      }
    }
  }

  /** Every list gives exactly the union that it denotes. */
  ghost predicate AlwaysUnion(prefix: string) {
    forall specs :: AllValid(specs) ==> GivesUnion(specs, prefix)
  }

  /** It does, exactly when no generated name is an address. */
  lemma HostsAreTheUnionExactly(prefix: string)
    ensures AlwaysUnion(prefix) <==> NeverAddress(prefix)
  {
    if NeverAddress(prefix) {
      forall specs | AllValid(specs)
        ensures GivesUnion(specs, prefix)
      {
        var ips := HostsAreTheUnion(specs, prefix);
      }
    } else {
      var id: nat :| id >= 1 && ParseAddress(GeneratedName(prefix, id)).Some?;
      var name := GeneratedName(prefix, id);
      OnlyCanonicalTexts(name);
      IdIsSmall(prefix, id);
      LosingIsNoUnion(prefix, id, ParseAddress(name).value);
      assert !AlwaysUnion(prefix);
    }
  }
}
