/**
 Single specs and names, in terms of their characters: which ranges and specs are accepted, what an
 accepted spec writes, and which number a host name has.
 */
module SpecTheorems {
  import opened Options
  import opened Decimal
  import opened Dicts
  import opened Text
  import opened Addresses
  import opened HostNames
  import opened Inventory
  import opened BuildTheorems
  import opened AddressTheorems

  // -------------------------------------------------------------------------------------------
  // Host numbers
  // -------------------------------------------------------------------------------------------

  predicate EndsInDigit(s: string) {
    s != "" && '0' <= s[|s| - 1] <= '9'
  }

  lemma ShortNameOf(short: string, domain: string)
    requires Free(short, '.')
    ensures ShortName(short) == short && ShortName(short + ['.'] + domain) == short
  {
    SplitAllOfFree(short, '.');
    SplitAllOfJoined(short, '.', domain);
  }

  /** The number of a host is that of all the digits at the end of its short name, in any domain. */
  lemma HostIdOfDigits(head: string, digits: string, domain: string)
    requires Free(head, '.') && !EndsInDigit(head) && digits != "" && AllDigits(digits)
    ensures HostId(head + digits) == Some(Value(digits))
    ensures HostId(head + digits + ['.'] + domain) == Some(Value(digits))
  {
    var short := head + digits;
    assert Free(short, '.') && short[|short| - 1] == digits[|digits| - 1];
    ShortNameOf(short, domain);
    TrailingDigitsOf(head, digits);
    assert TrailingDigits(head) == "" && "" + digits == digits;
  }

  /** Without a digit at the end there is no number; a newline may follow the digits. */
  lemma HostIdOfOthers(short: string, domain: string)
    requires Free(short, '.') && !EndsInDigit(short)
    ensures (short != "" ==> short[|short| - 1] != '\n') ==> HostId(short) == None && HostId(short + ['.'] + domain) == None
    ensures HostId(short + "\n") == None
  {
    ShortNameOf(short, domain);
    ShortNameOf(short + "\n", domain);
    assert (short + "\n")[..|short|] == short;
  }

  lemma HostIdBeforeNewline(head: string, digits: string)
    requires Free(head, '.') && !EndsInDigit(head) && digits != "" && AllDigits(digits)
    ensures HostId(head + digits + "\n") == Some(Value(digits))
  {
    var short := head + digits;
    ShortNameOf(short + "\n", "");
    assert (short + "\n")[..|short|] == short;
    TrailingDigitsOf(head, digits);
    assert TrailingDigits(head) == "" && "" + digits == digits;
  }

  /** A generated name has the number that it was made from, if the prefix has no dot and no digit at its end. */
  lemma GeneratedHasItsNumber(prefix: string, id: nat)
    requires Free(prefix, '.') && !EndsInDigit(prefix)
    ensures HostId(prefix + Numeral(id)) == Some(id) && GeneratedName(prefix, id) == prefix + Numeral(id)
  {
    HostIdOfDigits(prefix, Numeral(id), "");
    ValueOfNumeral(id);
  }

  lemma {:induction false} HighestIsAttained(hosts: Hosts, highest: nat)
    ensures HighestId(hosts, highest) == highest ||
            exists host :: host in Carried(hosts) && HostId(host.0) == Some(HighestId(hosts, highest))
    decreases |hosts|
  {
    if hosts != [] && HostId(hosts[0].0).Some? {
      var id := HostId(hosts[0].0).value;
      HighestIsAttained(hosts[1..], if id > highest then id else highest);
      assert Carried(hosts) == [hosts[0]] + Carried(hosts[1..]);
      assert hosts[0] in Carried(hosts);
    }
  }

  /** The scan finds the largest number among the hosts that it carries over, or 0. */
  lemma HighestIsLargest(hosts: Hosts)
    ensures forall i :: 0 <= i < |Carried(hosts)| && HostId(Carried(hosts)[i].0).Some? ==>
              HostId(Carried(hosts)[i].0).value <= HighestId(hosts, 0)
    ensures HighestId(hosts, 0) == 0 || exists host :: host in Carried(hosts) && HostId(host.0) == Some(HighestId(hosts, 0))
  {
    CarriedIdsAreLow(hosts, 0);
    HighestIsAttained(hosts, 0);
  }

  lemma {:induction false} NumbersFrom(ips: seq<string>, prefix: string, k: nat, highest: nat)
    requires Free(prefix, '.') && !EndsInDigit(prefix) && k <= |ips| && highest == k
    ensures Carried(Numbered(ips, prefix)[k..]) == Numbered(ips, prefix)[k..]
    ensures HighestId(Numbered(ips, prefix)[k..], highest) == |ips|
    decreases |ips| - k
  {
    var rest := Numbered(ips, prefix)[k..];
    if k < |ips| {
      assert rest[0].0 == GeneratedName(prefix, k + 1) && rest[1..] == Numbered(ips, prefix)[k + 1..];
      GeneratedHasItsNumber(prefix, k + 1);
      NumbersFrom(ips, prefix, k + 1, k + 1);
      assert rest == [rest[0]] + rest[1..];
    }
  }

  /** So a later run goes on where an earlier one has stopped: after prefix1..prefixk comes prefix(k+1). */
  lemma NextNameAfterNumbered(ips: seq<string>, prefix: string)
    requires Free(prefix, '.') && !EndsInDigit(prefix)
    ensures StartBuild(Numbered(ips, prefix)).hosts == Numbered(ips, prefix)
    ensures NextName(Numbered(ips, prefix), prefix) == prefix + Numeral(|ips| + 1)
  {
    NumbersFrom(ips, prefix, 0, 0);
    assert Numbered(ips, prefix)[0..] == Numbered(ips, prefix);
  }

  // -------------------------------------------------------------------------------------------
  // Ranges
  // -------------------------------------------------------------------------------------------

  predicate IsBlankChar(c: char) {
    c == ' ' || c == '\t' || c == '\n' || c == '\r' || c == 0x0b as char || c == 0x0c as char
  }

  predicate IsBlank(s: string) {
    forall i :: 0 <= i < |s| ==> IsBlankChar(s[i])
  }

  lemma {:induction false} StripEnds(s: string)
    ensures Strip(s) != "" ==> !IsBlankChar(Strip(s)[0]) && !IsBlankChar(Strip(s)[|Strip(s)| - 1])
    decreases |s|
  {
    if s != "" && IsSpace(s[0]) {
      StripEnds(s[1..]);
    } else if s != "" && IsSpace(s[|s| - 1]) {
      StripEnds(s[..|s| - 1]);
    }
  }

  /** strip takes away the whitespace at both ends, and nothing else. */
  lemma StripTakesBlanks(s: string) returns (before: string, after: string)
    ensures s == before + Strip(s) + after && IsBlank(before) && IsBlank(after)
    ensures Strip(s) != "" ==> !IsBlankChar(Strip(s)[0]) && !IsBlankChar(Strip(s)[|Strip(s)| - 1])
  {
    StripEnds(s);
    before, after := StripParts(s);
  }

  lemma {:induction false} StripParts(s: string) returns (before: string, after: string)
    ensures s == before + Strip(s) + after && IsBlank(before) && IsBlank(after)
    decreases |s|
  {
    before, after := "", "";
    if s != "" && IsSpace(s[0]) {
      var rest;
      rest, after := StripParts(s[1..]);
      before := [s[0]] + rest;
      assert s == [s[0]] + (rest + Strip(s) + after);
    } else if s != "" && IsSpace(s[|s| - 1]) {
      var rest;
      before, rest := StripParts(s[..|s| - 1]);
      after := rest + [s[|s| - 1]];
      assert s == before + Strip(s) + rest + [s[|s| - 1]];
    }
  }

  /** The stripped text is two addresses around one '-'. */
  predicate IsRangeText(s: string, lo: nat, hi: nat) {
    lo < ADDRESSES && hi < ADDRESSES && Strip(s) == AddressText(lo) + ['-'] + AddressText(hi)
  }

  /**
   A spec with a '-' that starts neither with '-' nor with a letter is a range: it is replaced by its
   addresses in order, or fails if its text is not two addresses around one '-'. Every other spec stays.
   */
  lemma ExpandExactly(spec: string)
    ensures (exists k :: 0 <= k < |spec| && spec[k] == '-') &&
            !(spec[0] == '-' || 'a' <= spec[0] <= 'z' || 'A' <= spec[0] <= 'Z') ==>
              && (Expand(spec).Ok? <==> exists lo, hi :: IsRangeText(spec, lo, hi))
              && forall lo, hi :: IsRangeText(spec, lo, hi) ==> Expand(spec) == Ok(Texts(Count(lo, hi)))
    ensures (forall k :: 0 <= k < |spec| ==> spec[k] != '-') || spec[0] == '-' || 'a' <= spec[0] <= 'z' || 'A' <= spec[0] <= 'Z'
            ==> Expand(spec) == Ok([spec])
  {
    if IsRange(spec) {
      forall lo, hi | IsRangeText(spec, lo, hi)
        ensures Expand(spec) == Ok(Texts(Count(lo, hi)))
      {
        RangeTextExpands(spec, lo, hi);
      }
      if Expand(spec).Ok? {
        var lo, hi := ExpandedIsRange(spec);
      }
    }
  }

  lemma RangeTextExpands(spec: string, lo: nat, hi: nat)
    requires IsRange(spec) && IsRangeText(spec, lo, hi)
    ensures Expand(spec) == Ok(Texts(Count(lo, hi)))
  {
    TextOfAddress(lo);
    TextOfAddress(hi);
    AddressRoundTrip(lo);
    AddressRoundTrip(hi);
    SplitAllOfJoined(AddressText(lo), '-', AddressText(hi));
    SplitAllOfFree(AddressText(hi), '-');
    RangeTexts(lo, hi);
  }

  lemma ExpandedIsRange(spec: string) returns (lo: nat, hi: nat)
    requires IsRange(spec) && Expand(spec).Ok?
    ensures IsRangeText(spec, lo, hi)
  {
    var parts := SplitAll(Strip(spec), '-');
    lo, hi := ParseAddress(parts[0]).value, ParseAddress(parts[1]).value;
    OnlyCanonicalTexts(parts[0]);
    OnlyCanonicalTexts(parts[1]);
    var rest := SplitAllStep(Strip(spec), '-');
    assert rest == parts[1];
  }

  // -------------------------------------------------------------------------------------------
  // Deletion by address
  // -------------------------------------------------------------------------------------------

  /** With several hosts of the address, the first one goes. */
  lemma {:induction false} FirstWithIpGoes(hosts: Hosts, ip: string, i: nat)
    requires i < |hosts| && HasIp(hosts[i], ip) && forall k :: 0 <= k < i ==> !HasIp(hosts[k], ip)
    ensures WithoutIp(hosts, ip) == hosts[..i] + hosts[i + 1..]
  {
    if i > 0 {
      assert !HasIp(hosts[0], ip);
      FirstWithIpGoes(hosts[1..], ip, i - 1);
      assert hosts[..i] == [hosts[0]] + hosts[1..][..i - 1] && hosts[1..][i..] == hosts[i + 1..];
    }
  }

  // -------------------------------------------------------------------------------------------
  // What a spec writes
  // -------------------------------------------------------------------------------------------

  /** The entry that an accepted spec writes, and that nothing else changes. */
  ghost predicate Writes(before: Hosts, after: Hosts, name: string, ip: string, accessIp: string) {
    && Keys(after) == (if name in Keys(before) then Keys(before) else Keys(before) + [name])
    && Get(after, name).Some? && IsEntry(Get(after, name).value, ip, accessIp)
    && forall other :: other != name ==> Get(after, other) == Get(before, other)
  }

  lemma PutWrites(hosts: Hosts, name: string, ip: string, accessIp: string)
    ensures Writes(hosts, Put(hosts, name, OptsOf(accessIp, ip)), name, ip, accessIp)
  {
    PutKeys(hosts, name, OptsOf(accessIp, ip));
    forall other
      ensures Get(Put(hosts, name, OptsOf(accessIp, ip)), other) ==
              if other == name then Some(OptsOf(accessIp, ip)) else Get(hosts, other)
    {
      PutGet(hosts, name, OptsOf(accessIp, ip), other);
    }
  }

  predicate StartsWithDigit(s: string) {
    s != "" && '0' <= s[0] <= '9'
  }

  predicate StartsWithLetter(s: string) {
    s != "" && ('a' <= s[0] <= 'z' || 'A' <= s[0] <= 'Z')
  }

  /** Every host has an address, none has this one, and none is named like the spec. */
  predicate IsOpenTo(hosts: Hosts, spec: string, ip: string) {
    && AllHaveIps(hosts) && (forall i :: 0 <= i < |hosts| ==> !HasIp(hosts[i], ip))
    && spec !in Keys(hosts)
  }

  lemma SplitTwo(a: string, b: string)
    requires Free(a, ',') && Free(b, ',')
    ensures SplitAll(a + [','] + b, ',') == [a, b]
  {
    SplitAllOfJoined(a, ',', b);
    SplitAllOfFree(b, ',');
  }

  lemma SplitThree(a: string, b: string, c: string)
    requires Free(a, ',') && Free(b, ',') && Free(c, ',')
    ensures SplitAll(a + [','] + (b + [','] + c), ',') == [a, b, c]
  {
    SplitAllOfJoined(a, ',', b + [','] + c);
    SplitTwo(b, c);
  }

  /** `ip` and `ip,access_ip` are accepted, and add a host under the next generated name. */
  lemma AddressIsAdded(st: Build, ip: string, accessIp: string, prefix: string)
    requires StartsWithDigit(ip) && Free(ip, ',') && Free(accessIp, ',')
    ensures IsOpenTo(st.hosts, ip, ip) ==>
              && Step(st, ip, prefix).Ok?
              && Writes(st.hosts, Step(st, ip, prefix).value.hosts, prefix + Numeral(st.nextId), ip, ip)
              && Step(st, ip, prefix).value.nextId == st.nextId + 1
    ensures var spec := ip + [','] + accessIp;
            IsOpenTo(st.hosts, spec, ip) ==>
              && Step(st, spec, prefix).Ok?
              && Writes(st.hosts, Step(st, spec, prefix).value.hosts, prefix + Numeral(st.nextId), ip, accessIp)
              && Step(st, spec, prefix).value.nextId == st.nextId + 1
  {
    SplitAllOfFree(ip, ',');
    SplitTwo(ip, accessIp);
    ExistsIpMeans(st.hosts, ip);
    PutWrites(st.hosts, prefix + Numeral(st.nextId), ip, ip);
    PutWrites(st.hosts, prefix + Numeral(st.nextId), ip, accessIp);
    assert (ip + [','] + accessIp)[0] == ip[0];
  }

  /** `name,ip` and `name,ip,access_ip` are accepted, and add or replace the host of that name. */
  lemma NamedIsAdded(st: Build, name: string, ip: string, accessIp: string, prefix: string)
    requires StartsWithLetter(name) && Free(name, ',') && Free(ip, ',') && Free(accessIp, ',')
    ensures var spec := name + [','] + ip;
            IsOpenTo(st.hosts, spec, ip) ==>
              && Step(st, spec, prefix).Ok?
              && Writes(st.hosts, Step(st, spec, prefix).value.hosts, name, ip, ip)
              && Step(st, spec, prefix).value.nextId == st.nextId
    ensures var spec := name + [','] + (ip + [','] + accessIp);
            IsOpenTo(st.hosts, spec, ip) ==>
              && Step(st, spec, prefix).Ok?
              && Writes(st.hosts, Step(st, spec, prefix).value.hosts, name, ip, accessIp)
              && Step(st, spec, prefix).value.nextId == st.nextId
  {
    SplitTwo(name, ip);
    SplitThree(name, ip, accessIp);
    ExistsIpMeans(st.hosts, ip);
    PutWrites(st.hosts, name, ip, ip);
    PutWrites(st.hosts, name, ip, accessIp);
    assert (name + [','] + ip)[0] == name[0] && (name + [','] + (ip + [','] + accessIp))[0] == name[0];
  }

  // A bare name is skipped if it is there; else it needs the fields of an earlier spec.
  predicate BareNameWorks(st: Build, name: string) {
    || name in Keys(st.hosts)
    || (st.ip.Some? && (ExistsIp(st.hosts, st.ip.value) == Ok(true) || (st.hostname.Some? && st.accessIp.Some?)))
  }

  /**
   Which specs are accepted, where every host has an address: not the empty one, an address with one
   comma at most, a named host with two at most; anything that starts with another character is ignored.
   */
  lemma AcceptedExactly(st: Build, spec: string, prefix: string)
    requires AllHaveIps(st.hosts)
    ensures Step(st, spec, prefix).Ok? <==>
            && spec != ""
            && (StartsWithDigit(spec) ==> |SplitAll(spec, ',')| <= 2)
            && (StartsWithLetter(spec) ==>
                  |SplitAll(spec, ',')| <= 3 && (|SplitAll(spec, ',')| == 1 ==> BareNameWorks(st, spec)))
  {
    var fields := SplitAll(spec, ',');
    if spec != "" {
      ExistsIpMeans(st.hosts, spec[1..]);
      ExistsIpMeans(st.hosts, fields[0]);
    }
    if |fields| > 1 {
      ExistsIpMeans(st.hosts, fields[1]);
    }
    if st.ip.Some? {
      ExistsIpMeans(st.hosts, st.ip.value);
    }
  }

  /** What later bare names can use: the fields of the last spec that had them. */
  lemma FieldsStaySet(st: Build, spec: string, prefix: string)
    requires Step(st, spec, prefix).Ok?
    ensures var fields, next := SplitAll(spec, ','), Step(st, spec, prefix).value;
            && (StartsWithDigit(spec) ==>
                  next.hostname == st.hostname && next.ip == Some(fields[0]) && next.accessIp == Some(fields[|fields| - 1]))
            && (StartsWithLetter(spec) && |fields| > 1 ==>
                  next.hostname == Some(fields[0]) && next.ip == Some(fields[1]) && next.accessIp == Some(fields[|fields| - 1]))
            && (!StartsWithDigit(spec) && !(StartsWithLetter(spec) && |fields| > 1) ==>
                  next.hostname == st.hostname && next.ip == st.ip && next.accessIp == st.accessIp)
  {
  }

  /** An entry of the three keys, where the host is reached under its access address. */
  predicate IsNewEntry(opts: Opts) {
    opts.Keys == {"ansible_host", "ip", "access_ip"} && opts["ansible_host"] == opts["access_ip"]
  }

  predicate IsCarriedOrNew(initial: Hosts, hosts: Hosts) {
    forall host :: host in hosts ==> host in initial || IsNewEntry(host.1)
  }

  lemma StepWritesEntries(initial: Hosts, st: Build, spec: string, prefix: string)
    requires Distinct(Keys(st.hosts)) && IsCarriedOrNew(initial, st.hosts) && Step(st, spec, prefix).Ok?
    ensures IsCarriedOrNew(initial, Step(st, spec, prefix).value.hosts)
  {
    var effect := EffectOf(st, spec, prefix);
    match effect
    case Nothing =>
    case Removed(name) => RemoveIsPart(st.hosts, name);
    case Added(ip, accessIp) => PutIsPart(st.hosts, GeneratedName(prefix, st.nextId), OptsOf(accessIp, ip));
    case Named(name, ip, accessIp) => PutIsPart(st.hosts, name, OptsOf(accessIp, ip));
  }

  lemma PutIsPart(hosts: Hosts, name: string, opts: Opts)
    ensures forall host :: host in Put(hosts, name, opts) ==> host in hosts || host == (name, opts)
  {
    PutEntries(hosts, name, opts);
  }

  lemma {:induction false} StepsWriteEntries(initial: Hosts, st: Build, specs: seq<string>, prefix: string)
    requires Distinct(Keys(st.hosts)) && IsCarriedOrNew(initial, st.hosts) && Steps(st, specs, prefix).Ok?
    ensures IsCarriedOrNew(initial, Steps(st, specs, prefix).value.hosts)
    decreases |specs|
  {
    if specs != [] {
      StepWritesEntries(initial, st, specs[0], prefix);
      StepKeepsNames(st, specs[0], prefix);
      StepsWriteEntries(initial, Step(st, specs[0], prefix).value, specs[1..], prefix);
    }
  }

  /** After any batch each entry of the table is one of the inventory, as it was, or a complete new one. */
  lemma BatchWritesEntries(hosts: Hosts, specs: seq<string>, prefix: string)
    requires Distinct(Keys(hosts)) && BuildHostnames(hosts, specs, prefix).Ok?
    ensures IsCarriedOrNew(hosts, BuildHostnames(hosts, specs, prefix).value)
  {
    CarriedIsPrefix(hosts);
    assert forall i :: 0 <= i < |Carried(hosts)| ==> Carried(hosts)[i] == hosts[i];
    StepsWriteEntries(hosts, StartBuild(hosts), specs, prefix);
  }
}
