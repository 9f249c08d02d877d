/**
 What batches of new addresses and of deletions by name do to a table of hosts, name by name, and
 addresses that no generated name spells.
 */
module Tables {
  import opened Dicts
  import opened Text
  import opened Decimal
  import opened Addresses
  import opened HostNames
  import opened Inventory
  import opened BuildTheorems
  import opened AddressTheorems

  // -------------------------------------------------------------------------------------------
  // Tables of hosts with their addresses
  // -------------------------------------------------------------------------------------------

  function Table(names: seq<string>, ips: seq<string>): Hosts
    requires |names| == |ips|
  {
    seq(|names|, i requires 0 <= i < |names| => (names[i], OptsOf(ips[i], ips[i])))
  }

  function NamesFrom(prefix: string, id: nat, n: nat): seq<string> {
    seq(n, i requires 0 <= i < n => GeneratedName(prefix, id + i))
  }

  /** Some host number makes this name. */
  ghost predicate IsSpelled(name: string, prefix: string) {
    exists id: nat :: name == GeneratedName(prefix, id)
  }

  ghost predicate AllSpelled(names: seq<string>, prefix: string) {
    forall i :: 0 <= i < |names| ==> IsSpelled(names[i], prefix)
  }

  lemma NamesAreSpelled(prefix: string, id: nat, n: nat)
    ensures AllSpelled(NamesFrom(prefix, id, n), prefix) && Distinct(NamesFrom(prefix, id, n))
  {
    var names := NamesFrom(prefix, id, n);
    forall i | 0 <= i < n
      ensures IsSpelled(names[i], prefix)
    {
      assert names[i] == GeneratedName(prefix, id + i);
    }
    forall i, j | 0 <= i < j < n
      ensures names[i] != names[j]
    {
      GeneratedNamesDiffer(prefix, id + i, id + j);
    }
  }

  /** An address whose text is not the name of a generated host. */
  ghost predicate IsPlain(ip: string, prefix: string) {
    ParseAddress(ip).Some? && !IsSpelled(ip, prefix)
  }

  ghost predicate AllPlain(ips: seq<string>, prefix: string) {
    Distinct(ips) && forall i :: 0 <= i < |ips| ==> IsPlain(ips[i], prefix)
  }

  lemma PlainIsHostText(ip: string)
    requires ParseAddress(ip).Some?
    ensures IsHostText(ip) && Expand(ip) == Ok([ip])
  {
    OnlyCanonicalTexts(ip);
    TextOfAddress(ParseAddress(ip).value);
    ExpandOne(ip);
  }

  /** An address, or a deletion. */
  predicate IsIpSpec(spec: string) {
    (spec != "" && spec[0] == '-') || ParseAddress(spec).Some?
  }

  lemma IpSpecStays(spec: string)
    requires IsIpSpec(spec)
    ensures Expand(spec) == Ok([spec]) && IsUnnamed(spec)
  {
    if spec == "" || spec[0] != '-' {
      PlainIsHostText(spec);
    }
  }

  lemma {:induction false} NothingToExpand(specs: seq<string>)
    requires AllSpecs(specs, IsIpSpec)
    ensures ExpandAll(specs) == Ok(specs) && AllSpecs(specs, IsUnnamed)
  {
    if specs != [] {
      IpSpecStays(specs[0]);
      NothingToExpand(specs[1..]);
      assert [specs[0]] + specs[1..] == specs;
    }
  }

  lemma {:induction false} StepsConcat(st: Build, a: seq<string>, b: seq<string>, prefix: string)
    requires Steps(st, a, prefix).Ok?
    ensures Steps(st, a + b, prefix) == Steps(Steps(st, a, prefix).value, b, prefix)
    decreases |a|
  {
    if a == [] {
      assert a + b == b;
    } else {
      assert (a + b)[1..] == a[1..] + b;
      StepsConcat(Step(st, a[0], prefix).value, a[1..], b, prefix);
    }
  }

  lemma PlainIsNoName(names: seq<string>, ip: string, prefix: string)
    requires AllSpelled(names, prefix) && IsPlain(ip, prefix)
    ensures ip !in names && IsHostText(ip)
  {
    PlainIsHostText(ip);
    forall i | 0 <= i < |names|
      ensures names[i] != ip
    {
      assert IsSpelled(names[i], prefix);
    }
  }

  lemma AddOne(st: Build, names: seq<string>, ips: seq<string>, ip: string, prefix: string)
    requires |names| == |ips| && st.hosts == Table(names, ips)
    requires IsHostText(ip) && ip !in names && ip !in ips && GeneratedName(prefix, st.nextId) !in names
    ensures Step(st, ip, prefix).Ok?
    ensures Step(st, ip, prefix).value.hosts == Table(names + [GeneratedName(prefix, st.nextId)], ips + [ip])
    ensures Step(st, ip, prefix).value.nextId == st.nextId + 1
  {
    var name := GeneratedName(prefix, st.nextId);
    assert Keys(st.hosts) == names;
    SplitAllOfFree(ip, ',');
    ExistsIpInNumbered(st.hosts, ips, ip);
    PutKeys(st.hosts, name, OptsOf(ip, ip));
    assert st.hosts + [(name, OptsOf(ip, ip))] == Table(names + [name], ips + [ip]);
  }

  lemma {:induction false} AddMany(st: Build, names: seq<string>, ips: seq<string>, more: seq<string>, prefix: string)
    requires |names| == |ips| && st.hosts == Table(names, ips) && AllSpelled(names, prefix)
    requires forall i :: 0 <= i < |more| ==> IsPlain(more[i], prefix)
    requires Distinct(names + NamesFrom(prefix, st.nextId, |more|)) && Distinct(ips + more)
    ensures Steps(st, more, prefix).Ok?
    ensures Steps(st, more, prefix).value.hosts == Table(names + NamesFrom(prefix, st.nextId, |more|), ips + more)
    decreases |more|
  {
    var all := NamesFrom(prefix, st.nextId, |more|);
    if more == [] {
      assert names + all == names && ips + more == ips;
    } else {
      var name := GeneratedName(prefix, st.nextId);
      assert all == [name] + NamesFrom(prefix, st.nextId + 1, |more| - 1);
      assert names + [name] + NamesFrom(prefix, st.nextId + 1, |more| - 1) == names + all;
      assert ips + [more[0]] + more[1..] == ips + more;
      DistinctConcat(names, all);
      DistinctConcat(ips, more);
      assert name in all && more[0] in more;
      PlainIsNoName(names, more[0], prefix);
      AddOne(st, names, ips, more[0], prefix);
      NamesAreSpelled(prefix, st.nextId, 1);
      assert NamesFrom(prefix, st.nextId, 1)[0] == name;
      AddMany(Step(st, more[0], prefix).value, names + [name], ips + [more[0]], more[1..], prefix);
    }
  }

  lemma DropFirst(st: Build, names: seq<string>, ips: seq<string>, prefix: string)
    requires |names| == |ips| > 0 && st.hosts == Table(names, ips)
    ensures Step(st, ['-'] + names[0], prefix) == Ok(st.(hosts := Table(names[1..], ips[1..])))
  {
    var spec := ['-'] + names[0];
    assert spec[1..] == names[0] && spec[0] == '-';
    assert Keys(st.hosts)[0] == names[0];
    assert st.hosts[1..] == Table(names[1..], ips[1..]);
  }

  /** What the host table of a run with this batch is. */
  ghost predicate Builds(hosts: Hosts, batch: seq<string>, prefix: string, table: Hosts) {
    && batch != [] && ExpandAll(batch) == Ok(batch) && AllSpecs(batch, IsIpSpec)
    && BuildHostnames(hosts, batch, prefix) == Ok(table)
  }

  // -------------------------------------------------------------------------------------------
  // The batches
  // -------------------------------------------------------------------------------------------

  function DropBatch(name: string, more: seq<string>): seq<string> {
    [['-'] + name] + more
  }

  lemma DropThenAdd(hosts: Hosts, names: seq<string>, ips: seq<string>, more: seq<string>, prefix: string)
    requires |names| == |ips| > 0 && StartBuild(hosts).hosts == Table(names, ips) && AllSpelled(names, prefix)
    requires AllPlain(more, prefix) && Distinct(ips[1..] + more)
    requires Distinct(names[1..] + NamesFrom(prefix, StartBuild(hosts).nextId, |more|))
    ensures Builds(hosts, DropBatch(names[0], more), prefix,
                   Table(names[1..] + NamesFrom(prefix, StartBuild(hosts).nextId, |more|), ips[1..] + more))
  {
    var batch, restNames, restIps := DropBatch(names[0], more), names[1..], ips[1..];
    var st := StartBuild(hosts);
    var dropped := st.(hosts := Table(restNames, restIps));
    DropFirst(st, names, ips, prefix);
    assert batch[0] == ['-'] + names[0] && batch[1..] == more;
    NothingToExpand(batch);
    assert Steps(st, batch, prefix) == Steps(dropped, more, prefix);
    AddMany(dropped, restNames, restIps, more, prefix);
  }

  lemma JustAdd(hosts: Hosts, names: seq<string>, ips: seq<string>, more: seq<string>, prefix: string)
    requires |names| == |ips| && StartBuild(hosts).hosts == Table(names, ips) && AllSpelled(names, prefix)
    requires more != [] && AllPlain(more, prefix) && Distinct(ips + more)
    requires Distinct(names + NamesFrom(prefix, StartBuild(hosts).nextId, |more|))
    ensures Builds(hosts, more, prefix, Table(names + NamesFrom(prefix, StartBuild(hosts).nextId, |more|), ips + more))
  {
    NothingToExpand(more);
    AddMany(StartBuild(hosts), names, ips, more, prefix);
  }

  // -------------------------------------------------------------------------------------------
  // Addresses that are no names
  // -------------------------------------------------------------------------------------------

  const BLOCK: nat := 0x100_0000

  /** 1.0.0.0, or 2.0.0.0 for a prefix that starts like the first one. */
  function OutsideBase(prefix: string): nat {
    if prefix != "" && prefix[0] == '1' then 2 * BLOCK else BLOCK
  }

  /** These n addresses of that block, from the given place on. */
  function OutsideTexts(prefix: string, from: nat, n: nat): seq<string> {
    seq(n, i requires 0 <= i < n => AddressText(OutsideBase(prefix) + from + i))
  }

  lemma FirstOctet(n: nat, k: nat)
    requires k < BLOCK && (n == BLOCK || n == 2 * BLOCK)
    ensures (n + k) / OCTET / OCTET / OCTET % OCTET == n / BLOCK
  {
    assert (n + k) / OCTET / OCTET / OCTET == (n + k) / BLOCK;
  }

  lemma OutsideIsPlain(prefix: string, k: nat)
    requires k < BLOCK
    ensures IsPlain(AddressText(OutsideBase(prefix) + k), prefix)
  {
    var text := AddressText(OutsideBase(prefix) + k);
    AddressRoundTrip(OutsideBase(prefix) + k);
    FirstOctet(OutsideBase(prefix), k);
    assert text[0] == if OutsideBase(prefix) == BLOCK then '1' else '2';
    forall id: nat
      ensures text != GeneratedName(prefix, id)
    {
      NumeralIsFree(id, '.');
      assert prefix == "" ==> GeneratedName(prefix, id) == Numeral(id);
      assert prefix != "" ==> GeneratedName(prefix, id)[0] == prefix[0];
    }
  }

  lemma OutsideArePlain(prefix: string, from: nat, n: nat)
    requires from + n <= BLOCK
    ensures AllPlain(OutsideTexts(prefix, from, n), prefix)
  {
    var ips := OutsideTexts(prefix, from, n);
    forall i | 0 <= i < n
      ensures IsPlain(ips[i], prefix)
    {
      OutsideIsPlain(prefix, from + i);
    }
    forall i, j | 0 <= i < j < n
      ensures ips[i] != ips[j]
    {
      TextsDiffer(OutsideBase(prefix) + from + i, OutsideBase(prefix) + from + j);
    }
  }
}
