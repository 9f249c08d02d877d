/**
 Whole runs of KubesprayInventory: repeating a batch of addresses changes nothing, exactly when the
 host prefix has no dot.
 */
module RunTheorems {
  import opened Options
  import opened Dicts
  import opened Text
  import opened HostNames
  import opened Inventory
  import opened BuildTheorems
  import opened AddressTheorems
  import opened Tables
  import opened RoleTheorems

  // -------------------------------------------------------------------------------------------
  // A batch of addresses, applied twice
  // -------------------------------------------------------------------------------------------

  /** The spec has nothing to add to this table: its text is a host name, or its address is in use. */
  predicate IsCovered(hosts: Hosts, spec: string) {
    spec in Keys(hosts) || ExistsIp(hosts, SplitAll(spec, ',')[0]) == Ok(true)
  }

  lemma CoveredInLonger(hosts: Hosts, more: Hosts, spec: string)
    requires IsCovered(hosts, spec)
    ensures IsCovered(hosts + more, spec)
  {
    KeysOfConcat(hosts, more);
    if spec !in Keys(hosts) {
      ExistsIpInLonger(hosts, more, SplitAll(spec, ',')[0]);
    }
  }

  lemma AddStep(initial: Hosts, first: nat, prefix: string, st: Build, kept: set<string>, added: Hosts, spec: string)
    returns (added': Hosts, more: Hosts)
    requires Distinct(Keys(initial)) && IdsBelow(initial, prefix, first)
    requires Evolved(initial, first, prefix, st, kept, added)
    requires IsAdd(spec) && Step(st, spec, prefix).Ok?
    ensures var next := Step(st, spec, prefix).value;
            && Evolved(initial, first, prefix, next, kept, added')
            && next.hosts == st.hosts + more
            && |SplitAll(spec, ',')| <= 2 && spec != ""
            && IsCovered(next.hosts, spec)
  {
    var next := Step(st, spec, prefix).value;
    var effect := EffectOf(st, spec, prefix);
    if effect.Added? {
      added' := AddedKeepsEvolved(initial, first, prefix, st, next, kept, added, effect.ip, effect.accessIp);
      var host := (GeneratedName(prefix, st.nextId), OptsOf(effect.accessIp, effect.ip));
      more := [host];
      ExistsIpAtEnd(st.hosts, host, effect.ip);
    } else {
      added', more := added, [];
      assert next.hosts + [] == next.hosts;
    }
  }

  /** What is left to do of an address spec that the code accepts. */
  predicate IsSettled(hosts: Hosts, spec: string) {
    spec != "" && |SplitAll(spec, ',')| <= 2 && IsCovered(hosts, spec)
  }

  predicate AllSettled(hosts: Hosts, specs: seq<string>) {
    forall i :: 0 <= i < |specs| ==> IsSettled(hosts, specs[i])
  }

  /** After a batch of addresses every spec is covered, and the hosts before are still in front. */
  lemma {:induction false} AddsCover(initial: Hosts, first: nat, prefix: string, st: Build, kept: set<string>,
                                     added: Hosts, specs: seq<string>)
    returns (more: Hosts)
    requires Distinct(Keys(initial)) && IdsBelow(initial, prefix, first)
    requires Evolved(initial, first, prefix, st, kept, added)
    requires AllSpecs(specs, IsAdd) && Steps(st, specs, prefix).Ok?
    ensures Steps(st, specs, prefix).value.hosts == st.hosts + more
    ensures AllSettled(Steps(st, specs, prefix).value.hosts, specs)
    decreases |specs|
  {
    if specs == [] {
      more := [];
      assert st.hosts + [] == st.hosts;
    } else {
      var added1, one := AddStep(initial, first, prefix, st, kept, added, specs[0]);
      var next := Step(st, specs[0], prefix).value;
      var rest := AddsCover(initial, first, prefix, next, kept, added1, specs[1..]);
      more := one + rest;
      assert st.hosts + one + rest == st.hosts + more;
      CoveredInLonger(next.hosts, rest, specs[0]);
    }
  }

  /** Specs that are all covered leave the table alone. */
  lemma {:induction false} CoveredSteps(st: Build, specs: seq<string>, prefix: string)
    requires AllSpecs(specs, IsAdd)
    requires AllSettled(st.hosts, specs)
    ensures Steps(st, specs, prefix).Ok? && Steps(st, specs, prefix).value.hosts == st.hosts
    decreases |specs|
  {
    if specs != [] {
      assert IsAdd(specs[0]) && IsSettled(st.hosts, specs[0]);
      CoveredSteps(Step(st, specs[0], prefix).value, specs[1..], prefix);
    }
  }

  /** The hosts behind the carried ones. */
  function Dropped(hosts: Hosts): Hosts {
    CarriedIsPrefix(hosts);
    hosts[|Carried(hosts)|..]
  }

  lemma {:induction false} KeepHostsConcat(a: Hosts, b: Hosts, names: seq<string>)
    ensures KeepHosts(a + b, names) == KeepHosts(a, names) + KeepHosts(b, names)
  {
    if b == [] {
      assert a + b == a;
    } else {
      var n := |b| - 1;
      assert (a + b)[..|a + b| - 1] == a + b[..n];
      KeepHostsConcat(a, b[..n], names);
    }
  }

  lemma {:induction false} PutAllBehind<V>(a: Dict<V>, b: Dict<V>, entries: Dict<V>)
    requires forall k :: k in Keys(entries) ==> k !in Keys(a)
    ensures PutAll(a + b, entries) == a + PutAll(b, entries)
    decreases |entries|
  {
    if entries != [] {
      var (k, v) := entries[0];
      assert Keys(entries) == [k] + Keys(entries[1..]);
      assert k in Keys(entries);
      PutBehind(a, b, k, v);
      PutAllBehind(a, Put(b, k, v), entries[1..]);
    }
  }

  lemma {:induction false} PutBehind<V>(a: Dict<V>, b: Dict<V>, k: string, v: V)
    requires k !in Keys(a)
    ensures Put(a + b, k, v) == a + Put(b, k, v)
  {
    if a == [] {
      assert a + b == b;
    } else {
      assert Keys(a) == [a[0].0] + Keys(a[1..]);
      assert (a + b)[0] == a[0] && (a + b)[1..] == a[1..] + b;
      PutBehind(a[1..], b, k, v);
    }
  }

  lemma PutAllOnPrefix<V>(a: Dict<V>, b: Dict<V>, entries: Dict<V>)
    requires Distinct(Keys(a + entries))
    ensures PutAll(a + b, a + entries) == a + PutAll(b, entries)
  {
    KeysOfConcat(a, entries);
    DistinctConcat(Keys(a), Keys(entries));
    forall i | 0 <= i < |a|
      ensures Get(a + b, a[i].0) == Some(a[i].1)
    {
      GetOfEntry(a, i);
      GetOfConcat(a, b, a[i].0);
      assert Keys(a)[i] == a[i].0;
    }
    PutAllPresent(a + b, a);
    PutAllConcat(a + b, a, entries);
    PutAllBehind(a, b, entries);
  }

  /** The scan of the hosts stops at one without a number. */
  predicate HasStop(hosts: Hosts) {
    hosts != [] && (HostId(hosts[0].0).None? || HasStop(hosts[1..]))
  }

  // One step of the scan.
  lemma ScanStep(host: (string, Opts), rest: Hosts, highest: nat)
    ensures HostId(host.0).None? ==>
              Carried([host] + rest) == [host] && HighestId([host] + rest, highest) == highest && HasStop([host] + rest)
    ensures HostId(host.0).Some? ==>
              && Carried([host] + rest) == [host] + Carried(rest)
              && HighestId([host] + rest, highest) ==
                 HighestId(rest, if HostId(host.0).value > highest then HostId(host.0).value else highest)
              && (HasStop([host] + rest) <==> HasStop(rest))
  {
  }

  // A numbered host in front changes nothing about where the scan stops.
  lemma ScanPast(host: (string, Opts), carried: Hosts, rest: Hosts)
    requires HostId(host.0).Some? && Carried(carried + rest) == carried
    ensures Carried([host] + carried + rest) == [host] + carried
  {
    assert [host] + carried + rest == [host] + (carried + rest);
    ScanStep(host, carried + rest, 0);
  }

  /** After a stop the scan of the carried hosts stops at the same place, whatever follows them. */
  lemma {:induction false} CarriedAgain(hosts: Hosts, rest: Hosts)
    requires HasStop(hosts)
    ensures Carried(Carried(hosts) + rest) == Carried(hosts)
  {
    var host, others := hosts[0], hosts[1..];
    if HostId(host.0).Some? {
      CarriedAgain(others, rest);
      ScanPast(host, Carried(others), rest);
    } else {
      ScanStep(host, rest, 0);
    }
  }

  lemma HighestPast(host: (string, Opts), carried: Hosts, rest: Hosts, highest: nat)
    requires HostId(host.0).Some?
    ensures HighestId([host] + carried + rest, highest) ==
            HighestId(carried + rest, if HostId(host.0).value > highest then HostId(host.0).value else highest)
  {
    assert [host] + carried + rest == [host] + (carried + rest);
    ScanStep(host, carried + rest, highest);
  }

  /** And it finds the same highest number. */
  lemma {:induction false} HighestAgain(hosts: Hosts, rest: Hosts, highest: nat)
    requires HasStop(hosts)
    ensures HighestId(Carried(hosts) + rest, highest) == HighestId(hosts, highest)
    decreases |hosts|
  {
    var host, others := hosts[0], hosts[1..];
    if HostId(host.0).Some? {
      var id := HostId(host.0).value;
      HighestAgain(others, rest, if id > highest then id else highest);
      HighestPast(host, Carried(others), rest, highest);
    } else {
      ScanStep(host, rest, highest);
    }
  }

  /** Without a stop everything is carried. */
  lemma {:induction false} NoStopCarriesAll(hosts: Hosts)
    requires !HasStop(hosts)
    ensures Carried(hosts) == hosts && AllNumbered(hosts)
  {
    if hosts != [] {
      NoStopCarriesAll(hosts[1..]);
      assert hosts == [hosts[0]] + hosts[1..];
    }
  }

  /** The hosts of the configuration that a batch of addresses leaves start with the carried ones. */
  lemma HostsAfterAdds(hosts: Hosts, more: Hosts, names: seq<string>) returns (rest: Hosts)
    requires Distinct(Keys(Carried(hosts) + more)) && names == Keys(Carried(hosts) + more)
    ensures PutAll(KeepHosts(hosts, names), Carried(hosts) + more) == Carried(hosts) + rest
    ensures !HasStop(hosts) ==> rest == more
  {
    var carried, dropped := Carried(hosts), Dropped(hosts);
    CarriedIsPrefix(hosts);
    assert hosts == carried + dropped;
    KeepHostsConcat(carried, dropped, names);
    KeysOfConcat(carried, more);
    KeepAllHosts(carried, names);
    PutAllOnPrefix(carried, KeepHosts(dropped, names), more);
    rest := PutAll(KeepHosts(dropped, names), more);
    if !HasStop(hosts) {
      NoStopCarriesAll(hosts);
      DistinctConcat(Keys(carried), Keys(more));
      assert dropped == [] && [] + more == more;
      PutAllFresh([], more);
    }
  }

  // The second batch finds the table of the first one.
  lemma TableAgain(hosts: Hosts, specs: seq<string>, prefix: string, names: seq<string>)
    requires Distinct(Keys(hosts)) && Free(prefix, '.') && AllSpecs(specs, IsAdd)
    requires BuildHostnames(hosts, specs, prefix).Ok?
    requires names == Keys(BuildHostnames(hosts, specs, prefix).value)
    ensures var table := BuildHostnames(hosts, specs, prefix).value;
            && Distinct(Keys(table))
            && BuildHostnames(PutAll(KeepHosts(hosts, names), table), specs, prefix) == Ok(table)
  {
    var first := HighestId(hosts, 0) + 1;
    var kept := StartIsEvolved(hosts, prefix);
    CarriedIdsBelow(hosts, prefix);
    var more := AddsCover(Carried(hosts), first, prefix, StartBuild(hosts), kept, [], specs);
    var kept', added' := StepsEvolve(Carried(hosts), first, prefix, StartBuild(hosts), kept, [], specs);
    var table := Carried(hosts) + more;
    var rest := HostsAfterAdds(hosts, more, names);
    if HasStop(hosts) {
      CarriedAgain(hosts, rest);
      HighestAgain(hosts, rest, 0);
      assert StartBuild(Carried(hosts) + rest) == StartBuild(hosts);
    } else {
      NoStopCarriesAll(hosts);
      TableIsNumbered(hosts, specs, prefix);
      CarriedIsPrefix(table);
      CoveredSteps(StartBuild(table), specs, prefix);
    }
  }

  // Without a stop in the scan, every host of the resulting table has a number.
  lemma TableIsNumbered(hosts: Hosts, specs: seq<string>, prefix: string)
    requires Distinct(Keys(hosts)) && Free(prefix, '.') && AllSpecs(specs, IsUnnamed) && AllNumbered(hosts)
    requires BuildHostnames(hosts, specs, prefix).Ok?
    ensures AllNumbered(BuildHostnames(hosts, specs, prefix).value)
  {
    var kept, added := BatchIsFresh(hosts, specs, prefix);
    var table := BuildHostnames(hosts, specs, prefix).value;
    var end := Steps(StartBuild(hosts), specs, prefix).value;
    RestrictKeys(hosts, kept);
    forall i | 0 <= i < |table|
      ensures HostId(table[i].0).Some?
    {
      var survivors := Restrict(hosts, kept);
      if i < |survivors| {
        assert survivors[i] in hosts;
      } else {
        assert IsGenerated(added[i - |survivors|].0, prefix, HighestId(hosts, 0) + 1, end.nextId);
        var id :| HighestId(hosts, 0) + 1 <= id < end.nextId && table[i].0 == GeneratedName(prefix, id);
        IdOfGenerated(prefix, id);
      }
    }
  }

  lemma {:induction false} NoGroupMissing(children: map<string, Group>, groups: seq<string>)
    requires forall g :: g in groups && g != "all" ==> g in children
    ensures WithGroups(children, groups) == children
    decreases |groups|
  {
    if groups != [] {
      assert groups[0] in groups;
      NoGroupMissing(children, groups[1..]);
    }
  }

  // A configuration that a run accepts and that lacks no group.
  predicate IsRunnable(cfg: Config) {
    && HasRoles(cfg) && CLUSTER in cfg.children && CanPurge(cfg)
    && cfg.children["etcd"].hosts.Names? && cfg.children["kube-master"].hosts.Names?
  }

  /**
   A run with addresses only is idempotent from any configuration at all: the same run on what it
   wrote gives the same host table, and leaves hosts, order, options and every group as they are.
   */
  lemma RunIsIdempotent(cfg: Option<Config>, changedHosts: seq<string>, specs: seq<string>, p: Params, out: Outcome)
    requires Distinct(Keys(HostsOf(Ensured(cfg)))) && Free(p.prefix, '.')
    requires ExpandAll(changedHosts) == Ok(specs) && AllSpecs(specs, IsAdd)
    requires Run(cfg, changedHosts, p) == Ok(out)
    ensures Run(Some(out.config), changedHosts, p) == Ok(out)
  {
    var before := Ensured(cfg);
    var names := Keys(out.hosts);
    RunIsAssigned(cfg, changedHosts, p);
    TableAgain(HostsOf(before), specs, p.prefix, names);
    AssignedTwice(before, out.hosts, p);
    TableWritten(before, out.hosts, p);
  }

  // What all.hosts holds after the run.
  lemma TableWritten(before: Config, hosts: Hosts, p: Params)
    requires HasRoles(before) && Assigned(before, hosts, p).Ok?
    ensures HostsOf(Assigned(before, hosts, p).value) == PutAll(KeepHosts(HostsOf(before), Keys(hosts)), hosts)
  {
  }

  /** Whether repeating a run with addresses only is always harmless under these settings. */
  ghost predicate RepeatsSafely(p: Params) {
    forall cfg, changedHosts {:trigger Run(cfg, changedHosts, p)} ::
      Distinct(Keys(HostsOf(Ensured(cfg)))) && Run(cfg, changedHosts, p).Ok? &&
      AllSpecs(ExpandAll(changedHosts).value, IsAdd) ==>
        Run(Some(Run(cfg, changedHosts, p).value.config), changedHosts, p) == Run(cfg, changedHosts, p)
  }

  /** It is, exactly when the host prefix has no dot. */
  lemma RepeatsSafelyExactly(p: Params)
    ensures RepeatsSafely(p) <==> Free(p.prefix, '.')
  {
    if Free(p.prefix, '.') {
      forall cfg, changedHosts {:trigger Run(cfg, changedHosts, p)} |
        Distinct(Keys(HostsOf(Ensured(cfg)))) && Run(cfg, changedHosts, p).Ok? &&
        AllSpecs(ExpandAll(changedHosts).value, IsAdd)
        ensures Run(Some(Run(cfg, changedHosts, p).value.config), changedHosts, p) == Run(cfg, changedHosts, p)
      {
        RunIsIdempotent(cfg, changedHosts, ExpandAll(changedHosts).value, p, Run(cfg, changedHosts, p).value);
      }
    } else {
      var cfg, batch := DottedRunRepeats(p);
      assert Distinct(Keys(HostsOf(Ensured(cfg)))) && AllSpecs(ExpandAll(batch).value, IsAdd);
      assert !(Run(Some(Run(cfg, batch, p).value.config), batch, p) == Run(cfg, batch, p));
    }
  }

  // The one host whose name the next one gets.
  function DottedHost(prefix: string, ip: string): (string, Opts) {
    (GeneratedName(prefix, DottedId(prefix)), OptsOf(ip, ip))
  }

  // Adding an address to this table replaces the host.
  lemma DottedReplaced(st: Build, ip: string, other: string, prefix: string)
    requires st.hosts == [DottedHost(prefix, ip)] && st.nextId == DottedId(prefix)
    requires IsPlain(ip, prefix) && IsPlain(other, prefix) && ip != other
    ensures Step(st, ip, prefix).Ok?
    ensures var same := Step(st, ip, prefix).value; same.hosts == st.hosts && same.nextId == st.nextId
    ensures Step(st, other, prefix).Ok?
    ensures var next := Step(st, other, prefix).value;
            next.hosts == [DottedHost(prefix, other)] && next.nextId == st.nextId + 1
  {
    var name := DottedHost(prefix, ip).0;
    assert st.hosts == Table([name], [ip]) && Keys(st.hosts) == [name] && IsSpelled(name, prefix);
    PlainIsNoName([name], ip, prefix);
    PlainIsNoName([name], other, prefix);
    SplitAllOfFree(ip, ',');
    SplitAllOfFree(other, ',');
    ExistsIpInNumbered(st.hosts, [ip], ip);
    ExistsIpInNumbered(st.hosts, [ip], other);
    assert st.hosts[1..] == [];
  }

  lemma TwoSpecs(st: Build, a: string, b: string, prefix: string)
    requires Step(st, a, prefix).Ok?
    ensures Steps(st, [a, b], prefix) == Step(Step(st, a, prefix).value, b, prefix)
  {
    var next := Step(st, a, prefix).value;
    assert [a, b][1..] == [b] && [b][1..] == [];
    assert Steps(next, [b], prefix) == Step(next, b, prefix);
  }

  // The first run replaces the host with one address by one with the other.
  lemma DottedFirst(prefix: string, ip: string, other: string)
    requires !Free(prefix, '.') && IsPlain(ip, prefix) && IsPlain(other, prefix) && ip != other
    ensures BuildHostnames([DottedHost(prefix, ip)], [ip, other], prefix) == Ok([DottedHost(prefix, other)])
  {
    var st := StartBuild([DottedHost(prefix, ip)]);
    DottedStart(prefix, OptsOf(ip, ip));
    DottedReplaced(st, ip, other, prefix);
    TwoSpecs(st, ip, other, prefix);
    DottedReplaced(Step(st, ip, prefix).value, ip, other, prefix);
  }

  // The second run finds the first address gone and adds it again: two hosts.
  lemma DottedSecond(prefix: string, ip: string, other: string)
    requires !Free(prefix, '.') && IsPlain(ip, prefix) && IsPlain(other, prefix) && ip != other
    ensures BuildHostnames([DottedHost(prefix, other)], [ip, other], prefix).Ok?
    ensures BuildHostnames([DottedHost(prefix, other)], [ip, other], prefix).value != [DottedHost(prefix, other)]
  {
    var st := StartBuild([DottedHost(prefix, other)]);
    DottedStart(prefix, OptsOf(other, other));
    DottedReplaced(st, other, ip, prefix);
    TwoSpecs(st, ip, other, prefix);
    var next := Step(st, ip, prefix).value;
    var name := DottedHost(prefix, ip).0;
    GeneratedNamesDiffer(prefix, st.nextId, next.nextId);
    assert next.hosts == Table([name], [ip]) && IsSpelled(name, prefix);
    PlainIsNoName([name], other, prefix);
    AddOne(next, [name], [ip], other, prefix);
    assert |Step(next, other, prefix).value.hosts| == 2;
  }

  lemma PlainBatch(ip: string, other: string, prefix: string)
    requires IsPlain(ip, prefix) && IsPlain(other, prefix)
    ensures AllSpecs([ip, other], IsIpSpec) && ExpandAll([ip, other]) == Ok([ip, other]) && AllSpecs([ip, other], IsAdd)
  {
    assert AllSpecs([ip, other], IsIpSpec);
    NothingToExpand([ip, other]);
    PlainIsHostText(ip);
    PlainIsHostText(other);
  }

  // Without groups to start from, a batch that keeps the names writes just its table.
  lemma ReplacingRun(cfg: Config, batch: seq<string>, p: Params, table: Hosts)
    requires cfg.children == map[] && Keys(table) == Keys(HostsOf(cfg)) && Distinct(Keys(table)) && table != []
    requires batch != [] && ExpandAll(batch) == Ok(batch) && BuildHostnames(HostsOf(cfg), batch, p.prefix) == Ok(table)
    ensures var run := Run(Some(cfg), batch, p);
            run.Ok? && run.value.hosts == table && HostsOf(Ensured(Some(run.value.config))) == table
  {
    FirstRunAssigns(cfg, table, p);
    TableWritten(Ensured(Some(cfg)), table, p);
    KeepAllHosts(HostsOf(cfg), Keys(table));
    PutAllSameNames(HostsOf(cfg), table);
  }

  lemma {:induction false} PutAllSameNames<V>(m: Dict<V>, entries: Dict<V>)
    requires Keys(m) == Keys(entries) && Distinct(Keys(entries))
    ensures PutAll(m, entries) == entries
    decreases |entries|
  {
    assert |m| == |Keys(m)| == |Keys(entries)| == |entries|;
    if entries != [] {
      assert Keys(m)[0] == entries[0].0;
      assert Put(m, entries[0].0, entries[0].1) == [entries[0]] + m[1..];
      assert Keys(m[1..]) == Keys(m)[1..] && Keys(entries[1..]) == Keys(entries)[1..];
      assert entries == [entries[0]] + entries[1..];
      DistinctConcat([entries[0].0], Keys(entries[1..]));
      PutAllBehind([entries[0]], m[1..], entries[1..]);
      PutAllSameNames(m[1..], entries[1..]);
    }
  }

  lemma DottedRun(p: Params, ip: string, other: string)
    requires !Free(p.prefix, '.') && IsPlain(ip, p.prefix) && IsPlain(other, p.prefix) && ip != other
    ensures var run := Run(Some(Config(Some([DottedHost(p.prefix, ip)]), map[])), [ip, other], p);
            && run.Ok? && run.value.hosts == [DottedHost(p.prefix, other)]
            && HostsOf(Ensured(Some(run.value.config))) == [DottedHost(p.prefix, other)]
  {
    var table := [DottedHost(p.prefix, other)];
    PlainBatch(ip, other, p.prefix);
    DottedFirst(p.prefix, ip, other);
    assert Keys([DottedHost(p.prefix, ip)]) == Keys(table);
    ReplacingRun(Config(Some([DottedHost(p.prefix, ip)]), map[]), [ip, other], p, table);
  }

  lemma DottedRunRepeats(p: Params) returns (cfg: Option<Config>, batch: seq<string>)
    requires !Free(p.prefix, '.')
    ensures Distinct(Keys(HostsOf(Ensured(cfg)))) && Run(cfg, batch, p).Ok?
    ensures AllSpecs(batch, IsIpSpec) && AllSpecs(ExpandAll(batch).value, IsAdd)
    ensures Run(Some(Run(cfg, batch, p).value.config), batch, p) != Run(cfg, batch, p)
  {
    var ips := OutsideTexts(p.prefix, 0, 2);
    OutsideArePlain(p.prefix, 0, 2);
    cfg, batch := Some(Config(Some([DottedHost(p.prefix, ips[0])]), map[])), [ips[0], ips[1]];
    PlainBatch(ips[0], ips[1], p.prefix);
    DottedRun(p, ips[0], ips[1]);
    DottedSecond(p.prefix, ips[0], ips[1]);
  }

  /** The first run with any addresses and ranges succeeds, and its hosts are the union of them. */
  lemma FirstRunSucceeds(specs: seq<AddressSpec>, p: Params) returns (ips: seq<string>)
    requires specs != [] && AllValid(specs) && NeverAddress(p.prefix)
    ensures Run(None, SpecTexts(specs), p).Ok?
    ensures Run(None, SpecTexts(specs), p).value.hosts == Numbered(ips, p.prefix) && IsUnion(specs, p.prefix, ips)
    ensures IsFresh(Ensured(None))
  {
    ips := HostsAreTheUnion(specs, p.prefix);
    FirstRunAssigns(Config(Some([]), map[]), Numbered(ips, p.prefix), p);
  }

  /** A whole run on an inventory without hosts is a fresh build, also with named hosts in the batch. */
  lemma FreshRun(cfg: Option<Config>, changedHosts: seq<string>, p: Params)
    requires IsFresh(Ensured(cfg)) && Run(cfg, changedHosts, p).Ok?
    ensures var out := Run(cfg, changedHosts, p).value;
            var names := Keys(out.hosts);
            var etcd, masters, nodes :=
              Members(out.config, "etcd"), Members(out.config, "kube-master"), Members(out.config, "kube-node");
            && Distinct(names) && HostsOf(out.config) == out.hosts
            && IsCut(names, p, etcd, masters, nodes)
            && (forall h :: h in names ==> h in etcd || h in masters || h in nodes)
            && (|names| >= p.scale ==> forall h :: h in etcd ==> h !in masters && h !in nodes)
            && (|names| >= p.scale && |names| >= p.massive ==> |etcd| + |masters| + |nodes| == |names|)
  {
    RunIsAssigned(cfg, changedHosts, p);
    BatchKeepsDistinctIps([], ExpandAll(changedHosts).value, p.prefix);
    FreshBuild(Ensured(cfg), Run(cfg, changedHosts, p).value.hosts, p);
  }
}
