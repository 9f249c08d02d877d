/**
 The conflict test of set_calico_rr
 (assignment4/kubespray/contrib/inventory_builder/inventory.py:309-319): it looks for the host among
 the keys of a group's record and not in the group's host table.
 */
module CalicoTheorems {
  import opened Options
  import opened Dicts
  import opened Text
  import opened Decimal
  import opened HostNames
  import opened Inventory
  import opened BuildTheorems
  import opened Tables
  import opened RoleTheorems
  import opened RunTheorems

  /** The conflict that the messages of set_calico_rr speak of. */
  predicate IsMasterOrNode(cfg: Config, h: string) {
    h in Members(cfg, "kube-master") || h in Members(cfg, "kube-node")
  }

  /** The hosts that a run considers for calico-rr. */
  function Candidates(hosts: Hosts): seq<string> {
    Slice(Keys(hosts), 0, EtcdCount(Keys(hosts)))
  }

  // At scale the masters come after the candidates.
  lemma CandidatesAreNoMasters(names: seq<string>, p: Params, h: string)
    requires Distinct(names) && |names| >= p.scale && h in Slice(names, 0, EtcdCount(names))
    ensures h in names && h !in MasterHosts(names, p)
  {
    var c := Clip(EtcdCount(names), |names|);
    var masters := MasterHosts(names, p);
    var i :| 0 <= i < c && names[i] == h;
    forall k | 0 <= k < |masters|
      ensures masters[k] != h
    {
      assert masters[k] == names[c + k];
    }
  }

  /**
   What a run at scale does to a candidate: it is neither made a master nor a node, nor is either role
   taken from it; and it gets calico-rr unless it is named like a key of one of the records.
   */
  lemma CandidateAfterAssign(before: Config, hosts: Hosts, p: Params, h: string)
    requires HasRoles(before) && Assigned(before, hosts, p).Ok? && Distinct(Keys(hosts))
    requires |hosts| >= p.scale && h in Candidates(hosts)
    ensures var after := Assigned(before, hosts, p).value;
            && (h in Members(after, "calico-rr") <==> h in Members(before, "calico-rr") || !IsRecordKey(before, h))
            && (IsMasterOrNode(after, h) <==> IsMasterOrNode(before, h))
  {
    var names := Keys(hosts);
    CandidatesAreNoMasters(names, p, h);
    SliceMembers(names, 0, EtcdCount(names), h);
    SliceMembers(names, EtcdCount(names), EtcdCount(names) + p.masters, h);
    CountsOfHosts(before, hosts, p);
    GroupMembers(before, hosts, p, "etcd", h);
    GroupMembers(before, hosts, p, "kube-master", h);
    GroupMembers(before, hosts, p, "kube-node", h);
    GroupMembers(before, hosts, p, "calico-rr", h);
  }

  /** Of the candidates, exactly those are route reflectors that are neither masters nor nodes. */
  predicate NoConflicts(cfg: Config, candidates: seq<string>) {
    forall h :: h in candidates ==> (h in Members(cfg, "calico-rr") <==> !IsMasterOrNode(cfg, h))
  }

  /**
   A run at scale leaves the candidates without conflicts exactly when, in the configuration before it,
   those that are masters or nodes are the ones that are named like a record key and are no route
   reflectors yet. With no candidate of such a name: exactly when none is a master or a node before.
   */
  lemma CalicoTestIsRightExactly(cfg: Option<Config>, changedHosts: seq<string>, p: Params)
    requires Run(cfg, changedHosts, p).Ok? && Distinct(Keys(HostsOf(Ensured(cfg))))
    requires |Run(cfg, changedHosts, p).value.hosts| >= p.scale
    ensures HasRoles(Ensured(cfg))
    ensures var before, out := Ensured(cfg), Run(cfg, changedHosts, p).value;
            NoConflicts(out.config, Candidates(out.hosts)) <==>
            forall h :: h in Candidates(out.hosts) ==>
              (IsMasterOrNode(before, h) <==> IsRecordKey(before, h) && h !in Members(before, "calico-rr"))
    ensures var before, out := Ensured(cfg), Run(cfg, changedHosts, p).value;
            (forall h :: h in Candidates(out.hosts) ==> !IsRecordKey(before, h)) ==>
              (NoConflicts(out.config, Candidates(out.hosts)) <==>
               forall h :: h in Candidates(out.hosts) ==> !IsMasterOrNode(before, h))
  {
    RunIsAssigned(cfg, changedHosts, p);
    var before, out := Ensured(cfg), Run(cfg, changedHosts, p).value;
    BatchKeepsNames(HostsOf(before), ExpandAll(changedHosts).value, p.prefix);
    forall h | h in Candidates(out.hosts)
      ensures h in Members(out.config, "calico-rr") <==> h in Members(before, "calico-rr") || !IsRecordKey(before, h)
      ensures IsMasterOrNode(out.config, h) <==> IsMasterOrNode(before, h)
    {
      CandidateAfterAssign(before, out.hosts, p, h);
    }
  }

  // -------------------------------------------------------------------------------------------
  // It goes wrong
  // -------------------------------------------------------------------------------------------

  /** One host, h, which is a master; and no other keys in the records than `hosts`. */
  ghost predicate HasOneMaster(small: Config, h: string, ip: string) {
    && Ensured(Some(small)) == small && IsRunnable(small)
    && HostsOf(small) == Table([h], [ip])
    && h in Members(small, "kube-master")
    && (forall k :: IsRecordKey(small, k) ==> k == "hosts")
  }

  // The first run: one host, below the threshold, so it is etcd and a master.
  lemma FirstHostRun(ip: string, p: Params) returns (h: string)
    requires IsPlain(ip, p.prefix) && p.scale >= 2 && p.masters >= 1
    ensures h == GeneratedName(p.prefix, 1) && Run(None, [ip], p).Ok?
    ensures HasOneMaster(Run(None, [ip], p).value.config, h, ip)
  {
    h := GeneratedName(p.prefix, 1);
    var table := Table([h], [ip]);
    FirstTable(ip, p.prefix);
    FirstRunAssigns(Config(Some([]), map[]), table, p);
    var small := Assigned(Ensured(None), table, p).value;
    assert Run(None, [ip], p) == Ok(Outcome(small, table));
    FirstRoles(table, h, p);
  }

  lemma FirstTable(ip: string, prefix: string)
    requires IsPlain(ip, prefix)
    ensures Builds([], [ip], prefix, Table([GeneratedName(prefix, 1)], [ip]))
  {
    var h := GeneratedName(prefix, 1);
    NamesAreSpelled(prefix, 1, 1);
    assert NamesFrom(prefix, 1, 1) == [h] && [] + [h] == [h] && [] + [ip] == [ip];
    assert StartBuild([]).hosts == Table([], []);
    JustAdd([], [], [], [ip], prefix);
  }

  lemma FirstRoles(table: Hosts, h: string, p: Params)
    requires Keys(table) == [h] && p.scale >= 2 && p.masters >= 1
    requires HasRoles(Ensured(None)) && IsFresh(Ensured(None)) && Assigned(Ensured(None), table, p).Ok?
    requires forall role :: role in Ensured(None).children ==> Ensured(None).children[role] == Group(Names([]), {})
    ensures var small := Assigned(Ensured(None), table, p).value;
            && IsRunnable(small) && HostsOf(small) == table
            && h in Members(small, "kube-master")
            && (forall k :: IsRecordKey(small, k) ==> k == "hosts")
  {
    var before := Ensured(None);
    EnsuredHasRoles(None);
    var nodes, calico := AssignedShape(before, table, p);
    var small := Assigned(before, table, p).value;
    FreshGroups(before, table, p, small, nodes, calico);
    GroupsSettled(before, table, p, small, nodes, calico);
    assert MasterHosts([h], p) == [h];
    OnlyHostsKey(before, table, p, small, nodes, calico);
  }

  lemma OnlyHostsKey(before: Config, hosts: Hosts, p: Params, after: Config, nodes: seq<string>, calico: seq<string>)
    requires IsAssigned(before, hosts, p, after, nodes, calico) && HasRoles(before)
    requires before.children["kube-master"].others == {} && before.children["kube-node"].others == {}
    ensures forall k :: IsRecordKey(after, k) ==> k == "hosts"
  {
    forall k
      ensures IsRecordKey(after, k) ==> k == "hosts"
    {
    }
  }

  // The second run adds hosts up to the threshold behind the first one.
  lemma SecondTable(ip: string, more: seq<string>, prefix: string) returns (table: Hosts)
    requires Free(prefix, '.') && IsPlain(ip, prefix) && more != [] && AllPlain(more, prefix) && Distinct([ip] + more)
    ensures Builds(Table([GeneratedName(prefix, 1)], [ip]), more, prefix, table)
    ensures |table| == 1 + |more| && Distinct(Keys(table)) && Keys(table)[0] == GeneratedName(prefix, 1)
  {
    var h := GeneratedName(prefix, 1);
    var hosts := Table([h], [ip]);
    var start := StartBuild(hosts);
    IdOfGenerated(prefix, 1);
    var id := HostId(h).value;
    assert hosts[0].0 == h && hosts[1..] == [];
    assert Carried(hosts) == [hosts[0]] + Carried(hosts[1..]) == hosts;
    assert HighestId(hosts, 0) == HighestId(hosts[1..], id) == id;
    var fresh_ := NamesFrom(prefix, start.nextId, |more|);
    NamesAreSpelled(prefix, start.nextId, |more|);
    assert IsSpelled(h, prefix);
    forall i | 0 <= i < |fresh_|
      ensures fresh_[i] != h
    {
      GeneratedNamesDiffer(prefix, 1, start.nextId + i);
    }
    DistinctConcat([h], fresh_);
    JustAdd(hosts, [h], [ip], more, prefix);
    table := Table([h] + fresh_, [ip] + more);
    assert Keys(table) == [h] + fresh_;
  }

  lemma OutsideSplit(prefix: string, n: nat)
    requires 1 <= n <= BLOCK
    ensures var ip, ips := OutsideTexts(prefix, 0, 1)[0], OutsideTexts(prefix, 1, n - 1);
            && IsPlain(ip, prefix) && AllPlain(ips, prefix) && Distinct([ip] + ips)
            && AllSpecs([ip], IsIpSpec) && AllSpecs(ips, IsIpSpec)
  {
    var ip, ips := OutsideTexts(prefix, 0, 1)[0], OutsideTexts(prefix, 1, n - 1);
    OutsideIsPlain(prefix, 0);
    OutsideArePlain(prefix, 1, n - 1);
    OutsideArePlain(prefix, 0, n);
    assert [ip] + ips == OutsideTexts(prefix, 0, n);
  }

  /** A run has made the master h a route reflector as well. */
  ghost predicate Conflicts(out: Outcome, h: string) {
    && h in Candidates(out.hosts)
    && h in Members(out.config, "calico-rr") && h in Members(out.config, "kube-master")
    && !NoConflicts(out.config, Candidates(out.hosts))
  }

  lemma GeneratedIsNoKey(prefix: string, id: nat)
    ensures GeneratedName(prefix, id) != "hosts"
  {
    var name := GeneratedName(prefix, id);
    assert name[|name| - 1] == Numeral(id)[|Numeral(id)| - 1];
  }

  lemma SecondRun(small: Config, table: Hosts, second: seq<string>, h: string, p: Params)
    requires Ensured(Some(small)) == small && IsRunnable(small) && h in Members(small, "kube-master")
    requires Builds(HostsOf(small), second, p.prefix, table) && |table| == p.scale && Distinct(Keys(table))
    requires table != [] && Keys(table)[0] == h && !IsRecordKey(small, h)
    ensures Run(Some(small), second, p).Ok?
    ensures |Run(Some(small), second, p).value.hosts| == p.scale && Conflicts(Run(Some(small), second, p).value, h)
  {
    AssignSucceeds(small, table, p);
    CandidateAfterAssign(small, table, p, h);
    GroupMembers(small, table, p, "kube-master", h);
    CandidatesAreNoMasters(Keys(table), p, h);
    var grown := Assigned(small, table, p).value;
    assert Run(Some(small), second, p) == Ok(Outcome(grown, table));
    assert IsMasterOrNode(grown, h);
  }

  /** The second batch on what the first has written, from no configuration, ends with such a conflict. */
  ghost predicate GrowsIntoConflict(first: seq<string>, second: seq<string>, h: string, p: Params) {
    && Run(None, first, p).Ok?
    && var small := Run(None, first, p).value.config;
    && Run(Some(small), second, p).Ok?
    && |Run(Some(small), second, p).value.hosts| == p.scale && Conflicts(Run(Some(small), second, p).value, h)
  }

  /**
   It happens, with any threshold that so many addresses can reach: one host first, then the others.
   The first host is a master, stays one, and becomes a route reflector as well.
   */
  lemma GrownInventoryExample(p: Params) returns (first: seq<string>, second: seq<string>, h: string)
    requires Free(p.prefix, '.') && p.masters >= 1 && 2 <= p.scale <= BLOCK
    ensures AllSpecs(first, IsIpSpec) && AllSpecs(second, IsIpSpec) && GrowsIntoConflict(first, second, h, p)
  {
    var ip, ips := OutsideTexts(p.prefix, 0, 1)[0], OutsideTexts(p.prefix, 1, p.scale - 1);
    OutsideSplit(p.prefix, p.scale);
    first, second := [ip], ips;
    h := GrownInventory(ip, ips, p);
  }

  lemma GrownInventory(ip: string, ips: seq<string>, p: Params) returns (h: string)
    requires Free(p.prefix, '.') && p.masters >= 1 && p.scale >= 2
    requires IsPlain(ip, p.prefix) && AllPlain(ips, p.prefix) && Distinct([ip] + ips) && |ips| + 1 == p.scale
    ensures GrowsIntoConflict([ip], ips, h, p)
  {
    h := FirstHostRun(ip, p);
    GrowingRun(Run(None, [ip], p).value.config, ip, ips, h, p);
  }

  lemma GrowingRun(small: Config, ip: string, ips: seq<string>, h: string, p: Params)
    requires HasOneMaster(small, h, ip) && h == GeneratedName(p.prefix, 1) && Free(p.prefix, '.')
    requires IsPlain(ip, p.prefix) && AllPlain(ips, p.prefix) && Distinct([ip] + ips) && ips != [] && |ips| + 1 == p.scale
    ensures Run(Some(small), ips, p).Ok?
    ensures |Run(Some(small), ips, p).value.hosts| == p.scale && Conflicts(Run(Some(small), ips, p).value, h)
  {
    var table := SecondTable(ip, ips, p.prefix);
    GeneratedIsNoKey(p.prefix, 1);
    SecondRun(small, table, ips, h, p);
  }
}
