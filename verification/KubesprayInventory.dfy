/**
 The class KubesprayInventory of assignment4/kubespray/contrib/inventory_builder/inventory.py: the
 configuration is updated in place, method by method, and each method is proved against the
 functions of module Inventory.
 */
module KubesprayInventory {
  import opened Options
  import opened Decimal
  import opened Dicts
  import opened Text
  import opened Addresses
  import opened HostNames
  import opened Inventory

  /** range2ips */
  method Range2Ips(hosts: seq<string>) returns (r: Result<seq<string>>)
    ensures r == ExpandAll(hosts)
  {
    var reworkedHosts: seq<string> := [];
    PrependNone(ExpandAll(hosts));
    assert hosts[0..] == hosts;
    for i := 0 to |hosts|
      invariant ExpandAll(hosts) == Prepend(reworkedHosts, ExpandAll(hosts[i..]))
    {
      assert hosts[i..][1..] == hosts[i + 1..];
      ghost var before := reworkedHosts;
      if IsRange(hosts[i]) {
        var parts := SplitAll(Strip(hosts[i]), '-');
        if |parts| != 2 || ParseAddress(parts[0]).None? || ParseAddress(parts[1]).None? {
          return Err(BadRange);
        }
        var ips := Ips(ParseAddress(parts[0]).value, ParseAddress(parts[1]).value);
        reworkedHosts := reworkedHosts + ips;
      } else {
        reworkedHosts := reworkedHosts + [hosts[i]];
      }
      PrependMore(before, Expand(hosts[i]).value, ExpandAll(hosts[i + 1..]));
    }
    assert hosts[|hosts|..] == [] && reworkedHosts + [] == reworkedHosts;
    r := Ok(reworkedHosts);
  }

  function Prepend(done: seq<string>, rest: Result<seq<string>>): Result<seq<string>> {
    if rest.Ok? then Ok(done + rest.value) else rest
  }

  lemma PrependNone(rest: Result<seq<string>>)
    ensures Prepend([], rest) == rest
  {
    if rest.Ok? {
      assert [] + rest.value == rest.value;
    }
  }

  lemma PrependMore(done: seq<string>, more: seq<string>, rest: Result<seq<string>>)
    ensures Prepend(done + more, rest) == Prepend(done, Prepend(more, rest))
  {
    if rest.Ok? {
      assert done + more + rest.value == done + (more + rest.value);
    }
  }

  /** The list comprehension of the inner function `ips`. */
  method Ips(start: nat, end: nat) returns (ips: seq<string>)
    ensures ips == AddressRange(start, end)
  {
    ips := [];
    var ip := start;
    while ip <= end
      invariant AddressRange(start, end) == ips + AddressRange(ip, end)
      decreases end - ip
    {
      var text := AddressText(ip);
      ghost var rest := AddressRange(ip + 1, end);
      assert ips + ([text] + rest) == ips + [text] + rest;
      ips := ips + [text];
      ip := ip + 1;
    }
  }

  method FindIp(hosts: Hosts, ip: string) returns (r: Result<bool>)
    ensures r == ExistsIp(hosts, ip)
  {
    for i := 0 to |hosts|
      invariant ExistsIp(hosts, ip) == ExistsIp(hosts[i..], ip)
    {
      var hostOpts := hosts[i].1;
      if "ip" !in hostOpts {
        return Err(NoIp);
      }
      if ip == hostOpts["ip"] {
        return Ok(true);
      }
    }
    r := Ok(false);
  }

  method DeleteHostByIp(existingHosts: Hosts, ip: string) returns (hosts: Hosts)
    requires ExistsIp(existingHosts, ip) == Ok(true)
    ensures hosts == WithoutIp(existingHosts, ip)
  {
    for i := 0 to |existingHosts|
      invariant ExistsIp(existingHosts[i..], ip) == Ok(true)
      invariant WithoutIp(existingHosts, ip) == existingHosts[..i] + WithoutIp(existingHosts[i..], ip)
    {
      if existingHosts[i].1["ip"] == ip {
        return existingHosts[..i] + existingHosts[i + 1..];
      }
      assert existingHosts[..i + 1] == existingHosts[..i] + [existingHosts[i]];
    }
    assert false;
  }

  /** What the scan has found before host n. */
  ghost predicate Scanned(all: Hosts, n: nat, existingHosts: Hosts, highest: nat) {
    && n <= |all|
    && Carried(all) == existingHosts + Carried(all[n..])
    && HighestId(all, 0) == HighestId(all[n..], highest)
  }

  lemma ScanStarts(all: Hosts)
    ensures Scanned(all, 0, [], 0)
  {
    assert all[0..] == all && [] + Carried(all) == Carried(all);
  }

  lemma ScanUnfolds(all: Hosts, n: nat, highest: nat)
    requires n < |all|
    ensures HostId(all[n].0).None? ==> Carried(all[n..]) == [all[n]] && HighestId(all[n..], highest) == highest
    ensures HostId(all[n].0).Some? ==>
              var id := HostId(all[n].0).value;
              && Carried(all[n..]) == [all[n]] + Carried(all[n + 1..])
              && HighestId(all[n..], highest) == HighestId(all[n + 1..], if id > highest then id else highest)
  {
    assert all[n..][0] == all[n] && all[n..][1..] == all[n + 1..];
  }

  lemma OneFurther<T>(all: seq<T>, found: seq<T>, left: seq<T>, x: T, rest: seq<T>)
    requires all == found + left && left == [x] + rest
    ensures all == found + [x] + rest
  {
  }

  lemma ScanOne(all: Hosts, n: nat, existingHosts: Hosts, highest: nat)
    requires Scanned(all, n, existingHosts, highest) && n < |all|
    ensures HostId(all[n].0).None? ==> existingHosts + [all[n]] == Carried(all) && highest == HighestId(all, 0)
    ensures HostId(all[n].0).Some? ==>
              var id := HostId(all[n].0).value;
              Scanned(all, n + 1, existingHosts + [all[n]], if id > highest then id else highest)
  {
    ScanUnfolds(all, n, highest);
    if HostId(all[n].0).Some? {
      OneFurther(Carried(all), existingHosts, Carried(all[n..]), all[n], Carried(all[n + 1..]));
    }
  }

  lemma ScanEnds(all: Hosts, existingHosts: Hosts, highest: nat)
    requires Scanned(all, |all|, existingHosts, highest)
    ensures existingHosts == Carried(all) && highest == HighestId(all, 0)
  {
    assert all[|all|..] == [] && existingHosts + [] == existingHosts;
  }

  /** The scan of the existing hosts, which the error of get_host_id ends. */
  method ScanExisting(all: Hosts) returns (existingHosts: Hosts, highestHostId: nat)
    ensures existingHosts == Carried(all) && highestHostId == HighestId(all, 0)
  {
    existingHosts := [];
    highestHostId := 0;
    ScanStarts(all);
    for n := 0 to |all|
      invariant Scanned(all, n, existingHosts, highestHostId)
    {
      ScanOne(all, n, existingHosts, highestHostId);
      existingHosts := existingHosts + [all[n]];
      var hostId := HostId(all[n].0);
      if hostId.None? {
        return;
      }
      if hostId.value > highestHostId {
        highestHostId := hostId.value;
      }
    }
    ScanEnds(all, existingHosts, highestHostId);
  }

  /** The body of the loop over the specs. */
  method ApplySpec(st: Build, host: string, prefix: string) returns (r: Result<Build>)
    ensures r == Step(st, host, prefix)
  {
    if host == "" {
      return Err(EmptySpec);
    }
    if host[0] == '-' {
      var realhost := host[1..];
      if realhost in Keys(st.hosts) {
        return Ok(st.(hosts := Remove(st.hosts, realhost)));
      }
      var exists_ := FindIp(st.hosts, realhost);
      if exists_.Err? {
        return Err(exists_.error);
      }
      if exists_.value {
        var hosts := DeleteHostByIp(st.hosts, realhost);
        return Ok(st.(hosts := hosts));
      }
      return Ok(st);
    }
    if IsDigit(host[0]) {
      var fields := SplitAll(host, ',');
      if |fields| > 2 {
        return Err(FieldCount);
      }
      var ip, accessIp := fields[0], fields[|fields| - 1];
      var now := st.(ip := Some(ip), accessIp := Some(accessIp));
      if host in Keys(st.hosts) {
        return Ok(now);
      }
      var exists_ := FindIp(st.hosts, ip);
      if exists_.Err? {
        return Err(exists_.error);
      }
      if exists_.value {
        return Ok(now);
      }
      var nextHost := GeneratedName(prefix, st.nextId);
      return Ok(now.(hosts := Put(st.hosts, nextHost, OptsOf(accessIp, ip)), nextId := st.nextId + 1));
    }
    if IsLetter(host[0]) {
      var fields := SplitAll(host, ',');
      var now := st;
      if |fields| > 3 {
        return Err(FieldCount);
      } else if |fields| > 1 {
        now := st.(hostname := Some(fields[0]), ip := Some(fields[1]), accessIp := Some(fields[|fields| - 1]));
      }
      if host in Keys(st.hosts) {
        return Ok(now);
      }
      if now.ip.None? {
        return Err(Unbound);
      }
      var exists_ := FindIp(st.hosts, now.ip.value);
      if exists_.Err? {
        return Err(exists_.error);
      }
      if exists_.value {
        return Ok(now);
      }
      if now.hostname.None? || now.accessIp.None? {
        return Err(Unbound);
      }
      return Ok(now.(hosts := Put(st.hosts, now.hostname.value, OptsOf(now.accessIp.value, now.ip.value))));
    }
    r := Ok(st);
  }

  /** The copy of a role's names without those the purge removes. */
  method RemoveInvalid(names: seq<string>, hostnames: seq<string>) returns (kept: seq<string>)
    ensures kept == KeepNames(names, hostnames)
  {
    kept := [];
    for i := 0 to |names|
      invariant kept == KeepNames(names[..i], hostnames)
    {
      assert names[..i + 1][..i] == names[..i];
      if Kept(names[i], hostnames) {
        kept := kept + [names[i]];
      }
    }
    assert names[..|names|] == names;
  }

  // Adding hosts to a group can be done in two goes.
  lemma AddedInTwo(cfg: Config, group: string, a: seq<string>, b: seq<string>)
    requires group in cfg.children
    ensures AddToGroup(AddToGroup(cfg, group, a), group, b) == AddToGroup(cfg, group, a + b)
  {
    AppendConcat(NamesOf(cfg.children[group].hosts), a, b);
    assert [] + b == b && a + [] == a;
  }

  class KubesprayInventory {
    /** yaml_config['all']['hosts']; None is an empty YAML value. */
    var allHosts: Option<Hosts>
    /** yaml_config['all']['children'] */
    var children: map<string, Group>
    /** HOST_PREFIX, KUBE_MASTERS, SCALE_THRESHOLD and MASSIVE_SCALE_THRESHOLD */
    const params: Params

    function Current(): Config
      reads this
    {
      Config(allHosts, children)
    }

    /** Starts from an in-memory configuration; without an `all` group there is a new, empty one. */
    constructor (yamlConfig: Option<Config>, params: Params)
      ensures this.params == params
      ensures Current() == if yamlConfig.Some? then yamlConfig.value else Config(Some([]), map[])
    {
      this.params := params;
      allHosts := if yamlConfig.Some? then yamlConfig.value.hosts else Some([]);
      children := if yamlConfig.Some? then yamlConfig.value.children else map[];
    }

    method EnsureRequiredGroups(groups: seq<string>)
      modifies this`children
      ensures children == WithGroups(old(children), groups)
    {
      for i := 0 to |groups|
        invariant WithGroups(old(children), groups) == WithGroups(children, groups[i..])
      {
        assert groups[i..][1..] == groups[i + 1..];
        if groups[i] != "all" && groups[i] !in children {
          children := children[groups[i] := Group(Names([]), {})];
        }
      }
      assert groups[|groups|..] == [];
    }

    method BuildHosts(changedHosts: seq<string>) returns (r: Result<Hosts>)
      ensures r == BuildHostnames(HostsOf(Current()), changedHosts, params.prefix)
    {
      var existingHosts, highestHostId := ScanExisting(HostsOf(Current()));
      var start := Build(existingHosts, highestHostId + 1, None, None, None);
      var st := start;
      for i := 0 to |changedHosts|
        invariant Steps(start, changedHosts, params.prefix) == Steps(st, changedHosts[i..], params.prefix)
      {
        assert changedHosts[i..][1..] == changedHosts[i + 1..];
        var next := ApplySpec(st, changedHosts[i], params.prefix);
        if next.Err? {
          return Err(next.error);
        }
        st := next.value;
      }
      assert changedHosts[|changedHosts|..] == [];
      r := Ok(st.hosts);
    }

    method PurgeInvalidHosts(hostnames: seq<string>) returns (ok: bool)
      modifies this
      ensures ok <==> CanPurge(old(Current()))
      ensures ok ==> Current() == Purged(old(Current()), hostnames)
    {
      var todo := children.Keys;
      while todo != {}
        invariant todo <= old(children).Keys == children.Keys
        invariant allHosts == old(allHosts)
        invariant forall role :: role in old(children) && role !in todo && role != CLUSTER ==>
                    !old(children)[role].hosts.Absent?
        invariant forall role :: role in children ==>
                    children[role] == if role in todo || role == CLUSTER then old(children)[role]
                                      else PurgedGroup(old(children)[role], hostnames)
        decreases |todo|
      {
        var role :| role in todo;
        if role != CLUSTER {
          var group := children[role];
          if group.hosts.Absent? {
            return false;
          }
          if group.hosts.Names? {
            var names := RemoveInvalid(group.hosts.names, hostnames);
            children := children[role := group.(hosts := Names(names))];
          }
        }
        todo := todo - {role};
      }
      if allHosts.Some? {
        var hosts := allHosts.value;
        var kept: Hosts := [];
        for i := 0 to |hosts|
          invariant kept == KeepHosts(hosts[..i], hostnames)
        {
          assert hosts[..i + 1][..i] == hosts[..i];
          if Kept(hosts[i].0, hostnames) {
            kept := kept + [hosts[i]];
          }
        }
        assert hosts[..|hosts|] == hosts;
        allHosts := Some(kept);
      }
      ok := true;
    }

    /** add_host_to_group for a group other than `all`. */
    method AddHostToGroup(group: string, host: string)
      requires group in children && !children[group].hosts.Absent?
      modifies this`children
      ensures Current() == AddToGroup(old(Current()), group, [host])
    {
      var record := children[group];
      ghost var names := NamesOf(record.hosts);
      if record.hosts.Null? {
        children := children[group := record.(hosts := Names([host]))];
      } else if host !in record.hosts.names {
        children := children[group := record.(hosts := Names(record.hosts.names + [host]))];
      }
      assert [host][1..] == [];
      assert Append(names, [host]) == if host in names then names else names + [host];
      assert [] + [host] == [host];
      assert children[group] == record.(hosts := Names(Append(names, [host])));
      assert children == old(children)[group := children[group]];
    }

    method AddHosts(group: string, hosts: seq<string>)
      requires group in children && !children[group].hosts.Absent?
      modifies this`children
      ensures Current() == AddToGroup(old(Current()), group, hosts)
    {
      for i := 0 to |hosts|
        invariant group in children && !children[group].hosts.Absent?
        invariant allHosts == old(allHosts)
        invariant AddToGroup(old(Current()), group, hosts) == AddToGroup(Current(), group, hosts[i..])
      {
        AddedInTwo(Current(), group, [hosts[i]], hosts[i + 1..]);
        assert hosts[i..] == [hosts[i]] + hosts[i + 1..];
        AddHostToGroup(group, hosts[i]);
      }
      assert hosts[|hosts|..] == [];
    }

    method SetAll(hosts: Hosts)
      modifies this`allHosts
      ensures Current() == WithAll(old(Current()), hosts)
    {
      for i := 0 to |hosts|
        invariant children == old(children)
        invariant WithAll(old(Current()), hosts) == WithAll(Current(), hosts[i..])
      {
        assert hosts[i..][1..] == hosts[i + 1..];
        assert WithAll(Current(), hosts[i..]).hosts ==
               Some(PutAll(Put(HostsOf(Current()), hosts[i].0, hosts[i].1), hosts[i + 1..]));
        allHosts := Some(Put(HostsOf(Current()), hosts[i].0, hosts[i].1));
      }
    }

    method SetK8sCluster()
      modifies this`children
      ensures Current() == WithCluster(old(Current()))
    {
      children := children[CLUSTER := Group(Absent, {"children"})];
    }

    method SetKubeNode(hosts: seq<string>) returns (r: Result<seq<string>>)
      requires HasRoles(Current()) && !children["kube-node"].hosts.Absent?
      modifies this`children
      ensures r == NodeHosts(old(Current()), hosts, params)
      ensures r.Ok? ==> Current() == AddToGroup(old(Current()), "kube-node", r.value)
    {
      ghost var start := Current();
      var added: seq<string> := [];
      PrependNone(NodeHosts(start, hosts, params));
      for i := 0 to |hosts|
        invariant HasRoles(Current()) && allHosts == old(allHosts)
        invariant Current() == AddToGroup(start, "kube-node", added)
        invariant NodeHosts(start, hosts, params) == Prepend(added, NodeHosts(start, hosts[i..], params))
      {
        assert hosts[i..][1..] == hosts[i + 1..];
        if |HostsOf(Current())| >= params.scale {
          if !children["etcd"].hosts.Names? {
            return Err(NullHosts);
          }
          if hosts[i] in children["etcd"].hosts.names {
            continue;
          }
        }
        if |HostsOf(Current())| >= params.massive {
          if !children["kube-master"].hosts.Names? {
            return Err(NullHosts);
          }
          if hosts[i] in children["kube-master"].hosts.names {
            continue;
          }
        }
        AddedInTwo(start, "kube-node", added, [hosts[i]]);
        PrependMore(added, [hosts[i]], NodeHosts(start, hosts[i + 1..], params));
        AddHostToGroup("kube-node", hosts[i]);
        added := added + [hosts[i]];
      }
      assert hosts[|hosts|..] == [] && added + [] == added;
      r := Ok(added);
    }

    method SetCalicoRr(hosts: seq<string>)
      requires HasRoles(Current()) && !children["calico-rr"].hosts.Absent?
      modifies this`children
      ensures Current() == AddToGroup(old(Current()), "calico-rr", CalicoHosts(old(Current()), hosts))
    {
      ghost var start := Current();
      ghost var added: seq<string> := [];
      for i := 0 to |hosts|
        invariant HasRoles(Current()) && allHosts == old(allHosts)
        invariant Current() == AddToGroup(start, "calico-rr", added)
        invariant CalicoHosts(start, hosts) == added + CalicoHosts(start, hosts[i..])
      {
        assert hosts[i..][1..] == hosts[i + 1..];
        if hosts[i] in RecordKeys(children["kube-master"]) {
          continue;
        }
        if hosts[i] in RecordKeys(children["kube-node"]) {
          continue;
        }
        AddedInTwo(start, "calico-rr", added, [hosts[i]]);
        AddHostToGroup("calico-rr", hosts[i]);
        added := added + [hosts[i]];
      }
      assert hosts[|hosts|..] == [] && added + [] == added;
    }

    /** __init__ from line 94 on; `hosts` is self.hosts afterwards. An error means nothing is written. */
    method Run(changedHosts: seq<string>) returns (r: Result<Hosts>)
      modifies this
      ensures r.Ok? <==> Inventory.Run(Some(old(Current())), changedHosts, params).Ok?
      ensures r.Ok? ==> Inventory.Run(Some(old(Current())), changedHosts, params) == Ok(Outcome(Current(), r.value))
      ensures r.Err? ==> Inventory.Run(Some(old(Current())), changedHosts, params) == Err(r.error)
    {
      EnsuredHasRoles(Some(Current()));
      EnsureRequiredGroups(ROLES);
      if changedHosts == [] {
        return Err(ShowHelp);
      }
      var specs := Range2Ips(changedHosts);
      if specs.Err? {
        return Err(specs.error);
      }
      var built := BuildHosts(specs.value);
      if built.Err? {
        return Err(built.error);
      }
      var ok := Assign(built.value);
      r := if ok.Ok? then built else Err(ok.error);
    }

    /** Lines 99-111. */
    method Assign(hosts: Hosts) returns (ok: Result<seq<string>>)
      requires HasRoles(Current())
      modifies this
      ensures ok.Ok? <==> Assigned(old(Current()), hosts, params).Ok?
      ensures ok.Ok? ==> Assigned(old(Current()), hosts, params) == Ok(Current())
      ensures ok.Err? ==> Assigned(old(Current()), hosts, params) == Err(ok.error)
    {
      var names := Keys(hosts);
      var purged := PurgeInvalidHosts(names);
      if !purged {
        return Err(NoHostsKey);
      }
      SetAll(hosts);
      SetK8sCluster();
      AddHosts("etcd", Slice(names, 0, EtcdCount(names)));
      AddHosts("kube-master", MasterHosts(names, params));
      ok := SetKubeNode(names);
      if ok.Ok? && |hosts| >= params.scale {
        SetCalicoRr(Slice(names, 0, EtcdCount(names)));
      }
    }
  }
}
