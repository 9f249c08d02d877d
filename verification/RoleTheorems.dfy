/**
 What the role assignment of one run guarantees: no stale host in any group, the exact roles of a
 fresh build, and that assigning roles twice changes nothing.
 */
module RoleTheorems {
  import opened Options
  import opened Dicts
  import opened Inventory
  import opened BuildTheorems

  // -------------------------------------------------------------------------------------------
  // The shape of the result
  // -------------------------------------------------------------------------------------------

  /** What the run adds to a group. */
  function RoleAdds(role: string, names: seq<string>, p: Params, nodes: seq<string>, calico: seq<string>): seq<string> {
    if role == "etcd" then Slice(names, 0, EtcdCount(names))
    else if role == "kube-master" then MasterHosts(names, p)
    else if role == "kube-node" then nodes
    else if role == "calico-rr" then calico
    else []
  }

  function WithNames(g: Group, more: seq<string>): Group {
    g.(hosts := AppendField(g.hosts, more))
  }

  /** The configuration `after` in terms of the one before, group by group. */
  ghost predicate IsAssigned(before: Config, hosts: Hosts, p: Params, after: Config, nodes: seq<string>, calico: seq<string>) {
    var names := Keys(hosts);
    && CanPurge(before)
    && HasRoles(after)
    && after.hosts == WithAll(Purged(before, names), hosts).hosts
    && after.children.Keys == before.children.Keys + {CLUSTER}
    && after.children[CLUSTER] == Group(Absent, {"children"})
    && (forall role :: role in before.children && role != CLUSTER ==>
          after.children[role] ==
          WithNames(PurgedGroup(before.children[role], names), RoleAdds(role, names, p, nodes, calico)))
    && NodeHosts(after, names, p) == Ok(nodes)
    && calico == (if |hosts| >= p.scale then CalicoHosts(after, Slice(names, 0, EtcdCount(names))) else [])
  }

  // Which nodes are added depends on the size of the inventory and on two groups.
  lemma {:induction false} NodeHostsDependsOn(a: Config, b: Config, hosts: seq<string>, p: Params)
    requires HasRoles(a) && HasRoles(b) && |HostsOf(a)| == |HostsOf(b)|
    requires a.children["etcd"].hosts == b.children["etcd"].hosts
    requires a.children["kube-master"].hosts == b.children["kube-master"].hosts
    ensures NodeHosts(a, hosts, p) == NodeHosts(b, hosts, p)
  {
    if hosts != [] {
      NodeHostsDependsOn(a, b, hosts[1..], p);
    }
  }

  lemma {:induction false} CalicoHostsDependsOn(a: Config, b: Config, hosts: seq<string>)
    requires HasRoles(a) && HasRoles(b)
    requires RecordKeys(a.children["kube-master"]) == RecordKeys(b.children["kube-master"])
    requires RecordKeys(a.children["kube-node"]) == RecordKeys(b.children["kube-node"])
    ensures CalicoHosts(a, hosts) == CalicoHosts(b, hosts)
  {
    if hosts != [] {
      CalicoHostsDependsOn(a, b, hosts[1..]);
    }
  }

  lemma AssignedShape(before: Config, hosts: Hosts, p: Params) returns (nodes: seq<string>, calico: seq<string>)
    requires HasRoles(before) && Assigned(before, hosts, p).Ok?
    ensures IsAssigned(before, hosts, p, Assigned(before, hosts, p).value, nodes, calico)
  {
    var names := Keys(hosts);
    var c1 := WithCluster(WithAll(Purged(before, names), hosts));
    var c2 := AddToGroup(c1, "etcd", Slice(names, 0, EtcdCount(names)));
    var c3 := AddToGroup(c2, "kube-master", MasterHosts(names, p));
    nodes := NodeHosts(c3, names, p).value;
    var c4 := AddToGroup(c3, "kube-node", nodes);
    calico := if |hosts| >= p.scale then CalicoHosts(c4, Slice(names, 0, EtcdCount(names))) else [];
    var after := AddToGroup(c4, "calico-rr", calico);
    assert after == Assigned(before, hosts, p).value by {
      if |hosts| < p.scale {
        assert c4.children["calico-rr" := c4.children["calico-rr"]] == c4.children;
      }
    }
    NodeHostsDependsOn(c3, after, names, p);
    CalicoHostsDependsOn(c4, after, Slice(names, 0, EtcdCount(names)));
    GroupsAfter(before, names, c1, c2, c3, c4, after, p, nodes, calico);
  }

  lemma GroupsAfter(before: Config, names: seq<string>, c1: Config, c2: Config, c3: Config, c4: Config, after: Config,
                    p: Params, nodes: seq<string>, calico: seq<string>)
    requires HasRoles(before) && HasRoles(c1) && HasRoles(c2) && HasRoles(c3) && HasRoles(c4)
    requires c1.children == Purged(before, names).children[CLUSTER := Group(Absent, {"children"})]
    requires c2 == AddToGroup(c1, "etcd", Slice(names, 0, EtcdCount(names)))
    requires c3 == AddToGroup(c2, "kube-master", MasterHosts(names, p))
    requires c4 == AddToGroup(c3, "kube-node", nodes) && after == AddToGroup(c4, "calico-rr", calico)
    ensures after.children.Keys == before.children.Keys + {CLUSTER}
    ensures after.children[CLUSTER] == Group(Absent, {"children"})
    ensures forall role :: role in before.children && role != CLUSTER ==>
              after.children[role] ==
              WithNames(PurgedGroup(before.children[role], names), RoleAdds(role, names, p, nodes, calico))
  {
  }

  lemma {:induction false} NodeHostsMembers(cfg: Config, hosts: seq<string>, p: Params, h: string)
    requires HasRoles(cfg) && NodeHosts(cfg, hosts, p).Ok?
    ensures h in NodeHosts(cfg, hosts, p).value <==>
            && h in hosts
            && !(SkipsEtcd(cfg, p) && h in NamesOf(cfg.children["etcd"].hosts))
            && !(SkipsMaster(cfg, p) && h in NamesOf(cfg.children["kube-master"].hosts))
  {
    if hosts != [] {
      NodeHostsMembers(cfg, hosts[1..], p, h);
      assert hosts == [hosts[0]] + hosts[1..];
    }
  }

  lemma {:induction false} CalicoHostsMembers(cfg: Config, hosts: seq<string>, h: string)
    requires HasRoles(cfg)
    ensures h in CalicoHosts(cfg, hosts) <==>
            && h in hosts
            && h !in RecordKeys(cfg.children["kube-master"]) && h !in RecordKeys(cfg.children["kube-node"])
  {
    if hosts != [] {
      CalicoHostsMembers(cfg, hosts[1..], h);
      assert hosts == [hosts[0]] + hosts[1..];
    }
  }

  lemma {:induction false} KeepNamesMembers(names: seq<string>, hostnames: seq<string>, h: string)
    ensures h in KeepNames(names, hostnames) <==> h in names && Kept(h, hostnames)
  {
    if names != [] {
      var n := |names| - 1;
      KeepNamesMembers(names[..n], hostnames, h);
      assert names == names[..n] + [names[n]];
    }
  }

  lemma {:induction false} KeepHostsMembers(hosts: Hosts, hostnames: seq<string>, h: string)
    ensures h in Keys(KeepHosts(hosts, hostnames)) <==> h in Keys(hosts) && Kept(h, hostnames)
  {
    if hosts != [] {
      var n := |hosts| - 1;
      KeepHostsMembers(hosts[..n], hostnames, h);
      assert hosts == hosts[..n] + [hosts[n]];
      KeysOfConcat(hosts[..n], [hosts[n]]);
      KeysOfConcat(KeepHosts(hosts[..n], hostnames), if Kept(hosts[n].0, hostnames) then [hosts[n]] else []);
    }
  }

  lemma RoleAddsAreHosts(role: string, names: seq<string>, p: Params, after: Config, nodes: seq<string>, calico: seq<string>)
    requires HasRoles(after) && NodeHosts(after, names, p) == Ok(nodes)
    requires calico == CalicoHosts(after, Slice(names, 0, EtcdCount(names))) || calico == []
    ensures forall h :: h in RoleAdds(role, names, p, nodes, calico) ==> h in names
  {
    forall h | h in RoleAdds(role, names, p, nodes, calico)
      ensures h in names
    {
      NodeHostsMembers(after, names, p, h);
      CalicoHostsMembers(after, Slice(names, 0, EtcdCount(names)), h);
    }
  }

  // -------------------------------------------------------------------------------------------
  // No stale hosts
  // -------------------------------------------------------------------------------------------

  /** What the purge leaves in a group: the hosts of the run, and names of groups. */
  lemma KeptExactly(name: string, hostnames: seq<string>)
    ensures Kept(name, hostnames) <==>
            || name in hostnames
            || name == "all" || name == "kube-master" || name == "kube-node"
            || name == "etcd" || name == "k8s-cluster" || name == "calico-rr"
  {
  }

  /** Without a configuration there are exactly the five role groups, all empty; else only missing ones are new. */
  lemma RequiredGroups(cfg: Config)
    ensures var empty := Group(Names([]), {});
            Ensured(None) == Config(Some([]), map["kube-master" := empty, "kube-node" := empty, "etcd" := empty,
                                                  "k8s-cluster" := empty, "calico-rr" := empty])
    ensures Ensured(Some(cfg)).hosts == cfg.hosts
    ensures forall g :: g in cfg.children ==> g in Ensured(Some(cfg)).children && Ensured(Some(cfg)).children[g] == cfg.children[g]
    ensures forall g :: g in Ensured(Some(cfg)).children && g !in cfg.children ==>
              g in {"kube-master", "kube-node", "etcd", "k8s-cluster", "calico-rr"} &&
              Ensured(Some(cfg)).children[g] == Group(Names([]), {})
  {
    EnsuredHasRoles(None);
    WithGroupsHas(map[], ROLES);
    WithGroupsHas(cfg.children, ROLES);
    AllIsNoGroup(map[], ROLES);
    AllIsNoGroup(cfg.children, ROLES);
  }

  lemma {:induction false} AllIsNoGroup(children: map<string, Group>, groups: seq<string>)
    ensures "all" in WithGroups(children, groups) <==> "all" in children
    decreases |groups|
  {
    if groups != [] {
      var next := if groups[0] == "all" || groups[0] in children then children
                  else children[groups[0] := Group(Names([]), {})];
      AllIsNoGroup(next, groups[1..]);
    }
  }

  lemma GroupNames(before: Config, hosts: Hosts, p: Params, after: Config, nodes: seq<string>, calico: seq<string>,
                   role: string, h: string)
    requires IsAssigned(before, hosts, p, after, nodes, calico)
    requires role in after.children && h in NamesOf(after.children[role].hosts)
    ensures Kept(h, Keys(hosts))
  {
    if role != CLUSTER {
      var purged := PurgedGroup(before.children[role], Keys(hosts));
      var adds := RoleAdds(role, Keys(hosts), p, nodes, calico);
      RoleAddsAreHosts(role, Keys(hosts), p, after, nodes, calico);
      AppendMembers(NamesOf(purged.hosts), adds, h);
      KeepNamesMembers(NamesOf(before.children[role].hosts), Keys(hosts), h);
    }
  }

  lemma AllHostsNames(before: Config, hosts: Hosts, p: Params, after: Config, nodes: seq<string>, calico: seq<string>, h: string)
    requires IsAssigned(before, hosts, p, after, nodes, calico)
    ensures h in Keys(hosts) ==> h in Keys(HostsOf(after))
    ensures h in Keys(HostsOf(after)) ==> Kept(h, Keys(hosts))
  {
    var purged := KeepHosts(HostsOf(before), Keys(hosts));
    PutAllKeepsKeys(purged, hosts, h);
    KeepHostsMembers(HostsOf(before), Keys(hosts), h);
  }

  /** Every name in a group is one of all.hosts, or protected from the purge. */
  ghost predicate NothingStale(cfg: Config) {
    forall role, h :: role in cfg.children && h in NamesOf(cfg.children[role].hosts) ==>
      h in Keys(HostsOf(cfg)) || IsProtected(h)
  }

  lemma AssignedIsNotStale(before: Config, hosts: Hosts, p: Params, after: Config, nodes: seq<string>, calico: seq<string>)
    requires IsAssigned(before, hosts, p, after, nodes, calico)
    ensures NothingStale(after)
    ensures forall h :: h in Keys(hosts) ==> h in Keys(HostsOf(after))
    ensures forall h :: h in Keys(HostsOf(after)) ==> Kept(h, Keys(hosts))
  {
    forall role, h | role in after.children && h in NamesOf(after.children[role].hosts)
      ensures h in Keys(HostsOf(after)) || IsProtected(h)
    {
      GroupNames(before, hosts, p, after, nodes, calico, role, h);
      AllHostsNames(before, hosts, p, after, nodes, calico, h);
    }
    forall h: string
      ensures h in Keys(hosts) ==> h in Keys(HostsOf(after))
      ensures h in Keys(HostsOf(after)) ==> Kept(h, Keys(hosts))
    {
      AllHostsNames(before, hosts, p, after, nodes, calico, h);
    }
  }

  /** The two halves of a run: the host table, then the roles. */
  lemma RunIsAssigned(cfg: Option<Config>, changedHosts: seq<string>, p: Params)
    requires Run(cfg, changedHosts, p).Ok?
    ensures changedHosts != [] && ExpandAll(changedHosts).Ok?
    ensures BuildHostnames(HostsOf(Ensured(cfg)), ExpandAll(changedHosts).value, p.prefix) ==
            Ok(Run(cfg, changedHosts, p).value.hosts)
    ensures HasRoles(Ensured(cfg)) && Assigned(Ensured(cfg), Run(cfg, changedHosts, p).value.hosts, p) ==
            Ok(Run(cfg, changedHosts, p).value.config)
  {
    EnsuredHasRoles(cfg);
  }

  lemma {:induction false} KeepHostsDistinct(hosts: Hosts, hostnames: seq<string>)
    requires Distinct(Keys(hosts))
    ensures Distinct(Keys(KeepHosts(hosts, hostnames)))
  {
    if hosts != [] {
      var n := |hosts| - 1;
      var kept := KeepHosts(hosts[..n], hostnames);
      assert hosts == hosts[..n] + [hosts[n]];
      KeysOfConcat(hosts[..n], [hosts[n]]);
      assert Keys([hosts[n]]) == [hosts[n].0];
      DistinctConcat(Keys(hosts[..n]), [hosts[n].0]);
      KeepHostsDistinct(hosts[..n], hostnames);
      KeepHostsMembers(hosts[..n], hostnames, hosts[n].0);
      KeysOfConcat(kept, [hosts[n]]);
      DistinctConcat(Keys(kept), [hosts[n].0]);
      assert kept + [] == kept;
      assert KeepHosts(hosts, hostnames) == if Kept(hosts[n].0, hostnames) then kept + [hosts[n]] else kept;
    }
  }

  lemma {:induction false} PartIsNoLonger(part: seq<string>, whole: seq<string>)
    requires Distinct(part) && forall h :: h in part ==> h in whole
    ensures |part| <= |whole|
  {
    if part != [] {
      var n := |part| - 1;
      assert part[n] in part;
      var i :| 0 <= i < |whole| && whole[i] == part[n];
      var rest := whole[..i] + whole[i + 1..];
      forall h | h in part[..n]
        ensures h in rest
      {
        assert h in part && h != part[n];
        var k :| 0 <= k < |whole| && whole[k] == h;
        assert rest[if k < i then k else k - 1] == h;
      }
      PartIsNoLonger(part[..n], rest);
    }
  }

  // all.hosts has at least the hosts of the table, and has as many if it has no others.
  lemma CountsOfHosts(before: Config, hosts: Hosts, p: Params)
    requires HasRoles(before) && Assigned(before, hosts, p).Ok? && Distinct(Keys(hosts))
    ensures var all := HostsOf(Assigned(before, hosts, p).value);
            && |all| >= |hosts|
            && (Distinct(Keys(HostsOf(before))) ==> Distinct(Keys(all)))
            && (Distinct(Keys(all)) && (forall h :: h in Keys(all) ==> h in Keys(hosts)) ==> |all| == |hosts|)
  {
    var nodes, calico := AssignedShape(before, hosts, p);
    var after := Assigned(before, hosts, p).value;
    var all := HostsOf(after);
    AssignedIsNotStale(before, hosts, p, after, nodes, calico);
    PartIsNoLonger(Keys(hosts), Keys(all));
    if Distinct(Keys(HostsOf(before))) {
      KeepHostsDistinct(HostsOf(before), Keys(hosts));
      PutAllDistinct(KeepHosts(HostsOf(before), Keys(hosts)), hosts);
    }
    if Distinct(Keys(all)) && forall h :: h in Keys(all) ==> h in Keys(hosts) {
      PartIsNoLonger(Keys(all), Keys(hosts));
    }
  }

  /**
   After every run, from any configuration, every name in any group is one of all.hosts or a
   protected group name; and if all.hosts has no protected name, its names are exactly those of the
   run's host table, and as many, so the threshold tests on the one and on the other agree.
   */
  lemma NoStaleHosts(cfg: Option<Config>, changedHosts: seq<string>, p: Params)
    requires Run(cfg, changedHosts, p).Ok?
    ensures var out := Run(cfg, changedHosts, p).value;
            && NothingStale(out.config)
            && ((forall h :: h in Keys(HostsOf(out.config)) ==> !IsProtected(h)) ==>
                  && (forall h :: h in Keys(HostsOf(out.config)) <==> h in Keys(out.hosts))
                  && (Distinct(Keys(HostsOf(Ensured(cfg)))) ==>
                        && |HostsOf(out.config)| == |out.hosts|
                        && (SkipsEtcd(out.config, p) <==> |out.hosts| >= p.scale)))
  {
    var out := Run(cfg, changedHosts, p).value;
    RunIsAssigned(cfg, changedHosts, p);
    var nodes, calico := AssignedShape(Ensured(cfg), out.hosts, p);
    AssignedIsNotStale(Ensured(cfg), out.hosts, p, out.config, nodes, calico);
    if Distinct(Keys(HostsOf(Ensured(cfg)))) {
      BatchKeepsNames(HostsOf(Ensured(cfg)), ExpandAll(changedHosts).value, p.prefix);
      CountsOfHosts(Ensured(cfg), out.hosts, p);
    }
  }

  // -------------------------------------------------------------------------------------------
  // Assigning roles twice
  // -------------------------------------------------------------------------------------------

  lemma {:induction false} AppendPresent(names: seq<string>, more: seq<string>)
    requires forall h :: h in more ==> h in names
    ensures Append(names, more) == names
    decreases |more|
  {
    if more != [] {
      AppendPresent(names, more[1..]);
    }
  }

  lemma AddPresent(cfg: Config, group: string, more: seq<string>)
    requires group in cfg.children
    requires more != [] ==> cfg.children[group].hosts.Names?
    requires forall h :: h in more ==> h in NamesOf(cfg.children[group].hosts)
    ensures AddToGroup(cfg, group, more) == cfg
  {
    AppendPresent(NamesOf(cfg.children[group].hosts), more);
    assert cfg.children[group := cfg.children[group]] == cfg.children;
  }

  lemma {:induction false} KeepAllNames(names: seq<string>, hostnames: seq<string>)
    requires forall h :: h in names ==> Kept(h, hostnames)
    ensures KeepNames(names, hostnames) == names
  {
    if names != [] {
      var n := |names| - 1;
      KeepAllNames(names[..n], hostnames);
      assert names == names[..n] + [names[n]];
    }
  }

  lemma {:induction false} KeepAllHosts(hosts: Hosts, hostnames: seq<string>)
    requires forall h :: h in Keys(hosts) ==> Kept(h, hostnames)
    ensures KeepHosts(hosts, hostnames) == hosts
  {
    if hosts != [] {
      var n := |hosts| - 1;
      assert hosts == hosts[..n] + [hosts[n]];
      KeysOfConcat(hosts[..n], [hosts[n]]);
      assert Keys([hosts[n]])[0] == hosts[n].0;
      KeepAllHosts(hosts[..n], hostnames);
    }
  }

  lemma {:induction false} GetAfterPutAll<V>(m: Dict<V>, entries: Dict<V>, i: nat)
    requires Distinct(Keys(entries)) && i < |entries|
    ensures Get(PutAll(m, entries), entries[i].0) == Some(entries[i].1)
    decreases |entries|
  {
    var n := |entries| - 1;
    var (k, v) := entries[n];
    assert entries == entries[..n] + [(k, v)];
    PutAllLast(m, entries[..n], k, v);
    PutGet(PutAll(m, entries[..n]), k, v, entries[i].0);
    KeysOfConcat(entries[..n], [(k, v)]);
    DistinctConcat(Keys(entries[..n]), Keys([(k, v)]));
    if i < n {
      assert Keys(entries)[i] != Keys(entries)[n];
      GetAfterPutAll(m, entries[..n], i);
    }
  }

  lemma {:induction false} PutAllPresent<V>(m: Dict<V>, entries: Dict<V>)
    requires forall i :: 0 <= i < |entries| ==> Get(m, entries[i].0) == Some(entries[i].1)
    ensures PutAll(m, entries) == m
    decreases |entries|
  {
    if entries != [] {
      PutSame(m, entries[0].0, entries[0].1);
      PutAllPresent(m, entries[1..]);
    }
  }

  // The purge and the host table: done once, they have nothing left to do.
  lemma HostsSettled(before: Config, hosts: Hosts, p: Params, after: Config, nodes: seq<string>, calico: seq<string>)
    requires IsAssigned(before, hosts, p, after, nodes, calico) && Distinct(Keys(hosts))
    ensures WithAll(Purged(after, Keys(hosts)), hosts).hosts == after.hosts
    ensures Purged(after, Keys(hosts)).hosts == after.hosts
  {
    forall h | h in Keys(HostsOf(after))
      ensures Kept(h, Keys(hosts))
    {
      AllHostsNames(before, hosts, p, after, nodes, calico, h);
    }
    KeepAllHosts(HostsOf(after), Keys(hosts));
    if hosts != [] {
      forall i | 0 <= i < |hosts|
        ensures Get(HostsOf(after), hosts[i].0) == Some(hosts[i].1)
      {
        GetAfterPutAll(HostsOf(Purged(before, Keys(hosts))), hosts, i);
      }
      PutAllPresent(HostsOf(after), hosts);
    }
  }

  lemma GroupsSettled(before: Config, hosts: Hosts, p: Params, after: Config, nodes: seq<string>, calico: seq<string>)
    requires IsAssigned(before, hosts, p, after, nodes, calico)
    ensures CanPurge(after) && Purged(after, Keys(hosts)).children == after.children
    ensures after.children[CLUSTER := Group(Absent, {"children"})] == after.children
  {
    forall role | role in after.children && role != CLUSTER
      ensures !after.children[role].hosts.Absent?
      ensures PurgedGroup(after.children[role], Keys(hosts)) == after.children[role]
    {
      assert after.children[role] == WithNames(PurgedGroup(before.children[role], Keys(hosts)),
                                               RoleAdds(role, Keys(hosts), p, nodes, calico));
      forall h | h in NamesOf(after.children[role].hosts)
        ensures Kept(h, Keys(hosts))
      {
        GroupNames(before, hosts, p, after, nodes, calico, role, h);
      }
      KeepAllNames(NamesOf(after.children[role].hosts), Keys(hosts));
    }
  }

  lemma AddsPresent(before: Config, hosts: Hosts, p: Params, after: Config, nodes: seq<string>, calico: seq<string>, role: string)
    requires IsAssigned(before, hosts, p, after, nodes, calico)
    requires role in before.children && role != CLUSTER
    ensures AddToGroup(after, role, RoleAdds(role, Keys(hosts), p, nodes, calico)) == after
  {
    var adds := RoleAdds(role, Keys(hosts), p, nodes, calico);
    var purged := PurgedGroup(before.children[role], Keys(hosts));
    assert after.children[role] == WithNames(purged, adds);
    forall h | h in adds
      ensures h in NamesOf(after.children[role].hosts)
    {
      AppendMembers(NamesOf(purged.hosts), adds, h);
    }
    AddPresent(after, role, adds);
  }

  /** Assigning the roles of the same host table again changes nothing, whatever was there before. */
  lemma AssignedTwice(before: Config, hosts: Hosts, p: Params)
    requires HasRoles(before) && Distinct(Keys(hosts)) && Assigned(before, hosts, p).Ok?
    ensures var after := Assigned(before, hosts, p).value;
            HasRoles(after) && CLUSTER in after.children && Assigned(after, hosts, p) == Ok(after)
  {
    var nodes, calico := AssignedShape(before, hosts, p);
    var after := Assigned(before, hosts, p).value;
    var names := Keys(hosts);
    HostsSettled(before, hosts, p, after, nodes, calico);
    GroupsSettled(before, hosts, p, after, nodes, calico);
    AddsPresent(before, hosts, p, after, nodes, calico, "etcd");
    AddsPresent(before, hosts, p, after, nodes, calico, "kube-master");
    AddsPresent(before, hosts, p, after, nodes, calico, "kube-node");
    AddsPresent(before, hosts, p, after, nodes, calico, "calico-rr");
    assert WithCluster(WithAll(Purged(after, names), hosts)) == after;
  }

  // -------------------------------------------------------------------------------------------
  // A fresh build
  // -------------------------------------------------------------------------------------------

  /** No host in any group. */
  predicate IsFresh(cfg: Config) {
    && HostsOf(cfg) == []
    && forall role :: role in cfg.children ==> NamesOf(cfg.children[role].hosts) == []
  }

  function Members(cfg: Config, role: string): seq<string> {
    if role in cfg.children then NamesOf(cfg.children[role].hosts) else []
  }

  lemma PartAppends(names: seq<string>, lo: int, hi: int)
    requires Distinct(names) && 0 <= lo
    ensures Append([], Slice(names, lo, hi)) == Slice(names, lo, hi)
  {
    var part := Slice(names, lo, hi);
    assert [] + part == part;
    AppendNew([], part);
  }

  lemma MastersAppend(names: seq<string>, p: Params)
    requires Distinct(names)
    ensures Append([], MasterHosts(names, p)) == MasterHosts(names, p)
  {
    PartAppends(names, 0, p.masters);
    PartAppends(names, EtcdCount(names), EtcdCount(names) + p.masters);
  }

  lemma FreshGroups(before: Config, hosts: Hosts, p: Params, after: Config, nodes: seq<string>, calico: seq<string>)
    requires IsAssigned(before, hosts, p, after, nodes, calico) && IsFresh(before)
    requires HasRoles(before) && Distinct(Keys(hosts))
    ensures HostsOf(after) == hosts
    ensures Members(after, "etcd") == Slice(Keys(hosts), 0, EtcdCount(Keys(hosts)))
    ensures Members(after, "kube-master") == MasterHosts(Keys(hosts), p)
    ensures Members(after, "kube-node") == Append([], nodes)
    ensures Members(after, "calico-rr") == Append([], calico)
  {
    assert [] + hosts == hosts;
    PutAllFresh([], hosts);
    PartAppends(Keys(hosts), 0, EtcdCount(Keys(hosts)));
    MastersAppend(Keys(hosts), p);
  }

  lemma {:induction false} NodeHostsSkip(cfg: Config, skipped: seq<string>, rest: seq<string>, p: Params)
    requires HasRoles(cfg) && NodeHosts(cfg, skipped + rest, p).Ok?
    requires forall h :: h in skipped ==>
               || (SkipsEtcd(cfg, p) && h in NamesOf(cfg.children["etcd"].hosts))
               || (SkipsMaster(cfg, p) && h in NamesOf(cfg.children["kube-master"].hosts))
    ensures NodeHosts(cfg, skipped + rest, p) == NodeHosts(cfg, rest, p)
    decreases |skipped|
  {
    if skipped == [] {
      assert skipped + rest == rest;
    } else {
      assert (skipped + rest)[0] == skipped[0] && (skipped + rest)[1..] == skipped[1..] + rest;
      assert skipped[0] in skipped;
      NodeHostsSkip(cfg, skipped[1..], rest, p);
    }
  }

  lemma {:induction false} NodeHostsKeep(cfg: Config, hosts: seq<string>, p: Params)
    requires HasRoles(cfg) && NodeHosts(cfg, hosts, p).Ok?
    requires forall h :: h in hosts ==>
               && !(SkipsEtcd(cfg, p) && h in NamesOf(cfg.children["etcd"].hosts))
               && !(SkipsMaster(cfg, p) && h in NamesOf(cfg.children["kube-master"].hosts))
    ensures NodeHosts(cfg, hosts, p) == Ok(hosts)
  {
    if hosts != [] {
      assert hosts[0] in hosts;
      NodeHostsKeep(cfg, hosts[1..], p);
      assert hosts == [hosts[0]] + hosts[1..];
    }
  }

  /** How many hosts at the front of the list are not worker nodes. */
  function Reserved(names: seq<string>, p: Params): seq<string> {
    (if |names| >= p.scale then Slice(names, 0, EtcdCount(names)) else [])
    + (if |names| >= p.massive then MasterHosts(names, p) else [])
  }

  lemma ReservedIsFront(names: seq<string>, p: Params)
    ensures Reserved(names, p) <= names
  {
  }

  lemma NotReserved(names: seq<string>, p: Params, h: string)
    requires h !in Reserved(names, p)
    ensures |names| >= p.scale ==> h !in Slice(names, 0, EtcdCount(names))
    ensures |names| >= p.massive ==> h !in MasterHosts(names, p)
  {
  }

  lemma FreshNodes(before: Config, hosts: Hosts, p: Params, after: Config, nodes: seq<string>, calico: seq<string>)
    requires IsAssigned(before, hosts, p, after, nodes, calico) && IsFresh(before)
    requires HasRoles(before) && Distinct(Keys(hosts))
    ensures Keys(hosts) == Reserved(Keys(hosts), p) + nodes
    ensures Members(after, "kube-node") == nodes
  {
    var names := Keys(hosts);
    var reserved := Reserved(names, p);
    FreshGroups(before, hosts, p, after, nodes, calico);
    ReservedIsFront(names, p);
    var rest := names[|reserved|..];
    assert names == reserved + rest;
    DistinctConcat(reserved, rest);
    NodeHostsSkip(after, reserved, rest, p);
    forall h | h in rest
      ensures !(SkipsEtcd(after, p) && h in NamesOf(after.children["etcd"].hosts))
      ensures !(SkipsMaster(after, p) && h in NamesOf(after.children["kube-master"].hosts))
    {
      assert h !in reserved;
      NotReserved(names, p, h);
    }
    NodeHostsKeep(after, rest, p);
    assert [] + nodes == nodes;
    AppendNew([], nodes);
  }

  function Least(a: int, b: int): int {
    if a <= b then a else b
  }

  /** As many masters as there should be and can be: the first hosts, at scale those after etcd. */
  predicate IsMasterBlock(names: seq<string>, p: Params, masters: seq<string>)
    requires p.masters >= 0
  {
    var n := |names|;
    if n < p.scale then masters == names[..Least(p.masters, n)]
    else
      var e := Least(if n >= 3 then 3 else 1, n);
      masters == names[e..Least(e + p.masters, n)]
  }

  /**
   The first hosts are etcd, the masters are those after them at scale and the first ones below it;
   the host list is cut, from the front, into these and the nodes, as far as they are reserved.
   */
  ghost predicate IsCut(names: seq<string>, p: Params, etcd: seq<string>, masters: seq<string>, nodes: seq<string>) {
    && etcd == names[..if |names| >= 3 then 3 else if |names| >= 1 then 1 else 0]
    && (p.masters >= 0 ==> IsMasterBlock(names, p, masters))
    && (|names| >= p.scale && |names| >= p.massive ==> names == etcd + masters + nodes)
    && (|names| >= p.scale && |names| < p.massive ==> names == etcd + nodes)
    && (|names| < p.scale && |names| >= p.massive ==> names == masters + nodes)
    && (|names| < p.scale && |names| < p.massive ==> names == nodes)
  }

  lemma ReservedCuts(names: seq<string>, p: Params, nodes: seq<string>)
    requires names == Reserved(names, p) + nodes
    ensures IsCut(names, p, Slice(names, 0, EtcdCount(names)), MasterHosts(names, p), nodes)
  {
  }

  // At scale the masters come right after the etcd hosts.
  lemma EtcdApart(names: seq<string>, p: Params, nodes: seq<string>)
    requires Distinct(names) && |names| >= p.scale && names == Reserved(names, p) + nodes
    ensures forall h :: h in Slice(names, 0, EtcdCount(names)) ==> h !in MasterHosts(names, p) && h !in nodes
  {
  }

  /**
   A fresh build. The host list is cut, from the front, into the hosts reserved for etcd (at scale),
   those reserved for the masters (at massive scale) and the worker nodes; so every host has a role,
   at scale no etcd host is a master or a node, and at massive scale the three groups partition the
   hosts in order, whatever the thresholds and the number of masters are.
   */
  lemma FreshBuild(before: Config, hosts: Hosts, p: Params)
    requires HasRoles(before) && IsFresh(before) && Distinct(Keys(hosts)) && Assigned(before, hosts, p).Ok?
    ensures var after, names := Assigned(before, hosts, p).value, Keys(hosts);
            var etcd, masters, nodes := Members(after, "etcd"), Members(after, "kube-master"), Members(after, "kube-node");
            && HostsOf(after) == hosts
            && IsCut(names, p, etcd, masters, nodes)
            && (forall h :: h in names ==> h in etcd || h in masters || h in nodes)
            && (|names| >= p.scale ==> forall h :: h in etcd ==> h !in masters && h !in nodes)
            && (forall h :: h in Members(after, "calico-rr") ==> h in etcd && h !in masters && h !in nodes)
  {
    var names := Keys(hosts);
    var nodes, calico := AssignedShape(before, hosts, p);
    var after := Assigned(before, hosts, p).value;
    FreshGroups(before, hosts, p, after, nodes, calico);
    FreshNodes(before, hosts, p, after, nodes, calico);
    ReservedCuts(names, p, nodes);
    if |names| >= p.scale {
      EtcdApart(names, p, nodes);
    }
    forall h | h in Members(after, "calico-rr")
      ensures |names| >= p.scale && h in Slice(names, 0, EtcdCount(names))
    {
      AppendMembers([], calico, h);
      CalicoHostsMembers(after, Slice(names, 0, EtcdCount(names)), h);
    }
    EveryoneHasRole(names, p, nodes);
  }

  lemma EveryoneHasRole(names: seq<string>, p: Params, nodes: seq<string>)
    requires names == Reserved(names, p) + nodes
    ensures forall h :: h in names ==> h in Slice(names, 0, EtcdCount(names)) || h in MasterHosts(names, p) || h in nodes
  {
  }

  /** With no group record broken, and host tables in the two groups that are searched, nothing fails. */
  lemma AssignSucceeds(before: Config, hosts: Hosts, p: Params)
    requires HasRoles(before) && CanPurge(before)
    requires before.children["etcd"].hosts.Names? && before.children["kube-master"].hosts.Names?
    ensures Assigned(before, hosts, p).Ok?
  {
    var names := Keys(hosts);
    var c1 := WithCluster(WithAll(Purged(before, names), hosts));
    var c3 := AddToGroup(AddToGroup(c1, "etcd", Slice(names, 0, EtcdCount(names))), "kube-master", MasterHosts(names, p));
    NodeHostsSucceeds(c3, names, p);
  }

  /** With no groups to start from, the role assignment does not fail. */
  lemma FirstRunAssigns(cfg: Config, hosts: Hosts, p: Params)
    requires cfg.children == map[]
    ensures HasRoles(Ensured(Some(cfg))) && Assigned(Ensured(Some(cfg)), hosts, p).Ok?
    ensures forall role :: role in Ensured(Some(cfg)).children ==> Ensured(Some(cfg)).children[role] == Group(Names([]), {})
    ensures cfg.hosts == Some([]) ==> Ensured(None) == Ensured(Some(cfg)) && IsFresh(Ensured(None))
  {
    EnsuredHasRoles(Some(cfg));
    WithGroupsHas(map[], ROLES);
    AssignSucceeds(Ensured(Some(cfg)), hosts, p);
  }

  lemma {:induction false} NodeHostsSucceeds(cfg: Config, hosts: seq<string>, p: Params)
    requires HasRoles(cfg) && cfg.children["etcd"].hosts.Names? && cfg.children["kube-master"].hosts.Names?
    ensures NodeHosts(cfg, hosts, p).Ok?
  {
    if hosts != [] {
      NodeHostsSucceeds(cfg, hosts[1..], p);
    }
  }

  // -------------------------------------------------------------------------------------------
  // Roles only go with the purge
  // -------------------------------------------------------------------------------------------

  lemma GroupAfterAssign(before: Config, hosts: Hosts, p: Params, after: Config, nodes: seq<string>, calico: seq<string>,
                         role: string, h: string)
    requires IsAssigned(before, hosts, p, after, nodes, calico) && role in before.children && role != CLUSTER
    ensures h in Members(after, role) <==>
            (h in Members(before, role) && Kept(h, Keys(hosts))) || h in RoleAdds(role, Keys(hosts), p, nodes, calico)
  {
    var names := Keys(hosts);
    var old_ := PurgedGroup(before.children[role], names);
    KeepNamesMembers(Members(before, role), names, h);
    AppendMembers(NamesOf(old_.hosts), RoleAdds(role, names, p, nodes, calico), h);
    assert after.children[role] == WithNames(old_, RoleAdds(role, names, p, nodes, calico));
  }

  /** The name is a key of one of the two records that set_calico_rr looks into; both have `hosts`. */
  predicate IsRecordKey(cfg: Config, h: string)
    requires HasRoles(cfg)
  {
    h == "hosts" || h in cfg.children["kube-master"].others || h in cfg.children["kube-node"].others
  }

  /** h is one of the names from place lo to before place hi. */
  predicate IsAmong(names: seq<string>, lo: int, hi: int, h: string) {
    exists i :: 0 <= i < |names| && lo <= i < hi && names[i] == h
  }

  /** Whether a run gives the host this role. */
  predicate GetsRole(before: Config, hosts: Hosts, p: Params, after: Config, role: string, h: string)
    requires HasRoles(before)
  {
    var names, n := Keys(hosts), |hosts|;
    var front := if n >= 3 then 3 else 1;
    var start := if n >= p.scale then front else 0;
    var end := start + p.masters;
    if role == "etcd" then IsAmong(names, 0, front, h)
    else if role == "kube-master" then IsAmong(names, start, if end >= 0 then end else end + n, h)
    else if role == "kube-node" then
      && h in names
      && !(|HostsOf(after)| >= p.scale && h in Members(after, "etcd"))
      && !(|HostsOf(after)| >= p.massive && h in Members(after, "kube-master"))
    else role == "calico-rr" && n >= p.scale && IsAmong(names, 0, front, h) && !IsRecordKey(before, h)
  }

  /** Python's slices, also from the end: exactly the names at places in between. */
  lemma SliceMembers(names: seq<string>, lo: nat, hi: int, h: string)
    ensures h in Slice(names, lo, hi) <==> IsAmong(names, lo, if hi >= 0 then hi else hi + |names|, h)
  {
    var part := Slice(names, lo, hi);
    if h in part {
      var k :| 0 <= k < |part| && part[k] == h;
      assert names[Clip(lo, |names|) + k] == h;
    }
    if IsAmong(names, lo, if hi >= 0 then hi else hi + |names|, h) {
      var i :| 0 <= i < |names| && lo <= i < (if hi >= 0 then hi else hi + |names|) && names[i] == h;
      assert part[i - lo] == h;
    }
  }

  lemma MasterAddsAre(names: seq<string>, p: Params, h: string)
    ensures var start := if |names| >= p.scale then if |names| >= 3 then 3 else 1 else 0;
            var end := start + p.masters;
            h in MasterHosts(names, p) <==> IsAmong(names, start, if end >= 0 then end else end + |names|, h)
  {
    SliceMembers(names, 0, p.masters, h);
    SliceMembers(names, EtcdCount(names), EtcdCount(names) + p.masters, h);
  }

  lemma CalicoAddsAre(before: Config, hosts: Hosts, p: Params, after: Config, nodes: seq<string>, calico: seq<string>, h: string)
    requires IsAssigned(before, hosts, p, after, nodes, calico) && HasRoles(before)
    ensures var front := if |hosts| >= 3 then 3 else 1;
            h in calico <==> |hosts| >= p.scale && IsAmong(Keys(hosts), 0, front, h) && !IsRecordKey(before, h)
  {
    var candidates := Slice(Keys(hosts), 0, EtcdCount(Keys(hosts)));
    SliceMembers(Keys(hosts), 0, EtcdCount(Keys(hosts)), h);
    CalicoHostsMembers(after, candidates, h);
    RecordKeysAre(before, hosts, p, after, nodes, calico, "kube-master");
    RecordKeysAre(before, hosts, p, after, nodes, calico, "kube-node");
  }

  // The keys of a record stay as they are, and `hosts` is one of them.
  lemma RecordKeysAre(before: Config, hosts: Hosts, p: Params, after: Config, nodes: seq<string>, calico: seq<string>,
                      role: string)
    requires IsAssigned(before, hosts, p, after, nodes, calico) && role in before.children && role != CLUSTER
    ensures RecordKeys(after.children[role]) == before.children[role].others + {"hosts"}
  {
    assert after.children[role] ==
           WithNames(PurgedGroup(before.children[role], Keys(hosts)), RoleAdds(role, Keys(hosts), p, nodes, calico));
  }

  lemma RoleAddsAre(before: Config, hosts: Hosts, p: Params, after: Config, nodes: seq<string>, calico: seq<string>,
                    role: string, h: string)
    requires IsAssigned(before, hosts, p, after, nodes, calico) && HasRoles(before)
    ensures h in RoleAdds(role, Keys(hosts), p, nodes, calico) <==> GetsRole(before, hosts, p, after, role, h)
  {
    var names := Keys(hosts);
    if role == "etcd" {
      SliceMembers(names, 0, EtcdCount(names), h);
    } else if role == "kube-master" {
      MasterAddsAre(names, p, h);
    } else if role == "kube-node" {
      NodeHostsMembers(after, names, p, h);
    } else if role == "calico-rr" {
      CalicoAddsAre(before, hosts, p, after, nodes, calico, h);
    }
  }

  /** Exactly who is in a group after the role assignment, and that k8s-cluster is always rewritten. */
  lemma GroupMembers(before: Config, hosts: Hosts, p: Params, role: string, h: string)
    requires HasRoles(before) && Assigned(before, hosts, p).Ok? && role in before.children && role != CLUSTER
    ensures var after := Assigned(before, hosts, p).value;
            h in Members(after, role) <==>
            (h in Members(before, role) && Kept(h, Keys(hosts))) || GetsRole(before, hosts, p, after, role, h)
  {
    var nodes, calico := AssignedShape(before, hosts, p);
    var after := Assigned(before, hosts, p).value;
    GroupAfterAssign(before, hosts, p, after, nodes, calico, role, h);
    RoleAddsAre(before, hosts, p, after, nodes, calico, role, h);
  }

  /**
   Exactly who is in a group after a run: who was in it before and is not purged, and who gets the
   role. Nothing else ever takes a role away, however the number of hosts has changed. The record of
   k8s-cluster is the same after every run, whatever it held.
   */
  lemma GroupAfterRun(cfg: Option<Config>, changedHosts: seq<string>, p: Params, role: string, h: string)
    requires Run(cfg, changedHosts, p).Ok?
    ensures HasRoles(Ensured(cfg))
    ensures var before, out := Ensured(cfg), Run(cfg, changedHosts, p).value;
            role in before.children && role != CLUSTER ==>
              (h in Members(out.config, role) <==>
               (h in Members(before, role) && Kept(h, Keys(out.hosts))) ||
               GetsRole(before, out.hosts, p, out.config, role, h))
    ensures var after := Run(cfg, changedHosts, p).value.config;
            && CLUSTER in after.children && after.children[CLUSTER] == Group(Absent, {"children"})
            && after.children.Keys == Ensured(cfg).children.Keys
  {
    RunIsAssigned(cfg, changedHosts, p);
    EnsuredHasRoles(cfg);
    var out := Run(cfg, changedHosts, p).value;
    var nodes, calico := AssignedShape(Ensured(cfg), out.hosts, p);
    if role in Ensured(cfg).children && role != CLUSTER {
      GroupMembers(Ensured(cfg), out.hosts, p, role, h);
    }
  }
}
