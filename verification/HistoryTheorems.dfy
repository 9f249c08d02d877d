/**
 The etcd group over whole histories of runs that add addresses and delete hosts, starting from an
 empty inventory: it has the first hosts, exactly when the host prefix has no dot.
 */
module HistoryTheorems {
  import opened Options
  import opened Decimal
  import opened Dicts
  import opened Text
  import opened Addresses
  import opened HostNames
  import opened Inventory
  import opened BuildTheorems
  import opened AddressTheorems
  import opened Tables
  import opened RoleTheorems
  import opened RunTheorems

  /** The written configuration after a run; a run that fails writes nothing. */
  function After(cfg: Option<Config>, changedHosts: seq<string>, p: Params): Option<Config> {
    var r := Run(cfg, changedHosts, p);
    if r.Ok? then Some(r.value.config) else cfg
  }

  /** The written configuration after a sequence of runs, from none. */
  function History(runs: seq<seq<string>>, p: Params): Option<Config> {
    if runs == [] then None else After(History(runs[..|runs| - 1], p), runs[|runs| - 1], p)
  }

  /** etcd has the first of the ordered hosts, at most three, and three if there are three. */
  predicate EtcdIsPrefix(cfg: Config) {
    && Members(cfg, "etcd") <= Keys(HostsOf(cfg))
    && |Members(cfg, "etcd")| <= 3
    && (|HostsOf(cfg)| >= 3 ==> |Members(cfg, "etcd")| == 3)
  }

  /** What the runs keep: the etcd property, with distinct and numbered hosts. */
  ghost predicate EtcdIsFront(cfg: Config) {
    && HasRoles(cfg) && cfg.hosts.Some?
    && Distinct(Keys(cfg.hosts.value))
    && AllNumbered(cfg.hosts.value)
    && cfg.children["etcd"].hosts.Names?
    && EtcdIsPrefix(cfg)
  }

  // -------------------------------------------------------------------------------------------
  // Specs that name no host
  // -------------------------------------------------------------------------------------------

  lemma {:induction false} RangeIsUnnamed(start: nat, end: nat)
    ensures AllSpecs(AddressRange(start, end), IsUnnamed)
    decreases end - start
  {
    if start <= end {
      RangeIsUnnamed(start + 1, end);
      TextOfAddress(start);
      assert IsUnnamed(AddressText(start));
    }
  }

  lemma {:induction false} ExpandedIsUnnamed(specs: seq<string>)
    requires AllSpecs(specs, IsUnnamed) && ExpandAll(specs).Ok?
    ensures AllSpecs(ExpandAll(specs).value, IsUnnamed)
  {
    if specs != [] {
      assert IsUnnamed(specs[0]);
      assert AllSpecs(specs[1..], IsUnnamed);
      ExpandedIsUnnamed(specs[1..]);
      if IsRange(specs[0]) {
        var parts := SplitAll(Strip(specs[0]), '-');
        RangeIsUnnamed(ParseAddress(parts[0]).value, ParseAddress(parts[1]).value);
      }
      assert AllSpecs(Expand(specs[0]).value, IsUnnamed);
    }
  }

  // -------------------------------------------------------------------------------------------
  // Numbered hosts are not protected
  // -------------------------------------------------------------------------------------------

  lemma {:induction false} NumberedEndsInDigit(host: string)
    requires HostId(host).Some? && Free(host, '.') && host != "" && host[|host| - 1] != '\n'
    ensures IsDigit(host[|host| - 1])
  {
    SplitAllOfFree(host, '.');
  }

  lemma ProtectedIsNotNumbered(name: string)
    requires IsProtected(name)
    ensures HostId(name) == None
  {
    var last := name[|name| - 1];
    assert ROLES[0] == "all" && ROLES[1] == "kube-master" && ROLES[2] == "kube-node" && ROLES[3] == "etcd";
    assert ROLES[4] == "k8s-cluster" && ROLES[5] == "calico-rr";
    assert Free(name, '.') && last != '\n' && !IsDigit(last);
    if HostId(name).Some? {
      NumberedEndsInDigit(name);
    }
  }

  // -------------------------------------------------------------------------------------------
  // The purge keeps the survivors in order
  // -------------------------------------------------------------------------------------------

  lemma {:induction false} KeepNamesOfPrefix(part: seq<string>, names: seq<string>, hostnames: seq<string>)
    requires part <= names
    ensures KeepNames(part, hostnames) <= KeepNames(names, hostnames)
    decreases |names|
  {
    if |part| < |names| {
      var n := |names| - 1;
      assert part <= names[..n];
      KeepNamesOfPrefix(part, names[..n], hostnames);
    } else {
      assert part == names;
    }
  }

  lemma {:induction false} KeepIsRestrict(hosts: Hosts, kept: set<string>, hostnames: seq<string>)
    requires forall h :: h in Keys(hosts) ==> (Kept(h, hostnames) <==> h in kept)
    ensures KeepHosts(hosts, hostnames) == Restrict(hosts, kept)
    ensures KeepNames(Keys(hosts), hostnames) == Keys(Restrict(hosts, kept))
  {
    if hosts != [] {
      var n := |hosts| - 1;
      var last := hosts[n];
      assert hosts == hosts[..n] + [last];
      KeysOfConcat(hosts[..n], [last]);
      assert Keys([last]) == [last.0] && last.0 in [last.0];
      KeepIsRestrict(hosts[..n], kept, hostnames);
      assert Keys(hosts)[..n] == Keys(hosts[..n]) && Keys(hosts)[n] == last.0;
      KeysOfConcat(Restrict(hosts[..n], kept), if last.0 in kept then [last] else []);
    }
  }

  /** Adding the first c names to a group that has the first k of them. */
  lemma FrontOfFronts(names: seq<string>, k: nat, c: nat)
    requires Distinct(names) && k <= |names| && c <= |names|
    ensures Append(names[..k], names[..c]) == names[..if k >= c then k else c]
  {
    if k >= c {
      AppendPresent(names[..k], names[..c]);
    } else {
      assert names[..c] == names[..k] + names[k..c];
      AppendConcat(names[..k], names[..k], names[k..c]);
      AppendPresent(names[..k], names[..k]);
      assert Distinct(names[..c]);
      AppendNew(names[..k], names[k..c]);
    }
  }

  // -------------------------------------------------------------------------------------------
  // One run
  // -------------------------------------------------------------------------------------------

  // The names of the table after a run: the survivors, then the new ones.
  lemma TableAfter(hosts: Hosts, specs: seq<string>, prefix: string) returns (kept: set<string>, added: Hosts)
    requires Distinct(Keys(hosts)) && AllNumbered(hosts) && Free(prefix, '.')
    requires AllSpecs(specs, IsUnnamed) && BuildHostnames(hosts, specs, prefix).Ok?
    ensures var table := BuildHostnames(hosts, specs, prefix).value;
            && table == Restrict(hosts, kept) + added
            && Distinct(Keys(table)) && AllNumbered(table)
            && KeepHosts(hosts, Keys(table)) == Restrict(hosts, kept)
            && KeepNames(Keys(hosts), Keys(table)) == Keys(Restrict(hosts, kept))
  {
    kept, added := BatchIsFresh(hosts, specs, prefix);
    var table := BuildHostnames(hosts, specs, prefix).value;
    TableIsNumbered(hosts, specs, prefix);
    RestrictKeys(hosts, kept);
    KeysOfConcat(Restrict(hosts, kept), added);
    forall h | h in Keys(hosts)
      ensures Kept(h, Keys(table)) <==> h in kept
    {
      NumberedIsNotProtected(hosts, h);
    }
    KeepIsRestrict(hosts, kept, Keys(table));
  }

  lemma NumberedIsNotProtected(hosts: Hosts, h: string)
    requires AllNumbered(hosts) && h in Keys(hosts)
    ensures !IsProtected(h)
  {
    var i :| 0 <= i < |hosts| && Keys(hosts)[i] == h;
    if IsProtected(h) {
      ProtectedIsNotNumbered(h);
    }
  }

  /** How many of the old etcd hosts are left. */
  function EtcdSurvivors(before: Config, hosts: Hosts): nat {
    |KeepNames(Members(before, "etcd"), Keys(hosts))|
  }

  /** The size of etcd after a run: the survivors, or 3 (1 with fewer than three hosts) if that is more. */
  function EtcdSize(before: Config, hosts: Hosts): nat {
    var least := if |hosts| >= 3 then 3 else if |hosts| >= 1 then 1 else 0;
    if EtcdSurvivors(before, hosts) >= least then EtcdSurvivors(before, hosts) else least
  }

  lemma AssignKeepsEtcdFront(before: Config, hosts: Hosts, p: Params, kept: set<string>, added: Hosts)
    requires EtcdIsFront(before) && Assigned(before, hosts, p).Ok?
    requires hosts == Restrict(before.hosts.value, kept) + added && Distinct(Keys(hosts)) && AllNumbered(hosts)
    requires KeepHosts(before.hosts.value, Keys(hosts)) == Restrict(before.hosts.value, kept)
    requires KeepNames(Keys(before.hosts.value), Keys(hosts)) == Keys(Restrict(before.hosts.value, kept))
    ensures var after := Assigned(before, hosts, p).value;
            && EtcdIsFront(after)
            && HostsOf(after) == hosts
            && |Members(after, "etcd")| == EtcdSize(before, hosts)
  {
    var names := Keys(hosts);
    var survivors := Restrict(before.hosts.value, kept);
    KeepNamesOfPrefix(Members(before, "etcd"), Keys(before.hosts.value), names);
    KeysOfConcat(survivors, added);
    HostsWritten(before, hosts, p, survivors, added);
    KeepNamesLength(Members(before, "etcd"), names);
    EtcdAfter(before, hosts, p);
  }

  // The etcd group is cut off the front of the new host list.
  lemma EtcdAfter(before: Config, hosts: Hosts, p: Params)
    requires HasRoles(before) && Assigned(before, hosts, p).Ok? && Distinct(Keys(hosts))
    requires before.children["etcd"].hosts.Names? && KeepNames(Members(before, "etcd"), Keys(hosts)) <= Keys(hosts)
    ensures EtcdSize(before, hosts) <= |hosts|
    ensures var after := Assigned(before, hosts, p).value;
            && HasRoles(after)
            && after.children["etcd"].hosts == Names(Keys(hosts)[..EtcdSize(before, hosts)])
  {
    var names := Keys(hosts);
    var nodes, calico := AssignedShape(before, hosts, p);
    FrontGrows(names, KeepNames(Members(before, "etcd"), names));
    assert Assigned(before, hosts, p).value.children["etcd"] ==
           WithNames(PurgedGroup(before.children["etcd"], names), Slice(names, 0, EtcdCount(names)));
  }

  // The front of the host list, extended by its first hosts.
  lemma FrontGrows(names: seq<string>, left: seq<string>)
    requires Distinct(names) && left <= names
    ensures var least := if |names| >= 3 then 3 else if |names| >= 1 then 1 else 0;
            Append(left, Slice(names, 0, EtcdCount(names))) == names[..if |left| >= least then |left| else least]
  {
    SliceFront(names);
    FrontOfFronts(names, |left|, |Slice(names, 0, EtcdCount(names))|);
    assert left == names[..|left|];
  }

  lemma SliceFront(names: seq<string>)
    ensures Slice(names, 0, EtcdCount(names)) == names[..if |names| >= 3 then 3 else if |names| >= 1 then 1 else 0]
  {
  }

  lemma {:induction false} KeepNamesLength(names: seq<string>, hostnames: seq<string>)
    ensures |KeepNames(names, hostnames)| <= |names|
  {
    if names != [] {
      KeepNamesLength(names[..|names| - 1], hostnames);
    }
  }

  lemma HostsWritten(before: Config, hosts: Hosts, p: Params, survivors: Hosts, added: Hosts)
    requires HasRoles(before) && before.hosts.Some? && Assigned(before, hosts, p).Ok?
    requires hosts == survivors + added && Distinct(Keys(hosts))
    requires KeepHosts(before.hosts.value, Keys(hosts)) == survivors
    ensures Assigned(before, hosts, p).value.hosts == Some(hosts)
  {
    var nodes, calico := AssignedShape(before, hosts, p);
    PutAllOverSelf(survivors, added);
  }

  lemma PutAllOverSelf<V>(a: Dict<V>, b: Dict<V>)
    requires Distinct(Keys(a + b))
    ensures PutAll(a, a + b) == a + b
  {
    PutAllOnPrefix(a, [], b);
    KeysOfConcat(a, b);
    DistinctConcat(Keys(a), Keys(b));
    assert a + [] == a && [] + b == b;
    PutAllFresh([], b);
  }

  /**
   One run keeps the etcd group at the front of the host list. Its size is exact: roles are only
   removed by the purge, so two survivors of three stay two.
   */
  lemma RunKeepsEtcdFront(cfg: Option<Config>, changedHosts: seq<string>, p: Params)
    requires EtcdIsFront(Ensured(cfg)) && Free(p.prefix, '.')
    requires AllSpecs(changedHosts, IsUnnamed) && Run(cfg, changedHosts, p).Ok?
    ensures var out := Run(cfg, changedHosts, p).value;
            && EtcdIsFront(out.config)
            && HostsOf(out.config) == out.hosts
            && |Members(out.config, "etcd")| == EtcdSize(Ensured(cfg), out.hosts)
  {
    var before := Ensured(cfg);
    var out := Run(cfg, changedHosts, p).value;
    RunIsAssigned(cfg, changedHosts, p);
    ExpandedIsUnnamed(changedHosts);
    var kept, added := TableAfter(HostsOf(before), ExpandAll(changedHosts).value, p.prefix);
    AssignKeepsEtcdFront(before, out.hosts, p, kept, added);
  }

  lemma EnsuredKeepsEtcdFront(cfg: Config)
    requires EtcdIsFront(cfg)
    ensures EtcdIsFront(Ensured(Some(cfg)))
  {
  }

  /**
   After any sequence of runs made of addresses, ranges and deletions, from no configuration at all:
   the etcd group is a prefix of the ordered host list of at most three hosts, and is exactly the
   first three whenever there are three.
   */
  lemma {:induction false} EtcdOverHistories(runs: seq<seq<string>>, p: Params)
    requires Free(p.prefix, '.')
    requires forall i :: 0 <= i < |runs| ==> AllSpecs(runs[i], IsUnnamed)
    ensures History(runs, p).Some? ==> EtcdIsFront(History(runs, p).value)
    ensures EtcdIsFront(Ensured(History(runs, p)))
  {
    if runs == [] {
      EnsuredHasRoles(None);
      WithGroupsHas(map[], ROLES);
    } else {
      var before, last := runs[..|runs| - 1], runs[|runs| - 1];
      EtcdOverHistories(before, p);
      if Run(History(before, p), last, p).Ok? {
        RunKeepsEtcdFront(History(before, p), last, p);
        EnsuredKeepsEtcdFront(History(runs, p).value);
      }
    }
  }

  // -------------------------------------------------------------------------------------------
  // Prefixes with a dot: one more run
  // -------------------------------------------------------------------------------------------

  lemma NextRoles(before: Config, table: Hosts, p: Params)
    requires IsRunnable(before) && Assigned(before, table, p).Ok?
    ensures IsRunnable(Assigned(before, table, p).value)
  {
    var nodes, calico := AssignedShape(before, table, p);
    var after := Assigned(before, table, p).value;
    forall role | role in before.children && role != CLUSTER
      ensures !after.children[role].hosts.Absent?
    {
    }
  }

  lemma NextEtcd(before: Config, table: Hosts, p: Params)
    requires IsRunnable(before) && Assigned(before, table, p).Ok?
    ensures Members(Assigned(before, table, p).value, "etcd") ==
            Append(KeepNames(Members(before, "etcd"), Keys(table)), Slice(Keys(table), 0, EtcdCount(Keys(table))))
  {
    var nodes, calico := AssignedShape(before, table, p);
    var names := Keys(table);
    assert Assigned(before, table, p).value.children["etcd"] ==
           WithNames(PurgedGroup(before.children["etcd"], names), Slice(names, 0, EtcdCount(names)));
  }

  /** A written configuration with these hosts and this etcd group. */
  ghost predicate Holds(cfg: Option<Config>, hosts: Hosts, etcd: seq<string>) {
    && cfg.Some? && IsRunnable(cfg.value) && Ensured(cfg) == cfg.value
    && HostsOf(cfg.value) == hosts && Members(cfg.value, "etcd") == etcd
  }

  lemma NextRun(cfg: Option<Config>, batch: seq<string>, p: Params, table: Hosts)
    requires IsRunnable(Ensured(cfg)) && Builds(HostsOf(Ensured(cfg)), batch, p.prefix, table)
    ensures Holds(After(cfg, batch, p), PutAll(KeepHosts(HostsOf(Ensured(cfg)), Keys(table)), table),
                  Append(KeepNames(Members(Ensured(cfg), "etcd"), Keys(table)),
                         Slice(Keys(table), 0, EtcdCount(Keys(table)))))
  {
    var before := Ensured(cfg);
    AssignSucceeds(before, table, p);
    assert After(cfg, batch, p) == Some(Assigned(before, table, p).value);
    NextRoles(before, table, p);
    NextEtcd(before, table, p);
    TableWritten(before, table, p);
  }

  lemma FirstRun(batch: seq<string>, p: Params, table: Hosts)
    requires Builds([], batch, p.prefix, table) && Distinct(Keys(table))
    ensures Holds(After(None, batch, p), table, Slice(Keys(table), 0, EtcdCount(Keys(table))))
  {
    FirstRunAssigns(Config(Some([]), map[]), table, p);
    EnsuredHasRoles(None);
    NextRun(None, batch, p, table);
    PartAppends(Keys(table), 0, EtcdCount(Keys(table)));
    assert [] + table == table;
    PutAllFresh([], table);
  }

  // The group of the first three, extended by the first three after moving the first of four to the end.
  lemma GrownToFour(names: seq<string>)
    requires |names| == 4 && Distinct(names)
    ensures var moved := names[1..] + [names[0]];
            Append(KeepNames(names[..3], moved), Slice(moved, 0, EtcdCount(moved))) == names
  {
    var moved := names[1..] + [names[0]];
    assert moved[0] == names[1] && moved[1] == names[2] && moved[3] == names[0];
    KeepAllNames(names[..3], moved);
    assert Slice(moved, 0, EtcdCount(moved)) == names[1..3] + [names[3]];
    AppendConcat(names[..3], names[1..3], [names[3]]);
    AppendPresent(names[..3], names[1..3]);
    assert names[..3] + [names[3]] == names;
    AppendNew(names[..3], [names[3]]);
  }

  // So moving the first of four hosts to the end makes the etcd group grow to four.
  lemma MoveGrowsEtcd(cfg: Option<Config>, hosts: Hosts, batch: seq<string>, p: Params, names: seq<string>, table: Hosts)
    requires |names| == 4 && Distinct(names) && Holds(cfg, hosts, names[..3])
    requires Builds(hosts, batch, p.prefix, table) && Keys(table) == names[1..] + [names[0]]
    ensures After(cfg, batch, p).Some? && !EtcdIsPrefix(After(cfg, batch, p).value)
  {
    NextRun(cfg, batch, p, table);
    GrownToFour(names);
  }

  // -------------------------------------------------------------------------------------------
  // A prefix whose short name ends in a number
  // -------------------------------------------------------------------------------------------

  lemma {:induction false} SameIds(hosts: Hosts, id: nat, highest: nat)
    requires forall i :: 0 <= i < |hosts| ==> HostId(hosts[i].0) == Some(id)
    ensures Carried(hosts) == hosts
    ensures HighestId(hosts, highest) == if hosts == [] || highest >= id then highest else id
    decreases |hosts|
  {
    if hosts != [] {
      SameIds(hosts[1..], id, if id > highest then id else highest);
    }
  }

  lemma NumberedStart(names: seq<string>, ips: seq<string>, prefix: string, id: nat)
    requires HostId(prefix).Some? && !Free(prefix, '.') && |names| == |ips| > 0
    requires names == NamesFrom(prefix, id, |names|)
    ensures StartBuild(Table(names, ips)) == Build(Table(names, ips), DottedId(prefix), None, None, None)
  {
    var hosts := Table(names, ips);
    forall i | 0 <= i < |hosts|
      ensures HostId(hosts[i].0) == HostId(prefix)
    {
      assert hosts[i].0 == names[i] == GeneratedName(prefix, id + i);
      IdOfDotted(prefix, id + i);
    }
    SameIds(hosts, HostId(prefix).value, 0);
  }

  // The first run leaves the hosts that it adds.
  lemma AddingRun(ips: seq<string>, p: Params)
    requires !Free(p.prefix, '.') && AllPlain(ips, p.prefix) && ips != []
    ensures var names := NamesFrom(p.prefix, 1, |ips|);
            && Builds([], ips, p.prefix, Table(names, ips))
            && Holds(After(None, ips, p), Table(names, ips), Slice(names, 0, EtcdCount(names)))
  {
    var names := NamesFrom(p.prefix, 1, |ips|);
    NamesAreSpelled(p.prefix, 1, |ips|);
    assert Table([], []) == [] && [] + names == names && [] + ips == ips;
    JustAdd([], [], [], ips, p.prefix);
    assert Keys(Table(names, ips)) == names;
    FirstRun(ips, p, Table(names, ips));
  }

  // The table is all that is written, whether the old host's name is used again or not.
  lemma FirstIsReplaced(name: string, old_: Opts, table: Hosts)
    requires table != [] && Distinct(Keys(table)) && !IsProtected(name)
    requires name == table[0].0 || name !in Keys(table)
    ensures PutAll(KeepHosts([(name, old_)], Keys(table)), table) == table
  {
    var hosts: Hosts := [(name, old_)];
    assert hosts[..0] == [] && KeepHosts([], Keys(table)) == [];
    if name in Keys(table) {
      assert KeepHosts(hosts, Keys(table)) == hosts;
      assert Put(hosts, name, table[0].1) == [table[0]];
      assert [table[0]] + table[1..] == table;
      PutAllFresh([table[0]], table[1..]);
    } else {
      assert KeepHosts(hosts, Keys(table)) == [];
      assert [] + table == table;
      PutAllFresh([], table);
    }
  }

  // The second run replaces it by four whose numbers start at the one to be used again.
  lemma FourHostsRun(cfg: Option<Config>, ip: string, ips: seq<string>, p: Params)
    requires !Free(p.prefix, '.') && HostId(p.prefix).Some?
    requires var first := NamesFrom(p.prefix, 1, 1); Holds(cfg, Table(first, [ip]), first)
    requires AllPlain(ips, p.prefix) && |ips| == 4
    ensures var names, batch := NamesFrom(p.prefix, DottedId(p.prefix), 4), DropBatch(GeneratedName(p.prefix, 1), ips);
            && AllSpecs(batch, IsIpSpec)
            && Holds(After(cfg, batch, p), Table(names, ips), names[..3])
  {
    ReplacingBatch(ip, ips, p.prefix);
    NextRun(cfg, DropBatch(GeneratedName(p.prefix, 1), ips), p, Table(NamesFrom(p.prefix, DottedId(p.prefix), 4), ips));
    ReplacedTable(ip, ips, p.prefix);
  }

  // What that run writes: the new table, and its first three hosts as etcd.
  lemma ReplacedTable(ip: string, ips: seq<string>, prefix: string)
    requires !Free(prefix, '.') && |ips| == 4
    ensures var first, names := NamesFrom(prefix, 1, 1), NamesFrom(prefix, DottedId(prefix), 4);
            && Keys(Table(names, ips)) == names
            && PutAll(KeepHosts(Table(first, [ip]), names), Table(names, ips)) == Table(names, ips)
            && Append(KeepNames(first, names), Slice(names, 0, EtcdCount(names))) == names[..3]
  {
    var first, names := NamesFrom(prefix, 1, 1), NamesFrom(prefix, DottedId(prefix), 4);
    var table := Table(names, ips);
    NamesAreSpelled(prefix, 1, 1);
    NamesAreSpelled(prefix, DottedId(prefix), 4);
    assert Keys(table) == names && first == [first[0]] && first[0] == GeneratedName(prefix, 1);
    FirstNameInBlock(prefix);
    DottedIsNotProtected(prefix);
    assert Table(first, [ip]) == [(first[0], OptsOf(ip, ip))];
    FirstIsReplaced(first[0], OptsOf(ip, ip), table);
    EtcdOfReplaced(first[0], names);
  }

  lemma ReplacingBatch(ip: string, ips: seq<string>, prefix: string)
    requires !Free(prefix, '.') && HostId(prefix).Some? && AllPlain(ips, prefix)
    ensures Builds(Table(NamesFrom(prefix, 1, 1), [ip]), DropBatch(GeneratedName(prefix, 1), ips), prefix,
                   Table(NamesFrom(prefix, DottedId(prefix), |ips|), ips))
  {
    var first, names := NamesFrom(prefix, 1, 1), NamesFrom(prefix, DottedId(prefix), |ips|);
    NamesAreSpelled(prefix, 1, 1);
    NamesAreSpelled(prefix, DottedId(prefix), |ips|);
    NumberedStart(first, [ip], prefix, 1);
    assert first[1..] + names == names && [ip][1..] + ips == ips;
    DropThenAdd(Table(first, [ip]), first, [ip], ips, prefix);
  }

  lemma FirstNameInBlock(prefix: string)
    ensures var names := NamesFrom(prefix, DottedId(prefix), 4);
            GeneratedName(prefix, 1) == names[0] || GeneratedName(prefix, 1) !in names
  {
    var names := NamesFrom(prefix, DottedId(prefix), 4);
    forall i | 0 < i < 4
      ensures names[i] != GeneratedName(prefix, 1)
    {
      GeneratedNamesDiffer(prefix, DottedId(prefix) + i, 1);
    }
  }

  lemma DottedIsNotProtected(prefix: string)
    requires !Free(prefix, '.')
    ensures !IsProtected(GeneratedName(prefix, 1))
  {
    assert !Free(GeneratedName(prefix, 1), '.') by {
      var k :| 0 <= k < |prefix| && prefix[k] == '.';
      assert GeneratedName(prefix, 1)[k] == '.';
    }
    assert ROLES[0] == "all" && ROLES[1] == "kube-master" && ROLES[2] == "kube-node" && ROLES[3] == "etcd";
    assert ROLES[4] == "k8s-cluster" && ROLES[5] == "calico-rr";
  }

  lemma EtcdOfReplaced(name: string, names: seq<string>)
    requires |names| == 4 && Distinct(names) && (name == names[0] || name !in names) && !IsProtected(name)
    ensures Append(KeepNames([name], names), Slice(names, 0, EtcdCount(names))) == names[..3]
  {
    assert [name][..0] == [] && KeepNames([], names) == [];
    if name in names {
      assert KeepNames([name], names) == names[..1];
      FrontOfFronts(names, 1, 3);
    } else {
      assert KeepNames([name], names) == names[..0];
      FrontOfFronts(names, 0, 3);
    }
  }

  // The third one deletes the first of them and adds another: the same name, at the end.
  lemma ReusingBatch(ips: seq<string>, ip: string, p: Params) returns (batch: seq<string>, table: Hosts)
    requires !Free(p.prefix, '.') && HostId(p.prefix).Some? && |ips| == 4 && IsPlain(ip, p.prefix) && AllPlain(ips, p.prefix) && ip !in ips
    ensures var names := NamesFrom(p.prefix, DottedId(p.prefix), 4);
            && Builds(Table(names, ips), batch, p.prefix, table)
            && Keys(table) == names[1..] + [names[0]]
  {
    var id := DottedId(p.prefix);
    var names := NamesFrom(p.prefix, id, 4);
    NamesAreSpelled(p.prefix, id, 4);
    NumberedStart(names, ips, p.prefix, id);
    assert NamesFrom(p.prefix, id, 1) == [names[0]];
    batch := DropBatch(names[0], [ip]);
    DropThenAdd(Table(names, ips), names, ips, [ip], p.prefix);
    table := Table(names[1..] + [names[0]], ips[1..] + [ip]);
  }

  lemma OneHostRun(ip: string, p: Params)
    requires !Free(p.prefix, '.') && IsPlain(ip, p.prefix)
    ensures AllSpecs([ip], IsIpSpec)
    ensures var names := NamesFrom(p.prefix, 1, 1); Holds(After(None, [ip], p), Table(names, [ip]), names)
  {
    var names := NamesFrom(p.prefix, 1, 1);
    AddingRun([ip], p);
    assert Slice(names, 0, EtcdCount(names)) == names;
  }

  // The first two runs.
  lemma FourHostsReached(ip: string, ips: seq<string>, p: Params) returns (first: seq<string>, middle: seq<string>)
    requires !Free(p.prefix, '.') && HostId(p.prefix).Some? && IsPlain(ip, p.prefix) && AllPlain(ips, p.prefix) && |ips| == 4
    ensures AllSpecs(first, IsIpSpec) && AllSpecs(middle, IsIpSpec)
    ensures var names := NamesFrom(p.prefix, DottedId(p.prefix), 4);
            Holds(After(After(None, first, p), middle, p), Table(names, ips), names[..3])
  {
    first, middle := [ip], DropBatch(GeneratedName(p.prefix, 1), ips);
    OneHostRun(ip, p);
    FourHostsRun(After(None, first, p), ip, ips, p);
  }

  lemma NumberedPrefixBreaks(ip: string, ips: seq<string>, p: Params) returns (runs: seq<seq<string>>)
    requires !Free(p.prefix, '.') && HostId(p.prefix).Some? && IsPlain(ip, p.prefix) && AllPlain(ips, p.prefix) && |ips| == 4 && ip !in ips
    ensures BreaksEtcd(runs, p)
  {
    var names := NamesFrom(p.prefix, DottedId(p.prefix), 4);
    var first, middle := FourHostsReached(ip, ips, p);
    NamesAreSpelled(p.prefix, DottedId(p.prefix), 4);
    var last, table := ReusingBatch(ips, ip, p);
    MoveGrowsEtcd(After(After(None, first, p), middle, p), Table(names, ips), last, p, names, table);
    runs := ThreeRuns(first, middle, last, p);
  }

  /** A history of address and deletion runs that ends without the etcd property. */
  ghost predicate BreaksEtcd(runs: seq<seq<string>>, p: Params) {
    && (forall i :: 0 <= i < |runs| ==> AllSpecs(runs[i], IsIpSpec))
    && History(runs, p).Some? && !EtcdIsPrefix(History(runs, p).value)
  }

  lemma ThreeRuns(first: seq<string>, middle: seq<string>, last: seq<string>, p: Params) returns (runs: seq<seq<string>>)
    requires AllSpecs(first, IsIpSpec) && AllSpecs(middle, IsIpSpec) && AllSpecs(last, IsIpSpec)
    requires var end := After(After(After(None, first, p), middle, p), last, p);
             end.Some? && !EtcdIsPrefix(end.value)
    ensures BreaksEtcd(runs, p)
  {
    runs := [first, middle, last];
    var empty: seq<seq<string>> := [];
    assert runs[..2] == [first, middle] && [first, middle][..1] == [first] && [first][..0] == empty;
    assert History(empty, p) == None;
    assert History([first], p) == After(None, first, p);
    assert History([first, middle], p) == After(After(None, first, p), middle, p);
  }

  // -------------------------------------------------------------------------------------------
  // A prefix whose short name has no number: a run carries over the first host only
  // -------------------------------------------------------------------------------------------

  lemma PlainStart(names: seq<string>, ips: seq<string>, prefix: string, id: nat)
    requires HostId(prefix).None? && !Free(prefix, '.') && |names| == |ips| > 0 && names[0] == GeneratedName(prefix, id)
    ensures StartBuild(Table(names, ips)) == Build(Table(names[..1], ips[..1]), 1, None, None, None)
  {
    IdOfDotted(prefix, id);
    assert Table(names, ips)[0] == Table(names[..1], ips[..1])[0];
  }

  // Three deletions after four additions leave the fourth host.
  lemma FourthOnly(st: Build, names: seq<string>, ips: seq<string>, prefix: string) returns (drops: seq<string>)
    requires |names| == |ips| == 4 && st.hosts == Table(names, ips)
    ensures Steps(st, drops, prefix) == Ok(st.(hosts := Table(names[3..], ips[3..])))
    ensures AllSpecs(drops, IsIpSpec)
  {
    var st1, st2 := st.(hosts := Table(names[1..], ips[1..])), st.(hosts := Table(names[2..], ips[2..]));
    var none: seq<string> := [];
    drops := [['-'] + names[0], ['-'] + names[1], ['-'] + names[2]];
    DropFirst(st, names, ips, prefix);
    DropFirst(st1, names[1..], ips[1..], prefix);
    assert names[1..][1..] == names[2..] && ips[1..][1..] == ips[2..];
    DropFirst(st2, names[2..], ips[2..], prefix);
    assert names[2..][1..] == names[3..] && ips[2..][1..] == ips[3..];
    var d2, d3 := [['-'] + names[1], ['-'] + names[2]], [['-'] + names[2]];
    assert drops[1..] == d2 && d2[1..] == d3 && d3[1..] == none;
    assert Steps(st2, d3, prefix) == Ok(st.(hosts := Table(names[3..], ips[3..])));
    assert Steps(st1, d2, prefix) == Steps(st2, d3, prefix);
  }

  lemma FourthBatch(ips: seq<string>, prefix: string) returns (batch: seq<string>)
    requires !Free(prefix, '.') && AllPlain(ips, prefix) && |ips| == 4
    ensures Builds([], batch, prefix, Table([GeneratedName(prefix, 4)], ips[3..]))
  {
    var start := StartBuild([]);
    FourAdded(ips, prefix);
    var drops := FourthOnly(Steps(start, ips, prefix).value, NamesFrom(prefix, 1, 4), ips, prefix);
    StepsConcat(start, ips, drops, prefix);
    batch := ips + drops;
    assert AllSpecs(batch, IsIpSpec);
    NothingToExpand(batch);
  }

  lemma FourAdded(ips: seq<string>, prefix: string)
    requires AllPlain(ips, prefix) && |ips| == 4
    ensures AllSpecs(ips, IsIpSpec)
    ensures Steps(StartBuild([]), ips, prefix).Ok?
    ensures Steps(StartBuild([]), ips, prefix).value.hosts == Table(NamesFrom(prefix, 1, 4), ips)
    ensures NamesFrom(prefix, 1, 4)[3..] == [GeneratedName(prefix, 4)]
  {
    var names, start := NamesFrom(prefix, 1, 4), StartBuild([]);
    NamesAreSpelled(prefix, 1, 4);
    assert start.hosts == Table([], []) && start.nextId == 1 && [] + names == names && [] + ips == ips;
    AddMany(start, [], [], ips, prefix);
  }

  lemma FourthReached(ips: seq<string>, p: Params) returns (first: seq<string>)
    requires !Free(p.prefix, '.') && AllPlain(ips, p.prefix) && |ips| == 4
    ensures AllSpecs(first, IsIpSpec)
    ensures var name := GeneratedName(p.prefix, 4); Holds(After(None, first, p), Table([name], ips[3..]), [name])
  {
    var name := GeneratedName(p.prefix, 4);
    first := FourthBatch(ips, p.prefix);
    assert Keys(Table([name], ips[3..])) == [name];
    FirstRun(first, p, Table([name], ips[3..]));
    assert Slice([name], 0, EtcdCount([name])) == [name];
  }

  // The second run adds the first three names behind the fourth.
  lemma FourthInFront(cfg: Option<Config>, ip: string, ips: seq<string>, p: Params)
    requires !Free(p.prefix, '.') && HostId(p.prefix).None?
    requires var name := GeneratedName(p.prefix, 4); Holds(cfg, Table([name], [ip]), [name])
    requires AllPlain(ips, p.prefix) && |ips| == 3 && ip !in ips
    ensures AllSpecs(ips, IsIpSpec)
    ensures var names := [GeneratedName(p.prefix, 4)] + NamesFrom(p.prefix, 1, 3);
            Distinct(names) && Holds(After(cfg, ips, p), Table(names, [ip] + ips), names[..3])
  {
    var names := [GeneratedName(p.prefix, 4)] + NamesFrom(p.prefix, 1, 3);
    FourNames(p.prefix);
    InFrontBatch(ip, ips, p.prefix);
    NextRun(cfg, ips, p, Table(names, [ip] + ips));
    InFrontTable(names, [ip] + ips);
    assert names[..1] == [GeneratedName(p.prefix, 4)] && ([ip] + ips)[..1] == [ip];
  }

  lemma InFrontBatch(ip: string, ips: seq<string>, prefix: string)
    requires !Free(prefix, '.') && HostId(prefix).None? && AllPlain(ips, prefix) && |ips| == 3 && ip !in ips
    ensures Builds(Table([GeneratedName(prefix, 4)], [ip]), ips, prefix,
                   Table([GeneratedName(prefix, 4)] + NamesFrom(prefix, 1, 3), [ip] + ips))
  {
    var name := GeneratedName(prefix, 4);
    FourNames(prefix);
    assert [name][..1] == [name] && [ip][..1] == [ip];
    PlainStart([name], [ip], prefix, 4);
    JustAdd(Table([name], [ip]), [name], [ip], ips, prefix);
  }

  lemma InFrontTable(names: seq<string>, ips: seq<string>)
    requires |names| == |ips| == 4 && Distinct(names)
    ensures var table, one := Table(names, ips), Table(names[..1], ips[..1]);
            && Keys(table) == names
            && PutAll(KeepHosts(one, names), table) == table
            && Append(KeepNames(names[..1], names), Slice(names, 0, EtcdCount(names))) == names[..3]
  {
    var table, one := Table(names, ips), Table(names[..1], ips[..1]);
    assert Keys(table) == names && Keys(one) == names[..1] && table == one + table[1..];
    KeepAllHosts(one, names);
    KeepAllNames(names[..1], names);
    PutAllOverSelf(one, table[1..]);
    FrontOfFronts(names, 1, 3);
  }

  lemma FourNames(prefix: string)
    ensures var names := [GeneratedName(prefix, 4)] + NamesFrom(prefix, 1, 3); Distinct(names) && AllSpelled(names, prefix)
  {
    var names, block := [GeneratedName(prefix, 4)] + NamesFrom(prefix, 1, 3), NamesFrom(prefix, 1, 4);
    NamesAreSpelled(prefix, 1, 4);
    assert names[0] == block[3];
    assert forall i :: 0 < i < 4 ==> names[i] == block[i - 1];
  }

  // The third run deletes the only host it sees, and starts again with number 1.
  lemma StartAgainBatch(ips: seq<string>, more: seq<string>, p: Params) returns (batch: seq<string>, table: Hosts)
    requires !Free(p.prefix, '.') && HostId(p.prefix).None? && |ips| == 4 && AllPlain(more, p.prefix) && |more| == 4
    ensures var names := [GeneratedName(p.prefix, 4)] + NamesFrom(p.prefix, 1, 3);
            && Builds(Table(names, ips), batch, p.prefix, table)
            && Keys(table) == names[1..] + [names[0]]
  {
    var names, block := [GeneratedName(p.prefix, 4)] + NamesFrom(p.prefix, 1, 3), NamesFrom(p.prefix, 1, 4);
    FourNames(p.prefix);
    NamesAreSpelled(p.prefix, 1, 4);
    PlainStart(names, ips, p.prefix, 4);
    assert names[..1][1..] + block == block && ips[..1][1..] + more == more;
    assert names[1..] + [names[0]] == block;
    batch, table := DropBatch(names[0], more), Table(block, more);
    DropThenAdd(Table(names, ips), names[..1], ips[..1], more, p.prefix);
  }

  // The first two runs.
  lemma FourthInFrontReached(ips: seq<string>, more: seq<string>, p: Params) returns (first: seq<string>)
    requires !Free(p.prefix, '.') && HostId(p.prefix).None?
    requires AllPlain(ips, p.prefix) && |ips| == 4 && AllPlain(more, p.prefix) && |more| == 3 && ips[3] !in more
    ensures AllSpecs(first, IsIpSpec) && AllSpecs(more, IsIpSpec)
    ensures var names := [GeneratedName(p.prefix, 4)] + NamesFrom(p.prefix, 1, 3);
            Distinct(names) && Holds(After(After(None, first, p), more, p), Table(names, [ips[3]] + more), names[..3])
  {
    first := FourthReached(ips, p);
    assert ips[3..] == [ips[3]];
    FourthInFront(After(None, first, p), ips[3], more, p);
  }

  lemma PlainPrefixBreaks(ips: seq<string>, more: seq<string>, p: Params) returns (runs: seq<seq<string>>)
    requires !Free(p.prefix, '.') && HostId(p.prefix).None?
    requires AllPlain(ips, p.prefix) && |ips| == 4 && AllPlain(more, p.prefix) && |more| == 3 && ips[3] !in more
    ensures BreaksEtcd(runs, p)
  {
    var names, four := [GeneratedName(p.prefix, 4)] + NamesFrom(p.prefix, 1, 3), [ips[3]] + more;
    var first := FourthInFrontReached(ips, more, p);
    var last, table := StartAgainBatch(four, ips, p);
    MoveGrowsEtcd(After(After(None, first, p), more, p), Table(names, four), last, p, names, table);
    runs := ThreeRuns(first, more, last, p);
  }

  // -------------------------------------------------------------------------------------------
  // The theorem
  // -------------------------------------------------------------------------------------------

  /** After every history of runs made of such specs, etcd has the first of the ordered hosts. */
  ghost predicate EtcdAlways(p: Params, good: string -> bool) {
    forall runs: seq<seq<string>> {:trigger History(runs, p)} ::
      (forall i :: 0 <= i < |runs| ==> AllSpecs(runs[i], good)) && History(runs, p).Some? ==>
        EtcdIsPrefix(History(runs, p).value)
  }

  /**
   Every history of address and deletion runs from an empty inventory leaves etcd with the first of the
   ordered hosts, at most three and three if there are three, exactly when the host prefix has no dot.
   With a dot a name comes back behind the other hosts, while etcd keeps its old members. Ranges, and
   what the loop ignores, make no difference.
   */
  lemma EtcdHistoriesExactly(p: Params)
    ensures EtcdAlways(p, IsUnnamed) <==> Free(p.prefix, '.')
    ensures EtcdAlways(p, IsIpSpec) <==> Free(p.prefix, '.')
  {
    if Free(p.prefix, '.') {
      EtcdAlwaysUnnamed(p);
      EtcdAlwaysIps(p);
    } else {
      var broken := DottedPrefixBreaks(p);
      forall i | 0 <= i < |broken|
        ensures AllSpecs(broken[i], IsUnnamed)
      {
        NothingToExpand(broken[i]);
      }
      assert !(History(broken, p).Some? ==> EtcdIsPrefix(History(broken, p).value));
      assert !EtcdAlways(p, IsUnnamed);
      assert !EtcdAlways(p, IsIpSpec);
    }
  }

  lemma EtcdAlwaysUnnamed(p: Params)
    requires Free(p.prefix, '.')
    ensures EtcdAlways(p, IsUnnamed)
  {
    forall runs: seq<seq<string>> {:trigger History(runs, p)} |
      (forall i :: 0 <= i < |runs| ==> AllSpecs(runs[i], IsUnnamed)) && History(runs, p).Some?
      ensures EtcdIsPrefix(History(runs, p).value)
    {
      EtcdOverHistories(runs, p);
    }
  }

  lemma EtcdAlwaysIps(p: Params)
    requires EtcdAlways(p, IsUnnamed)
    ensures EtcdAlways(p, IsIpSpec)
  {
    forall runs: seq<seq<string>> {:trigger History(runs, p)} |
      (forall i :: 0 <= i < |runs| ==> AllSpecs(runs[i], IsIpSpec)) && History(runs, p).Some?
      ensures EtcdIsPrefix(History(runs, p).value)
    {
      forall i | 0 <= i < |runs|
        ensures AllSpecs(runs[i], IsUnnamed)
      {
        NothingToExpand(runs[i]);
      }
    }
  }

  lemma DottedPrefixBreaks(p: Params) returns (runs: seq<seq<string>>)
    requires !Free(p.prefix, '.')
    ensures BreaksEtcd(runs, p)
  {
    var ips := OutsideTexts(p.prefix, 0, 7);
    OutsideArePlain(p.prefix, 0, 7);
    if HostId(p.prefix).Some? {
      runs := NumberedPrefixBreaks(ips[4], ips[..4], p);
    } else {
      runs := PlainPrefixBreaks(ips[..4], ips[4..], p);
    }
  }
}
