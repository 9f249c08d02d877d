/**
 What one run of KubesprayInventory computes
 (assignment4/kubespray/contrib/inventory_builder/inventory.py), as functions of the configuration
 before it. The class in KubesprayInventory.dfy does the same in place.
 */
module Inventory {
  import opened Options
  import opened Decimal
  import opened Dicts
  import opened Text
  import opened Addresses
  import opened HostNames

  /** Where the Python code raises. */
  datatype Error =
    | ShowHelp      // no argument: help text and exit, nothing is written
    | BadRange      // not two addresses around one '-'
    | EmptySpec     // "" has no first character
    | FieldCount    // not two (or three) comma-separated fields
    | NoIp          // the options of a host have no 'ip'
    | Unbound       // a field that no earlier spec of the batch has set either
    | NoHostsKey    // a role group without 'hosts'
    | NullHosts     // membership test in an empty YAML value

  datatype Result<+T> = Ok(value: T) | Err(error: Error) {
    predicate IsFailure() { Err? }

    function PropagateFailure<U>(): Result<U>
      requires Err?
    {
      Err(error)
    }

    function Extract(): T
      requires Ok?
    {
      value
    }
  }

  type Opts = map<string, string>
  type Hosts = Dict<Opts>

  // -------------------------------------------------------------------------------------------
  // range2ips
  // -------------------------------------------------------------------------------------------

  predicate IsRange(spec: string) {
    '-' in spec && !(spec[0] == '-' || IsLetter(spec[0]))
  }

  function AddressRange(start: nat, end: nat): seq<string>
    decreases end - start
  {
    if start > end then [] else [AddressText(start)] + AddressRange(start + 1, end)
  }

  function Expand(spec: string): Result<seq<string>> {
    if IsRange(spec) then
      var parts := SplitAll(Strip(spec), '-');
      if |parts| != 2 || ParseAddress(parts[0]).None? || ParseAddress(parts[1]).None? then Err(BadRange)
      else Ok(AddressRange(ParseAddress(parts[0]).value, ParseAddress(parts[1]).value))
    else Ok([spec])
  }

  function ExpandAll(specs: seq<string>): Result<seq<string>> {
    if specs == [] then Ok([])
    else
      var first :- Expand(specs[0]);
      var rest :- ExpandAll(specs[1..]);
      Ok(first + rest)
  }

  // -------------------------------------------------------------------------------------------
  // build_hostnames
  // -------------------------------------------------------------------------------------------

  /** The hosts that are carried over: the scan stops after the first one without a number. */
  function Carried(hosts: Hosts): Hosts {
    if hosts == [] then []
    else if HostId(hosts[0].0).None? then [hosts[0]]
    else [hosts[0]] + Carried(hosts[1..])
  }

  /** The highest number seen by that scan. */
  function HighestId(hosts: Hosts, highest: nat): nat
    decreases |hosts|
  {
    if hosts == [] || HostId(hosts[0].0).None? then highest
    else
      var id := HostId(hosts[0].0).value;
      HighestId(hosts[1..], if id > highest then id else highest)
  }

  /** exists_ip; the error is that of get_ip_from_opts. */
  function ExistsIp(hosts: Hosts, ip: string): Result<bool> {
    if hosts == [] then Ok(false)
    else if "ip" !in hosts[0].1 then Err(NoIp)
    else if hosts[0].1["ip"] == ip then Ok(true)
    else ExistsIp(hosts[1..], ip)
  }

  /** delete_host_by_ip, where some host has the address. */
  function WithoutIp(hosts: Hosts, ip: string): Hosts {
    if hosts == [] then []
    else if "ip" in hosts[0].1 && hosts[0].1["ip"] == ip then hosts[1..]
    else [hosts[0]] + WithoutIp(hosts[1..], ip)
  }

  function OptsOf(accessIp: string, ip: string): Opts {
    map["ansible_host" := accessIp, "ip" := ip, "access_ip" := accessIp]
  }

  /** The variables of the loop; the fields of a spec stay set when a later spec does not set them. */
  datatype Build = Build(hosts: Hosts, nextId: nat, hostname: Option<string>, ip: Option<string>, accessIp: Option<string>)

  function StartBuild(hosts: Hosts): Build {
    Build(Carried(hosts), HighestId(hosts, 0) + 1, None, None, None)
  }

  function Delete(st: Build, target: string): Result<Build> {
    if target in Keys(st.hosts) then Ok(st.(hosts := Remove(st.hosts, target)))
    else
      var exists_ :- ExistsIp(st.hosts, target);
      Ok(if exists_ then st.(hosts := WithoutIp(st.hosts, target)) else st)
  }

  /** A spec that starts with a digit: `ip` or `ip,access_ip`. */
  function AddAddress(st: Build, spec: string, prefix: string): Result<Build> {
    var fields := SplitAll(spec, ',');
    if |fields| > 2 then Err(FieldCount)
    else
      var ip, accessIp := fields[0], fields[|fields| - 1];
      var set_ := st.(ip := Some(ip), accessIp := Some(accessIp));
      if spec in Keys(st.hosts) then Ok(set_)
      else
        var exists_ :- ExistsIp(st.hosts, ip);
        Ok(if exists_ then set_
           else set_.(hosts := Put(st.hosts, GeneratedName(prefix, st.nextId), OptsOf(accessIp, ip)),
                      nextId := st.nextId + 1))
  }

  /** A spec that starts with a letter: `name,ip` or `name,ip,access_ip`. */
  function AddNamed(st: Build, spec: string): Result<Build> {
    var fields := SplitAll(spec, ',');
    if |fields| > 3 then Err(FieldCount)
    else
      var set_ := if |fields| == 1 then st
                  else st.(hostname := Some(fields[0]), ip := Some(fields[1]), accessIp := Some(fields[|fields| - 1]));
      if spec in Keys(st.hosts) then Ok(set_)
      else if set_.ip.None? then Err(Unbound)
      else
        var exists_ :- ExistsIp(st.hosts, set_.ip.value);
        if exists_ then Ok(set_)
        else if set_.hostname.None? || set_.accessIp.None? then Err(Unbound)
        else Ok(set_.(hosts := Put(st.hosts, set_.hostname.value, OptsOf(set_.accessIp.value, set_.ip.value))))
  }

  function Step(st: Build, spec: string, prefix: string): Result<Build> {
    if spec == "" then Err(EmptySpec)
    else if spec[0] == '-' then Delete(st, spec[1..])
    else if IsDigit(spec[0]) then AddAddress(st, spec, prefix)
    else if IsLetter(spec[0]) then AddNamed(st, spec)
    else Ok(st)
  }

  function Steps(st: Build, specs: seq<string>, prefix: string): Result<Build>
    decreases |specs|
  {
    if specs == [] then Ok(st)
    else
      var next :- Step(st, specs[0], prefix);
      Steps(next, specs[1..], prefix)
  }

  function BuildHostnames(hosts: Hosts, specs: seq<string>, prefix: string): Result<Hosts> {
    var end :- Steps(StartBuild(hosts), specs, prefix);
    Ok(end.hosts)
  }

  // -------------------------------------------------------------------------------------------
  // The configuration
  // -------------------------------------------------------------------------------------------

  /** The `hosts` entry of a group: missing, an empty YAML value, or the names in order. */
  datatype HostsField = Absent | Null | Names(names: seq<string>)

  /** A group under all.children: its `hosts` entry and the other keys of its record. */
  datatype Group = Group(hosts: HostsField, others: set<string>)

  /** yaml_config['all']: its hosts (None for an empty YAML value) and its child groups. */
  datatype Config = Config(hosts: Option<Hosts>, children: map<string, Group>)

  /** The environment settings. */
  datatype Params = Params(prefix: string, masters: int, scale: int, massive: int)

  const CLUSTER := "k8s-cluster"
  const ROLES: seq<string> := ["all", "kube-master", "kube-node", "etcd", "k8s-cluster", "calico-rr"]

  predicate IsProtected(name: string) {
    name in ROLES
  }

  function HostsOf(cfg: Config): Hosts {
    if cfg.hosts.Some? then cfg.hosts.value else []
  }

  function NamesOf(f: HostsField): seq<string> {
    if f.Names? then f.names else []
  }

  function WithGroups(children: map<string, Group>, groups: seq<string>): map<string, Group>
    decreases |groups|
  {
    if groups == [] then children
    else WithGroups(if groups[0] == "all" || groups[0] in children then children
                    else children[groups[0] := Group(Names([]), {})], groups[1..])
  }

  /** ensure_required_groups(ROLES) */
  function Ensured(cfg: Option<Config>): Config {
    var c := if cfg.Some? then cfg.value else Config(Some([]), map[]);
    c.(children := WithGroups(c.children, ROLES))
  }

  // Which names the purge leaves alone.
  predicate Kept(name: string, hostnames: seq<string>) {
    name in hostnames || IsProtected(name)
  }

  function KeepNames(names: seq<string>, hostnames: seq<string>): seq<string> {
    if names == [] then []
    else KeepNames(names[..|names| - 1], hostnames) +
         if Kept(names[|names| - 1], hostnames) then [names[|names| - 1]] else []
  }

  function KeepHosts(hosts: Hosts, hostnames: seq<string>): Hosts {
    if hosts == [] then []
    else KeepHosts(hosts[..|hosts| - 1], hostnames) +
         if Kept(hosts[|hosts| - 1].0, hostnames) then [hosts[|hosts| - 1]] else []
  }

  function PurgedGroup(g: Group, hostnames: seq<string>): Group {
    if g.hosts.Names? then g.(hosts := Names(KeepNames(g.hosts.names, hostnames))) else g
  }

  /** purge_invalid_hosts with the protected names. */
  function Purged(cfg: Config, hostnames: seq<string>): Config {
    Config(if cfg.hosts.Some? then Some(KeepHosts(cfg.hosts.value, hostnames)) else None,
           map role | role in cfg.children ::
             if role == CLUSTER then cfg.children[role] else PurgedGroup(cfg.children[role], hostnames))
  }

  predicate CanPurge(cfg: Config) {
    forall role :: role in cfg.children && role != CLUSTER ==> !cfg.children[role].hosts.Absent?
  }

  /** The names added one after the other; a name that is present keeps its place. */
  function Append(names: seq<string>, hosts: seq<string>): seq<string>
    decreases |hosts|
  {
    if hosts == [] then names
    else Append(if hosts[0] in names then names else names + [hosts[0]], hosts[1..])
  }

  lemma {:induction false} AppendConcat(names: seq<string>, a: seq<string>, b: seq<string>)
    ensures Append(names, a + b) == Append(Append(names, a), b)
    decreases |a|
  {
    if a == [] {
      assert a + b == b;
    } else {
      assert (a + b)[1..] == a[1..] + b;
      AppendConcat(if a[0] in names then names else names + [a[0]], a[1..], b);
    }
  }

  function AppendField(f: HostsField, hosts: seq<string>): HostsField {
    if hosts == [] then f else Names(Append(NamesOf(f), hosts))
  }

  function AddToGroup(cfg: Config, group: string, hosts: seq<string>): Config
    requires group in cfg.children
  {
    var g := cfg.children[group];
    cfg.(children := cfg.children[group := g.(hosts := AppendField(g.hosts, hosts))])
  }

  /** set_all */
  function WithAll(cfg: Config, hosts: Hosts): Config {
    cfg.(hosts := if hosts == [] then cfg.hosts else Some(PutAll(HostsOf(cfg), hosts)))
  }

  /** set_k8s_cluster: the whole record is replaced. */
  function WithCluster(cfg: Config): Config {
    cfg.(children := cfg.children[CLUSTER := Group(Absent, {"children"})])
  }

  /** Python's s[lo:hi] */
  function Slice(s: seq<string>, lo: int, hi: int): seq<string> {
    var from, to := Clip(lo, |s|), Clip(hi, |s|);
    if from <= to then s[from..to] else []
  }

  function Clip(i: int, n: nat): (k: nat)
    ensures k <= n
  {
    if i >= n then n else if i >= 0 then i else if i + n >= 0 then i + n else 0
  }

  function EtcdCount(hosts: seq<string>): nat {
    if |hosts| >= 3 then 3 else 1
  }

  function MasterHosts(hosts: seq<string>, p: Params): seq<string> {
    if |hosts| >= p.scale then Slice(hosts, EtcdCount(hosts), EtcdCount(hosts) + p.masters)
    else Slice(hosts, 0, p.masters)
  }

  predicate SkipsEtcd(cfg: Config, p: Params) {
    |HostsOf(cfg)| >= p.scale
  }

  predicate SkipsMaster(cfg: Config, p: Params) {
    |HostsOf(cfg)| >= p.massive
  }

  /** The hosts that set_kube_node adds; the error is the test `in None`. */
  function NodeHosts(cfg: Config, hosts: seq<string>, p: Params): Result<seq<string>>
    requires "etcd" in cfg.children && "kube-master" in cfg.children
    decreases |hosts|
  {
    if hosts == [] then Ok([])
    else
      var etcd, master := cfg.children["etcd"].hosts, cfg.children["kube-master"].hosts;
      if SkipsEtcd(cfg, p) && !etcd.Names? then Err(NullHosts)
      else if SkipsEtcd(cfg, p) && hosts[0] in etcd.names then NodeHosts(cfg, hosts[1..], p)
      else if SkipsMaster(cfg, p) && !master.Names? then Err(NullHosts)
      else if SkipsMaster(cfg, p) && hosts[0] in master.names then NodeHosts(cfg, hosts[1..], p)
      else
        var rest :- NodeHosts(cfg, hosts[1..], p);
        Ok([hosts[0]] + rest)
  }

  /** The keys of a group's record, where set_calico_rr looks for the host name. */
  function RecordKeys(g: Group): set<string> {
    g.others + if g.hosts.Absent? then {} else {"hosts"}
  }

  /** The hosts that set_calico_rr adds. */
  function CalicoHosts(cfg: Config, hosts: seq<string>): seq<string>
    requires "kube-master" in cfg.children && "kube-node" in cfg.children
  {
    if hosts == [] then []
    else
      (if hosts[0] in RecordKeys(cfg.children["kube-master"]) || hosts[0] in RecordKeys(cfg.children["kube-node"])
       then [] else [hosts[0]])
      + CalicoHosts(cfg, hosts[1..])
  }

  predicate HasRoles(cfg: Config) {
    "kube-master" in cfg.children && "kube-node" in cfg.children && "etcd" in cfg.children && "calico-rr" in cfg.children
  }

  /** Lines 99-111: from the purge to calico-rr. */
  function Assigned(cfg: Config, hosts: Hosts, p: Params): Result<Config>
    requires HasRoles(cfg)
  {
    if !CanPurge(cfg) then Err(NoHostsKey)
    else
      var names := Keys(hosts);
      var c1 := WithCluster(WithAll(Purged(cfg, names), hosts));
      var c2 := AddToGroup(c1, "etcd", Slice(names, 0, EtcdCount(names)));
      var c3 := AddToGroup(c2, "kube-master", MasterHosts(names, p));
      var nodes :- NodeHosts(c3, names, p);
      var c4 := AddToGroup(c3, "kube-node", nodes);
      Ok(if |hosts| >= p.scale
         then AddToGroup(c4, "calico-rr", CalicoHosts(c4, Slice(names, 0, EtcdCount(names))))
         else c4)
  }

  /** What a run leaves: the configuration it writes and its own host table. */
  datatype Outcome = Outcome(config: Config, hosts: Hosts)

  lemma {:induction false} WithGroupsHas(children: map<string, Group>, groups: seq<string>)
    ensures forall g :: g in children ==> g in WithGroups(children, groups) && WithGroups(children, groups)[g] == children[g]
    ensures forall g :: g in groups && g != "all" ==> g in WithGroups(children, groups)
    ensures forall g :: g in WithGroups(children, groups) && g !in children ==>
              g in groups && WithGroups(children, groups)[g] == Group(Names([]), {})
    decreases |groups|
  {
    if groups != [] {
      var next := if groups[0] == "all" || groups[0] in children then children
                  else children[groups[0] := Group(Names([]), {})];
      WithGroupsHas(next, groups[1..]);
    }
  }

  lemma EnsuredHasRoles(cfg: Option<Config>)
    ensures HasRoles(Ensured(cfg)) && CLUSTER in Ensured(cfg).children
  {
  }

  /** One run: __init__ with an in-memory configuration. An error leaves nothing written. */
  function Run(cfg: Option<Config>, changedHosts: seq<string>, p: Params): Result<Outcome> {
    if changedHosts == [] then Err(ShowHelp)
    else
      var start := Ensured(cfg);
      var specs :- ExpandAll(changedHosts);
      var hosts :- BuildHostnames(HostsOf(start), specs, p.prefix);
      EnsuredHasRoles(cfg);
      var config :- Assigned(start, hosts, p);
      Ok(Outcome(config, hosts))
  }
}
