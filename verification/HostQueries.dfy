/**
 The last stage of assignment4/kubespray/contrib/terraform/terraform.py: the floating-IP pass over
 the hosts and the two queries, an index of all groups and a search for one host.
 */
module HostQueries {
  import opened Options

  /** An attribute value; a Scalar is None, a number or a boolean. */
  datatype Attr = Text(s: string) | Scalar(id: int) | Table(entries: map<string, Attr>) | Items(items: seq<Attr>)

  type Attrs = map<string, Attr>

  /** What the queries see of a host. */
  datatype View = View(name: string, attrs: Attrs, groups: seq<string>)

  class Host {
    const name: string
    var attrs: Attrs
    const groups: seq<string>

    constructor (name: string, attrs: Attrs, groups: seq<string>)
      ensures this.name == name && this.attrs == attrs && this.groups == groups
    {
      this.name, this.attrs, this.groups := name, attrs, groups;
    }

    function AsView(): View
      reads this
    {
      View(name, attrs, groups)
    }
  }

  function Views(hosts: seq<Host>): seq<View>
    reads hosts
  {
    seq(|hosts|, i requires 0 <= i < |hosts| reads hosts => hosts[i].AsView())
  }

  // -------------------------------------------------------------------------------------------
  // The floating-IP pass
  // -------------------------------------------------------------------------------------------

  const ADDRESS_KEYS: set<string> := {"access_ip_v4", "access_ip", "public_ipv4", "ansible_ssh_host"}

  function WithAddress(attrs: Attrs, ip: string): Attrs {
    attrs["access_ip_v4" := Text(ip)]["access_ip" := Text(ip)]["public_ipv4" := Text(ip)]["ansible_ssh_host" := Text(ip)]
  }

  predicate HasFloatingIp(attrs: Attrs, ips: map<string, string>) {
    "id" in attrs && attrs["id"].Text? && attrs["id"].s in ips
  }

  predicate HidesAccessIp(attrs: Attrs) {
    && "metadata" in attrs && attrs["metadata"].Table?
    && "use_access_ip" in attrs["metadata"].entries && attrs["metadata"].entries["use_access_ip"] == Text("0")
  }

  predicate Contains(s: string, part: string) {
    exists i :: 0 <= i <= |s| && part <= s[i..]
  }

  /** `host_id in ips` raises no TypeError: the value is hashable. */
  predicate IsUsableId(id: Attr) {
    id.Text? || id.Scalar?
  }

  /** Neither `in` nor the subscript behind it raises a TypeError; text and lists have no such key. */
  predicate IsReadable(metadata: Attr) {
    match metadata
    case Text(s) => !Contains(s, "use_access_ip")
    case Scalar(_) => false
    case Table(_) => true
    case Items(items) => Text("use_access_ip") !in items
  }

  /** The pass over this host raises no error. */
  predicate CanFloat(attrs: Attrs, ips: map<string, string>) {
    && "id" in attrs && IsUsableId(attrs["id"])
    && "metadata" in attrs && IsReadable(attrs["metadata"])
    && (HidesAccessIp(attrs) ==> HasFloatingIp(attrs, ips) || "access_ip" in attrs)
  }

  function Addressed(attrs: Attrs, ips: map<string, string>): Attrs {
    if HasFloatingIp(attrs, ips) then WithAddress(attrs, ips[attrs["id"].s]) else attrs
  }

  function Floated(attrs: Attrs, ips: map<string, string>): Attrs {
    if HidesAccessIp(attrs) then Addressed(attrs, ips) - {"access_ip"} else Addressed(attrs, ips)
  }

  /**
   What the pass does to a host that it accepts, for each attribute: with a floating IP all four
   addresses are there and are that one, without one nothing is new; `access_ip` is missing if the
   metadata asks for it.
   */
  ghost predicate IsFloated(before: Attrs, after: Attrs, ips: map<string, string>) {
    var floats := "id" in before && before["id"].Text? && before["id"].s in ips;
    var hides := "metadata" in before && before["metadata"].Table? &&
                 "use_access_ip" in before["metadata"].entries &&
                 before["metadata"].entries["use_access_ip"] == Text("0");
    && (forall k :: k !in {"access_ip_v4", "access_ip", "public_ipv4", "ansible_ssh_host"} ==>
          (k in after <==> k in before) && (k in before ==> after[k] == before[k]))
    && (floats ==>
          var ip := Text(ips[before["id"].s]);
          && "access_ip_v4" in after && after["access_ip_v4"] == ip
          && "public_ipv4" in after && after["public_ipv4"] == ip
          && "ansible_ssh_host" in after && after["ansible_ssh_host"] == ip
          && ("access_ip" in after <==> !hides)
          && ("access_ip" in after ==> after["access_ip"] == ip))
    && (!floats ==> after == if hides then before - {"access_ip"} else before)
  }

  lemma FloatedIsFloated(attrs: Attrs, ips: map<string, string>)
    ensures IsFloated(attrs, Floated(attrs, ips), ips)
  {
  }

  /**
   Where the pass fails: a KeyError for `id`, `metadata` or the `access_ip` to be removed, or a
   TypeError for an `id` that is not hashable or for `metadata` without text keys.
   */
  ghost predicate FailsToFloat(attrs: Attrs, ips: map<string, string>) {
    || "id" !in attrs || attrs["id"].Table? || attrs["id"].Items?
    || "metadata" !in attrs || attrs["metadata"].Scalar?
    || (attrs["metadata"].Text? && exists a, b :: attrs["metadata"].s == a + "use_access_ip" + b)
    || (attrs["metadata"].Items? && Text("use_access_ip") in attrs["metadata"].items)
    || (attrs["metadata"].Table? && "use_access_ip" in attrs["metadata"].entries &&
        attrs["metadata"].entries["use_access_ip"] == Text("0") &&
        "access_ip" !in attrs && !(attrs["id"].Text? && attrs["id"].s in ips))
  }

  lemma ContainsMeans(s: string, part: string)
    ensures Contains(s, part) <==> exists a, b :: s == a + part + b
  {
    if Contains(s, part) {
      var i :| 0 <= i <= |s| && part <= s[i..];
      assert s == s[..i] + part + s[i + |part|..];
    }
    if a, b :| s == a + part + b {
      assert s[|a|..] == part + b;
    }
  }

  lemma CanFloatExactly(attrs: Attrs, ips: map<string, string>)
    ensures CanFloat(attrs, ips) <==> !FailsToFloat(attrs, ips)
  {
    if "metadata" in attrs && attrs["metadata"].Text? {
      ContainsMeans(attrs["metadata"].s, "use_access_ip");
    }
  }

  /** One host in the pass; a host that fails has its addresses at most. */
  method FloatHost(host: Host, ips: map<string, string>) returns (ok: bool)
    modifies host
    ensures ok <==> CanFloat(old(host.attrs), ips)
    ensures host.attrs == if ok then Floated(old(host.attrs), ips) else Addressed(old(host.attrs), ips)
    ensures ok <==> !FailsToFloat(old(host.attrs), ips)
    ensures ok ==> IsFloated(old(host.attrs), host.attrs, ips)
  {
    CanFloatExactly(host.attrs, ips);
    FloatedIsFloated(host.attrs, ips);
    if "id" !in host.attrs || !IsUsableId(host.attrs["id"]) {
      return false;
    }
    var hostId := host.attrs["id"];
    if hostId.Text? && hostId.s in ips {
      host.attrs := WithAddress(host.attrs, ips[hostId.s]);
    }
    if "metadata" !in host.attrs || !IsReadable(host.attrs["metadata"]) {
      return false;
    }
    var metadata := host.attrs["metadata"];
    if metadata.Table? && "use_access_ip" in metadata.entries && metadata.entries["use_access_ip"] == Text("0") {
      if "access_ip" !in host.attrs {
        return false;
      }
      host.attrs := host.attrs - {"access_ip"};
    }
    ok := true;
  }

  /** false is the error at the first host that cannot be updated: those after it are as they were. */
  method IterHostIps(hosts: seq<Host>, ips: map<string, string>) returns (ok: bool)
    requires forall i, j :: 0 <= i < j < |hosts| ==> hosts[i] != hosts[j]
    modifies hosts
    ensures ok <==> forall i :: 0 <= i < |hosts| ==> CanFloat(old(hosts[i].attrs), ips)
    ensures forall i :: 0 <= i < |hosts| && (forall j :: 0 <= j < i ==> CanFloat(old(hosts[j].attrs), ips)) ==>
              hosts[i].attrs == if CanFloat(old(hosts[i].attrs), ips) then Floated(old(hosts[i].attrs), ips)
                                else Addressed(old(hosts[i].attrs), ips)
    ensures forall i, j :: 0 <= j < i < |hosts| && !CanFloat(old(hosts[j].attrs), ips) ==>
              hosts[i].attrs == old(hosts[i].attrs)
  {
    for n := 0 to |hosts|
      invariant forall i :: 0 <= i < n ==> CanFloat(old(hosts[i].attrs), ips)
      invariant forall i :: 0 <= i < n ==> hosts[i].attrs == Floated(old(hosts[i].attrs), ips)
      invariant forall i :: n <= i < |hosts| ==> hosts[i].attrs == old(hosts[i].attrs)
    {
      ok := FloatHost(hosts[n], ips);
      if !ok {
        return;
      }
    }
    ok := true;
  }

  /** The pass touches only the four address attributes, and they agree afterwards. */
  lemma FloatedChangesAddressesOnly(attrs: Attrs, ips: map<string, string>)
    ensures IsFloated(attrs, Floated(attrs, ips), ips)
    ensures forall k :: k !in ADDRESS_KEYS ==> (k in Floated(attrs, ips) <==> k in attrs)
    ensures forall k :: k !in ADDRESS_KEYS && k in attrs ==> Floated(attrs, ips)[k] == attrs[k]
    ensures HasFloatingIp(attrs, ips) ==>
              forall k :: k in ADDRESS_KEYS && k in Floated(attrs, ips) ==> Floated(attrs, ips)[k] == Text(ips[attrs["id"].s])
    ensures "access_ip" in Floated(attrs, ips) <==>
              !HidesAccessIp(attrs) && (HasFloatingIp(attrs, ips) || "access_ip" in attrs)
  {
  }

  /**
   Running the pass again changes nothing, but it fails on a host without a floating IP whose
   access_ip the first run has removed.
   */
  lemma FloatedTwice(attrs: Attrs, ips: map<string, string>)
    requires CanFloat(attrs, ips)
    ensures CanFloat(Floated(attrs, ips), ips) <==> HasFloatingIp(attrs, ips) || !HidesAccessIp(attrs)
    ensures CanFloat(Floated(attrs, ips), ips) ==> Floated(Floated(attrs, ips), ips) == Floated(attrs, ips)
  {
  }

  // -------------------------------------------------------------------------------------------
  // The queries
  // -------------------------------------------------------------------------------------------

  /** query_host: the attributes of the first host of that name, or an empty dictionary. */
  function FirstNamed(hosts: seq<View>, target: string): Attrs {
    if hosts == [] then map[]
    else if hosts[0].name == target then hosts[0].attrs
    else FirstNamed(hosts[1..], target)
  }

  method QueryHost(hosts: seq<View>, target: string) returns (attrs: Attrs)
    ensures attrs == FirstNamed(hosts, target)
  {
    for i := 0 to |hosts|
      invariant FirstNamed(hosts, target) == FirstNamed(hosts[i..], target)
    {
      if hosts[i].name == target {
        return hosts[i].attrs;
      }
    }
    attrs := map[];
  }

  /** The index: the members of each group, and the variables of each host under `_meta`. */
  datatype Index = Index(groups: map<string, seq<string>>, hostvars: map<string, Attrs>)

  /** How often a host with these groups is entered in group g; the empty group counts as `all`. */
  function Multiplicity(groups: set<string>, g: string): nat {
    (if g in groups && g != "" then 1 else 0) + (if g == "all" && "" in groups then 1 else 0)
  }

  /** The name under which a listed group is indexed. */
  function Indexed(g: string): string {
    if g == "" then "all" else g
  }

  function GroupSet(host: View): set<string> {
    set g | g in host.groups
  }

  function Repeat(name: string, times: nat): seq<string> {
    seq(times, _ => name)
  }

  /** The members of g, in the order of the hosts. */
  function Members(hosts: seq<View>, g: string): seq<string> {
    if hosts == [] then []
    else
      var last := hosts[|hosts| - 1];
      Members(hosts[..|hosts| - 1], g) + Repeat(last.name, Multiplicity(GroupSet(last), g))
  }

  function Listed(groups: map<string, seq<string>>, g: string): seq<string> {
    if g in groups then groups[g] else []
  }

  /** groups[group].setdefault('hosts', []).append(name) */
  function Appended(groups: map<string, seq<string>>, g: string, name: string): map<string, seq<string>> {
    groups[g := Listed(groups, g) + [name]]
  }

  /**
   What query_list returns for these hosts. The `_meta` entry holds the host variables; a group of that
   name is lost.
   */
  ghost predicate IsIndexOf(hosts: seq<View>, index: Index) {
    && "_meta" !in index.groups
    && (forall g :: g in index.groups ==> index.groups[g] != [])
    && (forall g :: g != "_meta" ==> Listed(index.groups, g) == Members(hosts, g))
    && index.hostvars == LastNamed(hosts)
  }

  method QueryList(hosts: seq<View>) returns (index: Index)
    ensures IsIndexOf(hosts, index)
  {
    var groups: map<string, seq<string>> := map[];
    var meta: map<string, Attrs> := map[];
    for i := 0 to |hosts|
      invariant forall g :: g in groups ==> groups[g] != []
      invariant forall g :: Listed(groups, g) == Members(hosts[..i], g)
      invariant meta == LastNamed(hosts[..i])
    {
      assert hosts[..i + 1][..i] == hosts[..i];
      groups := EnterHost(groups, hosts[i]);
      meta := meta[hosts[i].name := hosts[i].attrs];
    }
    assert hosts[..|hosts|] == hosts;
    index := Index(groups - {"_meta"}, meta);
  }

  /** The loop over set(hostgroups), in whatever order the set is traversed. */
  method EnterHost(start: map<string, seq<string>>, host: View) returns (groups: map<string, seq<string>>)
    requires forall g :: g in start ==> start[g] != []
    ensures forall g :: g in groups ==> groups[g] != []
    ensures forall g :: Listed(groups, g) == Listed(start, g) + Repeat(host.name, Multiplicity(GroupSet(host), g))
  {
    groups := start;
    var hostgroups := GroupSet(host);
    var todo := hostgroups;
    while todo != {}
      invariant todo <= hostgroups
      invariant forall g :: g in groups ==> groups[g] != []
      invariant forall g :: Listed(groups, g) ==
                            Listed(start, g) + Repeat(host.name, Multiplicity(hostgroups - todo, g))
      decreases |todo|
    {
      var group :| group in todo;
      var named := Indexed(group);
      assert hostgroups - (todo - {group}) == hostgroups - todo + {group};
      Entered(start, groups, host.name, hostgroups - todo, group);
      groups := Appended(groups, named, host.name);
      todo := todo - {group};
    }
    assert hostgroups - todo == hostgroups;
  }

  // One iteration over the groups of a host.
  lemma Entered(start: map<string, seq<string>>, groups: map<string, seq<string>>, name: string,
                done: set<string>, group: string)
    requires group !in done
    requires forall g :: Listed(groups, g) == Listed(start, g) + Repeat(name, Multiplicity(done, g))
    ensures forall g :: Listed(Appended(groups, Indexed(group), name), g) ==
                        Listed(start, g) + Repeat(name, Multiplicity(done + {group}, g))
  {
  }

  /** The variables of each host name, those of the last host of that name. */
  function LastNamed(hosts: seq<View>): map<string, Attrs> {
    if hosts == [] then map[]
    else LastNamed(hosts[..|hosts| - 1])[hosts[|hosts| - 1].name := hosts[|hosts| - 1].attrs]
  }

  predicate DistinctNames(hosts: seq<View>) {
    forall i, j :: 0 <= i < j < |hosts| ==> hosts[i].name != hosts[j].name
  }

  lemma {:induction false} MembersAre(hosts: seq<View>, g: string, name: string)
    ensures name in Members(hosts, g) <==>
            exists i :: 0 <= i < |hosts| && hosts[i].name == name && Multiplicity(GroupSet(hosts[i]), g) > 0
  {
    if hosts != [] {
      var n := |hosts| - 1;
      var last := hosts[n];
      MembersAre(hosts[..n], g, name);
      if i :| 0 <= i < |hosts| && hosts[i].name == name && Multiplicity(GroupSet(hosts[i]), g) > 0 {
        if i < n {
          assert hosts[..n][i] == hosts[i];
        } else {
          assert Repeat(last.name, Multiplicity(GroupSet(last), g))[0] == name;
        }
      }
    }
  }

  lemma {:induction false} NotAMember(hosts: seq<View>, g: string, name: string)
    requires forall i :: 0 <= i < |hosts| ==> hosts[i].name != name
    ensures multiset(Members(hosts, g))[name] == 0
  {
    MembersAre(hosts, g, name);
  }

  lemma {:induction false} OccurrencesOfRepeat(name: string, times: nat)
    ensures multiset(Repeat(name, times))[name] == times
  {
    if times > 0 {
      assert Repeat(name, times) == Repeat(name, times - 1) + [name];
      OccurrencesOfRepeat(name, times - 1);
    }
  }

  predicate Lists(host: View, g: string) {
    exists h :: h in host.groups && Indexed(h) == g
  }

  lemma {:induction false} MembersInvertListing(hosts: seq<View>, i: nat, g: string)
    requires DistinctNames(hosts) && i < |hosts|
    ensures hosts[i].name in Members(hosts, g) <==> Lists(hosts[i], g)
    ensures multiset(Members(hosts, g))[hosts[i].name] ==
            if g == "all" && "" in hosts[i].groups && "all" in hosts[i].groups then 2
            else if Lists(hosts[i], g) then 1
            else 0
  {
    var n := |hosts| - 1;
    var last := hosts[n];
    var name := hosts[i].name;
    var times := Multiplicity(GroupSet(last), g);
    MultiplicityIsListing(hosts[i], g);
    if i < n {
      MembersInvertListing(hosts[..n], i, g);
      assert name != last.name;
    } else {
      NotAMember(hosts[..n], g, name);
      OccurrencesOfRepeat(name, times);
    }
    assert name in Members(hosts, g) <==> multiset(Members(hosts, g))[name] > 0;
  }

  /**
   Within a group of the index the order is that of the hosts: each entry comes from a host that lists
   the group, and no entry comes from an earlier host than the one before it.
   */
  lemma {:induction false} MembersInOrder(hosts: seq<View>, g: string) returns (places: seq<nat>)
    ensures |places| == |Members(hosts, g)|
    ensures forall k :: 0 <= k < |places| ==>
              places[k] < |hosts| && Members(hosts, g)[k] == hosts[places[k]].name && Lists(hosts[places[k]], g)
    ensures forall k, l :: 0 <= k < l < |places| ==> places[k] <= places[l]
  {
    if hosts == [] {
      places := [];
    } else {
      var n := |hosts| - 1;
      var times := Multiplicity(GroupSet(hosts[n]), g);
      var before := MembersInOrder(hosts[..n], g);
      MultiplicityIsListing(hosts[n], g);
      places := before + seq(times, _ => n);
      assert forall k :: 0 <= k < |before| ==> hosts[..n][before[k]] == hosts[before[k]];
    }
  }

  /** The order within a group of the index. */
  lemma IndexKeepsOrder(hosts: seq<View>, index: Index, g: string) returns (places: seq<nat>)
    requires IsIndexOf(hosts, index) && g != "_meta"
    ensures |places| == |Listed(index.groups, g)|
    ensures forall k :: 0 <= k < |places| ==>
              places[k] < |hosts| && Listed(index.groups, g)[k] == hosts[places[k]].name && Lists(hosts[places[k]], g)
    ensures forall k, l :: 0 <= k < l < |places| ==> places[k] <= places[l]
  {
    places := MembersInOrder(hosts, g);
  }

  /**
   The index is the inverse of the hosts' group lists: with distinct host names, a host occurs in
   group g of the index exactly when it lists a group indexed as g, and exactly once, except that it is
   entered twice in `all` when it lists both "" and "all". Nobody is in a group `_meta`, so for all
   groups together this holds exactly when no host lists one of that name.
   */
  lemma IndexInvertsMembership(hosts: seq<View>, index: Index)
    requires DistinctNames(hosts) && IsIndexOf(hosts, index)
    ensures forall i, g :: 0 <= i < |hosts| && g != "_meta" ==>
              multiset(Listed(index.groups, g))[hosts[i].name] ==
              if g == "all" && "" in hosts[i].groups && "all" in hosts[i].groups then 2
              else if Lists(hosts[i], g) then 1
              else 0
    ensures forall g, name :: name in Listed(index.groups, g) ==> exists i :: 0 <= i < |hosts| && hosts[i].name == name
    ensures IsInverse(hosts, index) <==> forall i :: 0 <= i < |hosts| ==> "_meta" !in hosts[i].groups
  {
    forall i, g | 0 <= i < |hosts| && g != "_meta"
      ensures hosts[i].name in Listed(index.groups, g) <==> Lists(hosts[i], g)
      ensures multiset(Listed(index.groups, g))[hosts[i].name] ==
              if g == "all" && "" in hosts[i].groups && "all" in hosts[i].groups then 2
              else if Lists(hosts[i], g) then 1
              else 0
    {
      MembersInvertListing(hosts, i, g);
    }
    forall g, name | name in Listed(index.groups, g)
      ensures exists i :: 0 <= i < |hosts| && hosts[i].name == name
    {
      MembersAre(hosts, g, name);
    }
    forall i | 0 <= i < |hosts|
      ensures (hosts[i].name in Listed(index.groups, "_meta") <==> Lists(hosts[i], "_meta")) <==>
              "_meta" !in hosts[i].groups
    {
      assert Indexed("_meta") == "_meta" && Indexed("") != "_meta";
    }
    if IsInverse(hosts, index) {
      forall i | 0 <= i < |hosts|
        ensures "_meta" !in hosts[i].groups
      {
        assert hosts[i].name in Listed(index.groups, "_meta") <==> Lists(hosts[i], "_meta");
      }
    }
  }

  /** A host is in a group of the index exactly when it lists it. */
  ghost predicate IsInverse(hosts: seq<View>, index: Index) {
    forall i, g :: 0 <= i < |hosts| ==> (hosts[i].name in Listed(index.groups, g) <==> Lists(hosts[i], g))
  }

  lemma MultiplicityIsListing(host: View, g: string)
    ensures Multiplicity(GroupSet(host), g) > 0 <==> Lists(host, g)
    ensures Multiplicity(GroupSet(host), g) == 2 <==> g == "all" && "" in host.groups && "all" in host.groups
  {
    assert Indexed("") == "all" && (g == "" || Indexed(g) == g);
  }

  /** With distinct names the index and the search give the same variables for every name. */
  lemma {:induction false} HostvarsAgreeWithSearch(hosts: seq<View>, target: string)
    requires DistinctNames(hosts)
    ensures FirstNamed(hosts, target) == if target in LastNamed(hosts) then LastNamed(hosts)[target] else map[]
    ensures target in LastNamed(hosts) <==> exists i :: 0 <= i < |hosts| && hosts[i].name == target
  {
    if hosts != [] {
      var n := |hosts| - 1;
      HostvarsAgreeWithSearch(hosts[..n], target);
      FirstOfAppended(hosts[..n], hosts[n], target);
      assert hosts[..n] + [hosts[n]] == hosts;
      assert forall i :: 0 <= i < n ==> hosts[..n][i] == hosts[i];
    }
  }

  lemma {:induction false} FirstOfAppended(hosts: seq<View>, last: View, target: string)
    ensures FirstNamed(hosts + [last], target) ==
            if exists i :: 0 <= i < |hosts| && hosts[i].name == target then FirstNamed(hosts, target)
            else if last.name == target then last.attrs else map[]
  {
    if hosts != [] {
      assert (hosts + [last])[1..] == hosts[1..] + [last];
      FirstOfAppended(hosts[1..], last, target);
      assert forall i :: 0 <= i < |hosts[1..]| ==> hosts[1..][i] == hosts[i + 1];
      if i :| 0 <= i < |hosts| && hosts[i].name == target {
        assert i > 0 ==> hosts[1..][i - 1].name == target;
      }
    }
  }

  // The search finds a host at or before, the index one at or behind, each host of that name.
  lemma {:induction false} FirstIsEarly(hosts: seq<View>, i: nat) returns (k: nat)
    requires i < |hosts|
    ensures k <= i && FirstNamed(hosts, hosts[i].name) == hosts[k].attrs
  {
    if hosts[0].name == hosts[i].name {
      k := 0;
    } else {
      k := FirstIsEarly(hosts[1..], i - 1);
      k := k + 1;
    }
  }

  lemma {:induction false} LastIsLate(hosts: seq<View>, i: nat) returns (k: nat)
    requires i < |hosts|
    ensures i <= k < |hosts| && hosts[i].name in LastNamed(hosts) && LastNamed(hosts)[hosts[i].name] == hosts[k].attrs
  {
    var n := |hosts| - 1;
    if hosts[n].name == hosts[i].name {
      k := n;
    } else {
      k := LastIsLate(hosts[..n], i);
    }
  }

  function NamesOf(hosts: seq<View>): seq<string> {
    seq(|hosts|, i requires 0 <= i < |hosts| => hosts[i].name)
  }

  /** query_host and the host variables of query_list give the same for every name. */
  ghost predicate QueriesAgree(hosts: seq<View>) {
    forall target: string :: FirstNamed(hosts, target) == if target in LastNamed(hosts) then LastNamed(hosts)[target] else map[]
  }

  // Hosts that differ in one attribute.
  function Marked(names: seq<string>): seq<View> {
    seq(|names|, i requires 0 <= i < |names| => View(names[i], map["id" := Scalar(i)], []))
  }

  /** For hosts of these names they always agree exactly when the names are distinct. */
  lemma QueriesAgreeExactly(names: seq<string>)
    ensures (forall hosts: seq<View> :: NamesOf(hosts) == names ==> QueriesAgree(hosts)) <==>
            forall i, j :: 0 <= i < j < |names| ==> names[i] != names[j]
  {
    if i, j :| 0 <= i < j < |names| && names[i] == names[j] {
      var hosts := Marked(names);
      assert NamesOf(hosts) == names && hosts[i].name == hosts[j].name;
      var first := FirstIsEarly(hosts, i);
      var last := LastIsLate(hosts, j);
      assert hosts[first].attrs["id"] == Scalar(first) && hosts[last].attrs["id"] == Scalar(last);
      assert FirstNamed(hosts, names[i]) != LastNamed(hosts)[names[i]];
      assert !(NamesOf(hosts) == names ==> QueriesAgree(hosts));
    } else {
      forall hosts: seq<View> | NamesOf(hosts) == names
        ensures QueriesAgree(hosts)
      {
        assert forall i :: 0 <= i < |hosts| ==> NamesOf(hosts)[i] == hosts[i].name;
        forall target: string
          ensures FirstNamed(hosts, target) == if target in LastNamed(hosts) then LastNamed(hosts)[target] else map[]
        {
          HostvarsAgreeWithSearch(hosts, target);
        }
      }
    }
  }

  // -------------------------------------------------------------------------------------------
  // The queries after the pass
  // -------------------------------------------------------------------------------------------

  function FloatedViews(hosts: seq<View>, ips: map<string, string>): seq<View> {
    seq(|hosts|, i requires 0 <= i < |hosts| => hosts[i].(attrs := Floated(hosts[i].attrs, ips)))
  }

  /** What the queries get to see: without any floating IP there is no pass. */
  function Passed(hosts: seq<View>, ips: map<string, string>): seq<View> {
    if ips == map[] then hosts else FloatedViews(hosts, ips)
  }

  /** The `--list` mode. None is the error of the pass. */
  method ListAfterPass(hosts: seq<Host>, ips: map<string, string>) returns (index: Option<Index>)
    requires forall i, j :: 0 <= i < j < |hosts| ==> hosts[i] != hosts[j]
    modifies hosts
    ensures index.Some? <==> ips == map[] || forall i :: 0 <= i < |hosts| ==> CanFloat(old(hosts[i].attrs), ips)
    ensures index.Some? ==> IsIndexOf(Passed(old(Views(hosts)), ips), index.value)
  {
    ghost var before := Views(hosts);
    if ips != map[] {
      var ok := IterHostIps(hosts, ips);
      if !ok {
        return None;
      }
      assert Views(hosts) == FloatedViews(before, ips);
    }
    var listed := QueryList(Views(hosts));
    index := Some(listed);
  }

  /**
   The `--host` mode. The pass is a generator, so that it fails only at a host up to the first one of
   the name.
   */
  method HostAfterPass(hosts: seq<Host>, ips: map<string, string>, target: string) returns (attrs: Option<Attrs>)
    requires forall i, j :: 0 <= i < j < |hosts| ==> hosts[i] != hosts[j]
    modifies hosts
    ensures attrs.Some? ==> attrs.value == FirstNamed(Passed(old(Views(hosts)), ips), target)
    ensures attrs.Some? <==>
            ips == map[] ||
            forall i :: 0 <= i < |hosts| && (forall j :: 0 <= j < i ==> hosts[j].name != target) ==>
              CanFloat(old(hosts[i].attrs), ips)
  {
    ghost var passed := Passed(Views(hosts), ips);
    for n := 0 to |hosts|
      invariant FirstNamed(passed, target) == FirstNamed(passed[n..], target)
      invariant forall i :: 0 <= i < n ==> hosts[i].name != target && (ips == map[] || CanFloat(old(hosts[i].attrs), ips))
      invariant forall i :: n <= i < |hosts| ==> hosts[i].attrs == old(hosts[i].attrs)
    {
      if ips != map[] {
        var ok := FloatHost(hosts[n], ips);
        if !ok {
          return None;
        }
      }
      if hosts[n].name == target {
        return Some(hosts[n].attrs);
      }
    }
    attrs := Some(map[]);
  }

  /**
   After the pass the index still inverts the group lists that the hosts had before it, and what both
   queries give for a host is the attributes that the pass gives it.
   */
  lemma IndexAfterPass(hosts: seq<View>, ips: map<string, string>, index: Index)
    requires DistinctNames(hosts) && IsIndexOf(Passed(hosts, ips), index)
    ensures (forall i :: 0 <= i < |hosts| ==> "_meta" !in hosts[i].groups) <==> IsInverse(hosts, index)
    ensures forall i :: 0 <= i < |hosts| ==>
              && hosts[i].name in index.hostvars && index.hostvars[hosts[i].name] == Passed(hosts, ips)[i].attrs
              && FirstNamed(Passed(hosts, ips), hosts[i].name) == Passed(hosts, ips)[i].attrs
  {
    var passed := Passed(hosts, ips);
    assert DistinctNames(passed);
    IndexInvertsMembership(passed, index);
    forall i, g | 0 <= i < |hosts|
      ensures passed[i].name == hosts[i].name && (Lists(passed[i], g) <==> Lists(hosts[i], g))
    {
    }
    assert IsInverse(passed, index) <==> IsInverse(hosts, index);
    forall i | 0 <= i < |hosts|
      ensures hosts[i].name in index.hostvars && index.hostvars[hosts[i].name] == passed[i].attrs
      ensures FirstNamed(passed, hosts[i].name) == passed[i].attrs
    {
      LastOfDistinct(passed, i);
      HostvarsAgreeWithSearch(passed, hosts[i].name);
    }
  }

  lemma {:induction false} LastOfDistinct(hosts: seq<View>, i: nat)
    requires DistinctNames(hosts) && i < |hosts|
    ensures hosts[i].name in LastNamed(hosts) && LastNamed(hosts)[hosts[i].name] == hosts[i].attrs
  {
    var n := |hosts| - 1;
    if i < n {
      assert hosts[i].name != hosts[n].name;
      LastOfDistinct(hosts[..n], i);
    }
  }
}
