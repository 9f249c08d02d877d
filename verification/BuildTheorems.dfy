/**
 What a batch of specs does to the host table: generated names are fresh, survivors keep their
 place and options, addresses stay distinct.
 */
module BuildTheorems {
  import opened Options
  import opened Decimal
  import opened Dicts
  import opened Text
  import opened HostNames
  import opened Inventory

  // -------------------------------------------------------------------------------------------
  // Lookup by address
  // -------------------------------------------------------------------------------------------

  predicate HasIp(host: (string, Opts), ip: string) {
    "ip" in host.1 && host.1["ip"] == ip
  }

  predicate AllHaveIps(hosts: Hosts) {
    forall i :: 0 <= i < |hosts| ==> "ip" in hosts[i].1
  }

  predicate DistinctIps(hosts: Hosts) {
    forall i, j :: 0 <= i < j < |hosts| && "ip" in hosts[i].1 ==> !HasIp(hosts[j], hosts[i].1["ip"])
  }

  lemma {:induction false} ExistsIpMeans(hosts: Hosts, ip: string)
    ensures ExistsIp(hosts, ip) == Ok(true) ==> exists i :: 0 <= i < |hosts| && HasIp(hosts[i], ip)
    ensures ExistsIp(hosts, ip) == Ok(false) <==>
              AllHaveIps(hosts) && forall i :: 0 <= i < |hosts| ==> !HasIp(hosts[i], ip)
    ensures AllHaveIps(hosts) ==> ExistsIp(hosts, ip).Ok?
  {
    if hosts != [] {
      ExistsIpMeans(hosts[1..], ip);
      assert forall i :: 0 < i < |hosts| ==> hosts[i] == hosts[1..][i - 1];
      if ExistsIp(hosts, ip) == Ok(true) && !HasIp(hosts[0], ip) {
        var i :| 0 <= i < |hosts[1..]| && HasIp(hosts[1..][i], ip);
        assert HasIp(hosts[i + 1], ip);
      }
      if ExistsIp(hosts, ip) == Ok(false) {
        assert !HasIp(hosts[0], ip);
      }
    }
  }

  lemma {:induction false} ExistsIpInLonger(a: Hosts, b: Hosts, ip: string)
    requires ExistsIp(a, ip) == Ok(true)
    ensures ExistsIp(a + b, ip) == Ok(true)
  {
    assert (a + b)[0] == a[0] && (a + b)[1..] == a[1..] + b;
    if !HasIp(a[0], ip) {
      ExistsIpInLonger(a[1..], b, ip);
    }
  }

  lemma {:induction false} ExistsIpAtEnd(hosts: Hosts, last: (string, Opts), ip: string)
    requires ExistsIp(hosts, ip) == Ok(false) && HasIp(last, ip)
    ensures ExistsIp(hosts + [last], ip) == Ok(true)
  {
    if hosts != [] {
      assert (hosts + [last])[0] == hosts[0] && (hosts + [last])[1..] == hosts[1..] + [last];
      ExistsIpAtEnd(hosts[1..], last, ip);
    }
  }

  /** delete_host_by_ip removes one host, and it has the address. */
  lemma {:induction false} WithoutIpRemoves(hosts: Hosts, ip: string) returns (name: string)
    requires Distinct(Keys(hosts)) && ExistsIp(hosts, ip) == Ok(true)
    ensures name in Keys(hosts) && WithoutIp(hosts, ip) == Remove(hosts, name)
    ensures Get(hosts, name).Some? && HasIp((name, Get(hosts, name).value), ip)
  {
    assert Keys(hosts) == [hosts[0].0] + Keys(hosts[1..]);
    DistinctConcat([hosts[0].0], Keys(hosts[1..]));
    if HasIp(hosts[0], ip) {
      name := hosts[0].0;
    } else {
      name := WithoutIpRemoves(hosts[1..], ip);
      assert name != hosts[0].0;
    }
  }

  // -------------------------------------------------------------------------------------------
  // The effect of one spec
  // -------------------------------------------------------------------------------------------

  /** A spec that does not name a host to add: addresses, deletions, and what the loop ignores. */
  predicate IsUnnamed(spec: string) {
    spec != "" ==> !IsLetter(spec[0])
  }

  predicate IsAdd(spec: string) {
    spec != "" ==> IsDigit(spec[0])
  }

  predicate AllSpecs(specs: seq<string>, good: string -> bool) {
    forall i :: 0 <= i < |specs| ==> good(specs[i])
  }

  /** What a step did to the table. */
  datatype Effect =
    | Nothing
    | Removed(name: string)
    | Added(ip: string, accessIp: string)
    | Named(name: string, ip: string, accessIp: string)

  /** The options of a host with these addresses, key by key. */
  predicate IsEntry(opts: Opts, ip: string, accessIp: string) {
    && opts.Keys == {"ansible_host", "ip", "access_ip"}
    && opts["ip"] == ip && opts["ansible_host"] == accessIp && opts["access_ip"] == accessIp
  }

  predicate HasEffect(st: Build, next: Build, prefix: string, effect: Effect) {
    match effect
    case Nothing => next.hosts == st.hosts && next.nextId == st.nextId
    case Removed(name) => name in Keys(st.hosts) && next.hosts == Remove(st.hosts, name) && next.nextId == st.nextId
    case Added(ip, accessIp) =>
      && ExistsIp(st.hosts, ip) == Ok(false)
      && next.hosts == Put(st.hosts, GeneratedName(prefix, st.nextId), OptsOf(accessIp, ip))
      && IsEntry(OptsOf(accessIp, ip), ip, accessIp)
      && next.nextId == st.nextId + 1
    case Named(name, ip, accessIp) =>
      && ExistsIp(st.hosts, ip) == Ok(false)
      && next.hosts == Put(st.hosts, name, OptsOf(accessIp, ip))
      && IsEntry(OptsOf(accessIp, ip), ip, accessIp)
      && next.nextId == st.nextId
  }

  /** The address that a spec asks for; a bare name asks for the one of an earlier spec. */
  function AskedIp(st: Build, spec: string): Option<string> {
    var fields := SplitAll(spec, ',');
    if spec != "" && IsDigit(spec[0]) then Some(fields[0]) else if |fields| > 1 then Some(fields[1]) else st.ip
  }

  /** Neither the whole spec names a host, nor is the address it asks for in use. */
  predicate IsNewSpec(st: Build, spec: string) {
    spec !in Keys(st.hosts) && AskedIp(st, spec).Some? && ExistsIp(st.hosts, AskedIp(st, spec).value) == Ok(false)
  }

  /**
   A spec that the loop accepts changes the table in one way at most: a deletion takes away one
   present host, found by name or else by address; an address or a named host puts in one entry with
   an address that no other host has, under the next generated or the given name.
   */
  lemma EffectOf(st: Build, spec: string, prefix: string) returns (effect: Effect)
    requires Step(st, spec, prefix).Ok? && Distinct(Keys(st.hosts))
    ensures HasEffect(st, Step(st, spec, prefix).value, prefix, effect)
    ensures spec != ""
    ensures effect.Removed? <==>
              spec[0] == '-' && (spec[1..] in Keys(st.hosts) || ExistsIp(st.hosts, spec[1..]) == Ok(true))
    ensures effect.Added? <==> IsDigit(spec[0]) && IsNewSpec(st, spec)
    ensures effect.Named? <==> IsLetter(spec[0]) && IsNewSpec(st, spec)
    ensures effect.Removed? ==>
              if spec[1..] in Keys(st.hosts) then effect.name == spec[1..]
              else Get(st.hosts, effect.name).Some? && HasIp((effect.name, Get(st.hosts, effect.name).value), spec[1..])
    ensures effect.Added? ==>
              var fields := SplitAll(spec, ','); effect.ip == fields[0] && effect.accessIp == fields[|fields| - 1]
    ensures effect.Named? && |SplitAll(spec, ',')| > 1 ==>
              var fields := SplitAll(spec, ',');
              effect.name == fields[0] && effect.ip == fields[1] && effect.accessIp == fields[|fields| - 1]
  {
    var fields := SplitAll(spec, ',');
    if spec[0] == '-' {
      var target := spec[1..];
      if target in Keys(st.hosts) {
        effect := Removed(target);
      } else if ExistsIp(st.hosts, target).value {
        var name := WithoutIpRemoves(st.hosts, target);
        effect := Removed(name);
      } else {
        effect := Nothing;
      }
    } else if IsDigit(spec[0]) && IsNewSpec(st, spec) {
      effect := Added(fields[0], fields[|fields| - 1]);
    } else if IsLetter(spec[0]) && IsNewSpec(st, spec) {
      var next := Step(st, spec, prefix).value;
      effect := Named(next.hostname.value, next.ip.value, next.accessIp.value);
    } else {
      effect := Nothing;
    }
  }

  // -------------------------------------------------------------------------------------------
  // Survivors and generated hosts
  // -------------------------------------------------------------------------------------------

  /** The entries whose name is in `names`, in order. */
  function Restrict(hosts: Hosts, names: set<string>): Hosts {
    if hosts == [] then []
    else Restrict(hosts[..|hosts| - 1], names) +
         if hosts[|hosts| - 1].0 in names then [hosts[|hosts| - 1]] else []
  }

  lemma {:induction false} RestrictKeys(hosts: Hosts, names: set<string>)
    requires Distinct(Keys(hosts))
    ensures forall k :: k in Keys(Restrict(hosts, names)) <==> k in Keys(hosts) && k in names
    ensures Distinct(Keys(Restrict(hosts, names)))
    ensures forall i :: 0 <= i < |Restrict(hosts, names)| ==> Restrict(hosts, names)[i] in hosts
  {
    if hosts != [] {
      var n := |hosts| - 1;
      var (last, opts) := hosts[n];
      var before := Restrict(hosts[..n], names);
      assert hosts == hosts[..n] + [(last, opts)];
      KeysOfConcat(hosts[..n], [(last, opts)]);
      assert Keys([(last, opts)]) == [last];
      DistinctConcat(Keys(hosts[..n]), [last]);
      assert last in [last];
      RestrictKeys(hosts[..n], names);
      assert forall x :: x in hosts[..n] ==> x in hosts;
      if last in names {
        KeysOfConcat(before, [(last, opts)]);
        DistinctConcat(Keys(before), [last]);
        assert forall x :: x in before + [(last, opts)] <==> x in before || x == (last, opts);
      } else {
        assert before + [] == before;
      }
    }
  }

  lemma {:induction false} RestrictAll(hosts: Hosts, names: set<string>)
    requires forall k :: k in Keys(hosts) ==> k in names
    ensures Restrict(hosts, names) == hosts
  {
    if hosts != [] {
      var n := |hosts| - 1;
      assert Keys(hosts)[n] == hosts[n].0;
      assert forall i :: 0 <= i < n ==> Keys(hosts[..n])[i] == Keys(hosts)[i];
      RestrictAll(hosts[..n], names);
      assert hosts == hosts[..n] + [hosts[n]];
    }
  }

  // Only the names of the table matter.
  lemma {:induction false} RestrictSame(hosts: Hosts, a: set<string>, b: set<string>)
    requires forall k :: k in Keys(hosts) ==> (k in a <==> k in b)
    ensures Restrict(hosts, a) == Restrict(hosts, b)
  {
    if hosts != [] {
      var n := |hosts| - 1;
      assert Keys(hosts)[n] == hosts[n].0;
      assert forall i :: 0 <= i < n ==> Keys(hosts[..n])[i] == Keys(hosts)[i];
      RestrictSame(hosts[..n], a, b);
    }
  }

  lemma {:induction false} RemoveFromConcat<V>(a: Dict<V>, b: Dict<V>, k: string)
    ensures Remove(a + b, k) == if k in Keys(a) then Remove(a, k) + b else a + Remove(b, k)
  {
    if a == [] {
      assert a + b == b && [] + Remove(b, k) == Remove(b, k);
    } else {
      assert (a + b)[0] == a[0] && (a + b)[1..] == a[1..] + b;
      assert Keys(a) == [a[0].0] + Keys(a[1..]);
      RemoveFromConcat(a[1..], b, k);
    }
  }

  lemma {:induction false} RemoveFromRestrict(hosts: Hosts, names: set<string>, k: string)
    requires Distinct(Keys(hosts)) && k in Keys(hosts) && k in names
    ensures Remove(Restrict(hosts, names), k) == Restrict(hosts, names - {k})
  {
    var n := |hosts| - 1;
    var (last, opts) := hosts[n];
    var before := Restrict(hosts[..n], names);
    assert hosts == hosts[..n] + [(last, opts)];
    KeysOfConcat(hosts[..n], [(last, opts)]);
    assert Keys([(last, opts)]) == [last];
    DistinctConcat(Keys(hosts[..n]), [last]);
    assert last in [last];
    RestrictKeys(hosts[..n], names);
    if k == last {
      RemoveFromConcat(before, [(last, opts)], k);
      RestrictSame(hosts[..n], names, names - {k});
      assert Remove([(last, opts)], k) == [];
    } else {
      RemoveFromRestrict(hosts[..n], names, k);
      if last in names {
        RemoveFromConcat(before, [(last, opts)], k);
      } else {
        assert before + [] == before;
      }
    }
  }

  predicate IsGenerated(name: string, prefix: string, from: nat, to: nat) {
    exists id :: from <= id < to && name == GeneratedName(prefix, id)
  }

  predicate AllGenerated(hosts: Hosts, prefix: string, from: nat, to: nat) {
    forall i :: 0 <= i < |hosts| ==> IsGenerated(hosts[i].0, prefix, from, to) && "ip" in hosts[i].1
  }

  /** No generated name from `first` on is the name of one of these hosts. */
  ghost predicate IdsBelow(hosts: Hosts, prefix: string, first: nat) {
    forall i, id :: 0 <= i < |hosts| && first <= id ==> hosts[i].0 != GeneratedName(prefix, id)
  }

  /**
   The table after some specs: the initial hosts named in `kept`, untouched and in order, followed
   by generated ones.
   */
  predicate Evolved(initial: Hosts, first: nat, prefix: string, st: Build, kept: set<string>, added: Hosts) {
    && st.hosts == Restrict(initial, kept) + added
    && Distinct(Keys(st.hosts))
    && first <= st.nextId
    && AllGenerated(added, prefix, first, st.nextId)
  }

  lemma NextNameIsNew(initial: Hosts, first: nat, prefix: string, st: Build, kept: set<string>, added: Hosts)
    requires Distinct(Keys(initial)) && IdsBelow(initial, prefix, first)
    requires Evolved(initial, first, prefix, st, kept, added)
    ensures GeneratedName(prefix, st.nextId) !in Keys(st.hosts)
  {
    var name := GeneratedName(prefix, st.nextId);
    RestrictKeys(initial, kept);
    forall i | 0 <= i < |st.hosts|
      ensures st.hosts[i].0 != name
    {
      if i < |Restrict(initial, kept)| {
        assert Restrict(initial, kept)[i] in initial;
      } else {
        var host := added[i - |Restrict(initial, kept)|];
        var id :| first <= id < st.nextId && host.0 == GeneratedName(prefix, id);
        GeneratedNamesDiffer(prefix, id, st.nextId);
      }
    }
  }

  lemma AddedKeepsEvolved(initial: Hosts, first: nat, prefix: string, st: Build, next: Build, kept: set<string>,
                          added: Hosts, ip: string, accessIp: string) returns (more: Hosts)
    requires Distinct(Keys(initial)) && IdsBelow(initial, prefix, first)
    requires Evolved(initial, first, prefix, st, kept, added)
    requires HasEffect(st, next, prefix, Added(ip, accessIp))
    ensures Evolved(initial, first, prefix, next, kept, more)
    ensures next.hosts == st.hosts + [(GeneratedName(prefix, st.nextId), OptsOf(accessIp, ip))]
    ensures added <= more
  {
    var name, opts := GeneratedName(prefix, st.nextId), OptsOf(accessIp, ip);
    NextNameIsNew(initial, first, prefix, st, kept, added);
    PutKeys(st.hosts, name, opts);
    PutDistinct(st.hosts, name, opts);
    more := added + [(name, opts)];
    assert st.hosts + [(name, opts)] == Restrict(initial, kept) + more;
    assert IsGenerated(name, prefix, first, next.nextId);
  }

  lemma RemovedKeepsEvolved(initial: Hosts, first: nat, prefix: string, st: Build, next: Build, kept: set<string>,
                            added: Hosts, name: string) returns (kept': set<string>, added': Hosts)
    requires Distinct(Keys(initial)) && Evolved(initial, first, prefix, st, kept, added)
    requires HasEffect(st, next, prefix, Removed(name))
    ensures Evolved(initial, first, prefix, next, kept', added')
  {
    var survivors := Restrict(initial, kept);
    RestrictKeys(initial, kept);
    RemoveKeys(st.hosts, name);
    RemoveFromConcat(survivors, added, name);
    if name in Keys(survivors) {
      RemoveFromRestrict(initial, kept, name);
      kept', added' := kept - {name}, added;
    } else {
      kept', added' := kept, Remove(added, name);
      RemoveKeepsGenerated(added, name, prefix, first, st.nextId);
    }
  }

  lemma {:induction false} RemoveKeepsGenerated(hosts: Hosts, name: string, prefix: string, from: nat, to: nat)
    requires AllGenerated(hosts, prefix, from, to)
    ensures AllGenerated(Remove(hosts, name), prefix, from, to)
  {
    if hosts != [] {
      assert AllGenerated(hosts[1..], prefix, from, to);
      RemoveKeepsGenerated(hosts[1..], name, prefix, from, to);
    }
  }

  /** How many hosts the batch adds. */
  function Adds(st: Build, specs: seq<string>, prefix: string): nat
    requires Steps(st, specs, prefix).Ok?
    decreases |specs|
  {
    if specs == [] then 0
    else
      var next := Step(st, specs[0], prefix).value;
      (if IsDigit(specs[0][0]) && ExistsIp(st.hosts, SplitAll(specs[0], ',')[0]) == Ok(false) && specs[0] !in Keys(st.hosts)
       then 1 else 0) + Adds(next, specs[1..], prefix)
  }

  /** How many hosts it deletes, by name or by address. */
  function Deletes(st: Build, specs: seq<string>, prefix: string): nat
    requires Steps(st, specs, prefix).Ok?
    decreases |specs|
  {
    if specs == [] then 0
    else
      var next := Step(st, specs[0], prefix).value;
      (if specs[0][0] == '-' &&
          (specs[0][1..] in Keys(st.hosts) || ExistsIp(st.hosts, specs[0][1..]) == Ok(true))
       then 1 else 0) + Deletes(next, specs[1..], prefix)
  }

  lemma {:induction false} StepsEvolve(initial: Hosts, first: nat, prefix: string, st: Build, kept: set<string>,
                                       added: Hosts, specs: seq<string>)
    returns (kept': set<string>, added': Hosts)
    requires Distinct(Keys(initial)) && IdsBelow(initial, prefix, first)
    requires Evolved(initial, first, prefix, st, kept, added)
    requires AllSpecs(specs, IsUnnamed) && Steps(st, specs, prefix).Ok?
    ensures Evolved(initial, first, prefix, Steps(st, specs, prefix).value, kept', added')
    ensures |Steps(st, specs, prefix).value.hosts| == |st.hosts| + Adds(st, specs, prefix) - Deletes(st, specs, prefix)
    decreases |specs|
  {
    if specs == [] {
      kept', added' := kept, added;
    } else {
      var next := Step(st, specs[0], prefix).value;
      var kept1, added1 := OneEvolves(initial, first, prefix, st, kept, added, specs[0]);
      kept', added' := StepsEvolve(initial, first, prefix, next, kept1, added1, specs[1..]);
    }
  }

  lemma OneEvolves(initial: Hosts, first: nat, prefix: string, st: Build, kept: set<string>, added: Hosts, spec: string)
    returns (kept': set<string>, added': Hosts)
    requires Distinct(Keys(initial)) && IdsBelow(initial, prefix, first)
    requires Evolved(initial, first, prefix, st, kept, added)
    requires IsUnnamed(spec) && Step(st, spec, prefix).Ok?
    ensures Evolved(initial, first, prefix, Step(st, spec, prefix).value, kept', added')
    ensures var changed := if spec[0] == '-' then
                             if spec[1..] in Keys(st.hosts) || ExistsIp(st.hosts, spec[1..]) == Ok(true) then -1 else 0
                           else
                             if IsDigit(spec[0]) && ExistsIp(st.hosts, SplitAll(spec, ',')[0]) == Ok(false) &&
                                spec !in Keys(st.hosts)
                             then 1 else 0;
            |Step(st, spec, prefix).value.hosts| == |st.hosts| + changed
  {
    var next := Step(st, spec, prefix).value;
    var effect := EffectOf(st, spec, prefix);
    kept', added' := kept, added;
    match effect
    case Nothing =>
    case Removed(name) =>
      RemoveKeys(st.hosts, name);
      kept', added' := RemovedKeepsEvolved(initial, first, prefix, st, next, kept, added, name);
    case Added(ip, accessIp) =>
      added' := AddedKeepsEvolved(initial, first, prefix, st, next, kept, added, ip, accessIp);
    case Named(_, _, _) =>
      assert false;
  }

  // -------------------------------------------------------------------------------------------
  // Generated names are fresh
  // -------------------------------------------------------------------------------------------

  predicate AllNumbered(hosts: Hosts) {
    forall i :: 0 <= i < |hosts| ==> HostId(hosts[i].0).Some?
  }

  lemma {:induction false} CarriedIsFront(hosts: Hosts)
    ensures Carried(hosts) <= hosts
  {
    if hosts != [] {
      CarriedIsFront(hosts[1..]);
      assert hosts == [hosts[0]] + hosts[1..];
    }
  }

  lemma {:induction false} NumberedAreCarried(hosts: Hosts)
    requires AllNumbered(hosts)
    ensures Carried(hosts) == hosts
  {
    if hosts != [] {
      assert HostId(hosts[0].0).Some?;
      assert AllNumbered(hosts[1..]);
      NumberedAreCarried(hosts[1..]);
    }
  }

  /** Where the scan stops: the first host without a number. */
  predicate IsStop(hosts: Hosts, i: nat) {
    && i < |hosts| && HostId(hosts[i].0).None?
    && forall k :: 0 <= k < i ==> HostId(hosts[k].0).Some?
  }

  lemma StopBehind(hosts: Hosts, i: nat)
    requires IsStop(hosts, i) && i > 0
    ensures IsStop(hosts[1..], i - 1) && HostId(hosts[0].0).Some?
  {
    assert hosts[1..][i - 1] == hosts[i];
  }

  lemma UpToStopStep(hosts: Hosts, i: nat)
    requires hosts != [] && HostId(hosts[0].0).Some? && i < |hosts| && Carried(hosts[1..]) == hosts[1..][..i]
    ensures Carried(hosts) == hosts[..i + 1]
  {
    assert hosts[..i + 1] == [hosts[0]] + hosts[1..][..i];
  }

  lemma {:induction false} CarriedUpToStop(hosts: Hosts, i: nat)
    requires IsStop(hosts, i)
    ensures Carried(hosts) == hosts[..i + 1]
  {
    if i > 0 {
      StopBehind(hosts, i);
      CarriedUpToStop(hosts[1..], i - 1);
      UpToStopStep(hosts, i);
    }
  }

  lemma {:induction false} StopOrNumbered(hosts: Hosts) returns (i: nat)
    ensures IsStop(hosts, i) || (i == |hosts| && AllNumbered(hosts))
  {
    if hosts == [] || HostId(hosts[0].0).None? {
      i := 0;
    } else {
      i := StopOrNumbered(hosts[1..]);
      i := i + 1;
      assert forall k :: 0 < k < |hosts| ==> hosts[k] == hosts[1..][k - 1];
    }
  }

  /**
   The scan carries over the hosts up to and including the first one without a number; so it carries
   over all of them exactly when all but the last have numbers.
   */
  lemma CarriedIsPrefix(hosts: Hosts)
    ensures Carried(hosts) <= hosts
    ensures forall i :: IsStop(hosts, i) ==> Carried(hosts) == hosts[..i + 1]
    ensures AllNumbered(hosts) ==> Carried(hosts) == hosts
    ensures Carried(hosts) == hosts <==> forall i :: 0 <= i < |hosts| - 1 ==> HostId(hosts[i].0).Some?
    ensures Distinct(Keys(hosts)) ==> Distinct(Keys(Carried(hosts)))
  {
    CarriedIsFront(hosts);
    DistinctPrefix(Carried(hosts), hosts);
    forall i | IsStop(hosts, i)
      ensures Carried(hosts) == hosts[..i + 1]
    {
      CarriedUpToStop(hosts, i);
    }
    var stop := StopOrNumbered(hosts);
    if stop == |hosts| {
      NumberedAreCarried(hosts);
    } else if stop < |hosts| - 1 {
      assert |Carried(hosts)| == stop + 1 && HostId(hosts[stop].0).None?;
    }
  }

  /** The hosts behind the stop, which the batch does not see. */
  function Unseen(hosts: Hosts): Hosts {
    if hosts == [] then [] else if HostId(hosts[0].0).None? then hosts[1..] else Unseen(hosts[1..])
  }

  lemma CarriedAndUnseenStep(hosts: Hosts)
    requires hosts != [] && hosts[1..] == Carried(hosts[1..]) + Unseen(hosts[1..])
    ensures hosts == Carried(hosts) + Unseen(hosts)
  {
    var rest := hosts[1..];
    assert hosts == [hosts[0]] + rest;
    assert [hosts[0]] + Carried(rest) + Unseen(rest) == [hosts[0]] + rest;
  }

  lemma {:induction false} CarriedAndUnseen(hosts: Hosts)
    ensures hosts == Carried(hosts) + Unseen(hosts)
  {
    if hosts != [] {
      CarriedAndUnseen(hosts[1..]);
      CarriedAndUnseenStep(hosts);
    }
  }

  lemma DistinctPrefix<V>(a: Dict<V>, b: Dict<V>)
    requires a <= b
    ensures Distinct(Keys(b)) ==> Distinct(Keys(a))
  {
    assert forall i :: 0 <= i < |a| ==> Keys(a)[i] == Keys(b)[i];
  }

  lemma {:induction false} CarriedIdsAreLow(hosts: Hosts, highest: nat)
    ensures highest <= HighestId(hosts, highest)
    ensures forall i :: 0 <= i < |Carried(hosts)| && HostId(Carried(hosts)[i].0).Some? ==>
              HostId(Carried(hosts)[i].0).value <= HighestId(hosts, highest)
    decreases |hosts|
  {
    if hosts != [] && HostId(hosts[0].0).Some? {
      var id := HostId(hosts[0].0).value;
      CarriedIdsAreLow(hosts[1..], if id > highest then id else highest);
      assert Carried(hosts) == [hosts[0]] + Carried(hosts[1..]);
    }
  }

  lemma CarriedIdsBelow(hosts: Hosts, prefix: string)
    requires Free(prefix, '.')
    ensures IdsBelow(Carried(hosts), prefix, HighestId(hosts, 0) + 1)
  {
    CarriedIdsAreLow(hosts, 0);
    forall i, id | 0 <= i < |Carried(hosts)| && HighestId(hosts, 0) + 1 <= id
      ensures Carried(hosts)[i].0 != GeneratedName(prefix, id)
    {
      IdOfGenerated(prefix, id);
    }
  }

  lemma StartIsEvolved(hosts: Hosts, prefix: string) returns (kept: set<string>)
    requires Distinct(Keys(hosts))
    ensures Distinct(Keys(Carried(hosts)))
    ensures Evolved(Carried(hosts), HighestId(hosts, 0) + 1, prefix, StartBuild(hosts), kept, [])
  {
    CarriedIsPrefix(hosts);
    kept := set k | k in Keys(Carried(hosts));
    RestrictAll(Carried(hosts), kept);
    assert Carried(hosts) + [] == Carried(hosts);
  }

  /**
   A batch of addresses and deletions never overwrites a carried entry and never reuses the name of a
   host it started from: the table is made of the surviving hosts, in order and with their options,
   and of new ones with generated names. The host count adds up. No name of the whole inventory is
   reused if no host behind the stop has a generated name with a higher number; if every host has a
   number, there is no such host.
   */
  lemma BatchIsFresh(hosts: Hosts, specs: seq<string>, prefix: string) returns (kept: set<string>, added: Hosts)
    requires Distinct(Keys(hosts)) && Free(prefix, '.') && AllSpecs(specs, IsUnnamed)
    requires Steps(StartBuild(hosts), specs, prefix).Ok?
    ensures var end := Steps(StartBuild(hosts), specs, prefix).value;
            && end.hosts == Restrict(Carried(hosts), kept) + added
            && Distinct(Keys(end.hosts))
            && AllGenerated(added, prefix, HighestId(hosts, 0) + 1, end.nextId)
            && |end.hosts| == |Carried(hosts)| + Adds(StartBuild(hosts), specs, prefix)
                              - Deletes(StartBuild(hosts), specs, prefix)
    ensures forall k :: k in Keys(added) ==> k !in Keys(Carried(hosts))
    ensures IdsBelow(Unseen(hosts), prefix, HighestId(hosts, 0) + 1) ==> forall k :: k in Keys(added) ==> k !in Keys(hosts)
    ensures AllNumbered(hosts) ==> Carried(hosts) == hosts
  {
    var first := HighestId(hosts, 0) + 1;
    var start := StartIsEvolved(hosts, prefix);
    CarriedIdsBelow(hosts, prefix);
    CarriedIsPrefix(hosts);
    kept, added := StepsEvolve(Carried(hosts), first, prefix, StartBuild(hosts), start, [], specs);
    var to := Steps(StartBuild(hosts), specs, prefix).value.nextId;
    if IdsBelow(Unseen(hosts), prefix, first) {
      CarriedAndUnseen(hosts);
      KeysOfConcat(Carried(hosts), Unseen(hosts));
    }
  }

  // With a dot in the prefix all generated names have the short name of the prefix.
  lemma IdOfDotted(prefix: string, id: nat)
    requires !Free(prefix, '.')
    ensures HostId(GeneratedName(prefix, id)) == HostId(prefix)
  {
    SplitFirstParts(prefix, '.');
    var (head, rest) := SplitFirst(prefix, '.').value;
    assert GeneratedName(prefix, id) == head + ['.'] + (rest + Numeral(id));
    SplitFirstOfJoined(head, '.', rest + Numeral(id));
  }

  /** The number that overwrites, for a prefix with a dot. */
  function DottedId(prefix: string): nat {
    (if HostId(prefix).Some? then HostId(prefix).value else 0) + 1
  }

  lemma DottedStart(prefix: string, opts: Opts)
    requires !Free(prefix, '.')
    ensures var hosts: Hosts := [(GeneratedName(prefix, DottedId(prefix)), opts)];
            StartBuild(hosts) == Build(hosts, DottedId(prefix), None, None, None)
  {
    IdOfDotted(prefix, DottedId(prefix));
    var hosts: Hosts := [(GeneratedName(prefix, DottedId(prefix)), opts)];
    assert hosts[1..] == [];
    assert HighestId(hosts[1..], DottedId(prefix) - 1) == DottedId(prefix) - 1;
    assert Carried(hosts) == hosts;
  }

  /** The name that the first new host of a batch gets. */
  function NextName(hosts: Hosts, prefix: string): string {
    GeneratedName(prefix, HighestId(hosts, 0) + 1)
  }

  /** With a dot-free prefix it is new exactly when no host behind the stop has it. */
  lemma NextNameIsNewExactly(hosts: Hosts, prefix: string)
    requires Free(prefix, '.')
    ensures NextName(hosts, prefix) !in Keys(Carried(hosts))
    ensures NextName(hosts, prefix) !in Keys(hosts) <==> NextName(hosts, prefix) !in Keys(Unseen(hosts))
  {
    CarriedIdsBelow(hosts, prefix);
    CarriedAndUnseen(hosts);
    KeysOfConcat(Carried(hosts), Unseen(hosts));
  }

  /**
   Among the inventories that the scan reads to the end, it is always new exactly when the prefix has
   no dot.
   */
  lemma NamesAreFreshExactly(prefix: string)
    ensures (forall hosts: Hosts {:trigger NextName(hosts, prefix)} ::
               Distinct(Keys(hosts)) && Carried(hosts) == hosts ==> NextName(hosts, prefix) !in Keys(hosts))
            <==> Free(prefix, '.')
  {
    if Free(prefix, '.') {
      forall hosts: Hosts {:trigger NextName(hosts, prefix)} | Distinct(Keys(hosts)) && Carried(hosts) == hosts
        ensures NextName(hosts, prefix) !in Keys(hosts)
      {
        NextNameIsNewExactly(hosts, prefix);
      }
    } else {
      var hosts: Hosts := [(GeneratedName(prefix, DottedId(prefix)), map[])];
      DottedStart(prefix, map[]);
      assert StartBuild(hosts).hosts == hosts;
      assert Keys(hosts)[0] == NextName(hosts, prefix);
    }
  }

  // -------------------------------------------------------------------------------------------
  // Addresses stay distinct
  // -------------------------------------------------------------------------------------------

  lemma {:induction false} PutEntries(hosts: Hosts, name: string, opts: Opts)
    ensures |hosts| <= |Put(hosts, name, opts)| <= |hosts| + 1
    ensures forall i :: 0 <= i < |hosts| ==> Put(hosts, name, opts)[i] == hosts[i] || Put(hosts, name, opts)[i] == (name, opts)
    ensures |Put(hosts, name, opts)| > |hosts| ==> Put(hosts, name, opts)[|hosts|] == (name, opts)
  {
    if hosts != [] && hosts[0].0 != name {
      PutEntries(hosts[1..], name, opts);
    }
  }

  /** Replacing or adding a host keeps the addresses distinct if its address is not in use. */
  lemma PutKeepsDistinctIps(hosts: Hosts, name: string, opts: Opts)
    requires Distinct(Keys(hosts)) && DistinctIps(hosts)
    requires "ip" in opts && ExistsIp(hosts, opts["ip"]) == Ok(false)
    ensures DistinctIps(Put(hosts, name, opts))
  {
    PutEntries(hosts, name, opts);
    PutKeys(hosts, name, opts);
    PutDistinct(hosts, name, opts);
    ExistsIpMeans(hosts, opts["ip"]);
    var after := Put(hosts, name, opts);
    assert forall i :: 0 <= i < |after| ==> Keys(after)[i] == after[i].0;
    forall i, j | 0 <= i < j < |after| && "ip" in after[i].1
      ensures !HasIp(after[j], after[i].1["ip"])
    {
      assert after[i].0 != after[j].0;
      if after[i] == (name, opts) {
        assert after[j] == hosts[j];
      } else if after[j] == (name, opts) {
        assert after[i] == hosts[i];
      } else {
        assert after[i] == hosts[i] && after[j] == hosts[j];
      }
    }
  }

  lemma {:induction false} RemoveIsPart(hosts: Hosts, name: string)
    ensures forall x :: x in Remove(hosts, name) ==> x in hosts
  {
    if hosts != [] {
      RemoveIsPart(hosts[1..], name);
      assert forall x :: x in hosts[1..] ==> x in hosts;
    }
  }

  lemma {:induction false} RemoveKeepsDistinctIps(hosts: Hosts, name: string)
    requires DistinctIps(hosts)
    ensures DistinctIps(Remove(hosts, name))
  {
    if hosts != [] {
      var rest := Remove(hosts[1..], name);
      assert DistinctIps(hosts[1..]);
      RemoveKeepsDistinctIps(hosts[1..], name);
      RemoveIsPart(hosts[1..], name);
      if hosts[0].0 != name && "ip" in hosts[0].1 {
        forall x | x in rest
          ensures !HasIp(x, hosts[0].1["ip"])
        {
          var j :| 0 <= j < |hosts[1..]| && hosts[1..][j] == x;
          assert hosts[j + 1] == x;
        }
      }
    }
  }

  /** Every spec, also one that names a host and replaces its entry, keeps the addresses distinct. */
  lemma StepKeepsDistinctIps(st: Build, spec: string, prefix: string)
    requires Distinct(Keys(st.hosts)) && DistinctIps(st.hosts) && Step(st, spec, prefix).Ok?
    ensures Distinct(Keys(Step(st, spec, prefix).value.hosts)) && DistinctIps(Step(st, spec, prefix).value.hosts)
  {
    StepKeepsNames(st, spec, prefix);
    var effect := EffectOf(st, spec, prefix);
    match effect
    case Nothing =>
    case Removed(name) => RemoveKeepsDistinctIps(st.hosts, name);
    case Added(ip, accessIp) => PutKeepsDistinctIps(st.hosts, GeneratedName(prefix, st.nextId), OptsOf(accessIp, ip));
    case Named(name, ip, accessIp) => PutKeepsDistinctIps(st.hosts, name, OptsOf(accessIp, ip));
  }

  lemma StepKeepsNames(st: Build, spec: string, prefix: string)
    requires Distinct(Keys(st.hosts)) && Step(st, spec, prefix).Ok?
    ensures Distinct(Keys(Step(st, spec, prefix).value.hosts))
  {
    var effect := EffectOf(st, spec, prefix);
    match effect
    case Nothing =>
    case Removed(name) => RemoveKeys(st.hosts, name);
    case Added(ip, accessIp) => PutDistinct(st.hosts, GeneratedName(prefix, st.nextId), OptsOf(accessIp, ip));
    case Named(name, ip, accessIp) => PutDistinct(st.hosts, name, OptsOf(accessIp, ip));
  }

  lemma {:induction false} StepsKeepNames(st: Build, specs: seq<string>, prefix: string)
    requires Distinct(Keys(st.hosts)) && Steps(st, specs, prefix).Ok?
    ensures Distinct(Keys(Steps(st, specs, prefix).value.hosts))
    decreases |specs|
  {
    if specs != [] {
      StepKeepsNames(st, specs[0], prefix);
      StepsKeepNames(Step(st, specs[0], prefix).value, specs[1..], prefix);
    }
  }

  lemma BatchKeepsNames(hosts: Hosts, specs: seq<string>, prefix: string)
    requires Distinct(Keys(hosts)) && BuildHostnames(hosts, specs, prefix).Ok?
    ensures Distinct(Keys(BuildHostnames(hosts, specs, prefix).value))
  {
    CarriedIsPrefix(hosts);
    StepsKeepNames(StartBuild(hosts), specs, prefix);
  }

  lemma {:induction false} StepsKeepDistinctIps(st: Build, specs: seq<string>, prefix: string)
    requires Distinct(Keys(st.hosts)) && DistinctIps(st.hosts) && Steps(st, specs, prefix).Ok?
    ensures Distinct(Keys(Steps(st, specs, prefix).value.hosts)) && DistinctIps(Steps(st, specs, prefix).value.hosts)
    decreases |specs|
  {
    if specs != [] {
      StepKeepsDistinctIps(st, specs[0], prefix);
      StepsKeepDistinctIps(Step(st, specs[0], prefix).value, specs[1..], prefix);
    }
  }

  /** Any batch at all, named hosts included, keeps pairwise distinct addresses. */
  lemma BatchKeepsDistinctIps(hosts: Hosts, specs: seq<string>, prefix: string)
    requires Distinct(Keys(hosts)) && DistinctIps(hosts) && BuildHostnames(hosts, specs, prefix).Ok?
    ensures DistinctIps(BuildHostnames(hosts, specs, prefix).value)
    ensures Distinct(Keys(BuildHostnames(hosts, specs, prefix).value))
  {
    CarriedIsPrefix(hosts);
    assert forall i :: 0 <= i < |Carried(hosts)| ==> Carried(hosts)[i] == hosts[i];
    StepsKeepDistinctIps(StartBuild(hosts), specs, prefix);
  }

  /** So a deletion by address removes the only host that has it, and nothing else. */
  lemma DeletionByIpIsExact(st: Build, ip: string) returns (name: string)
    requires Distinct(Keys(st.hosts)) && DistinctIps(st.hosts)
    requires ip !in Keys(st.hosts) && ExistsIp(st.hosts, ip) == Ok(true)
    ensures Delete(st, ip) == Ok(st.(hosts := Remove(st.hosts, name)))
    ensures name in Keys(st.hosts)
    ensures forall i :: 0 <= i < |st.hosts| ==> (HasIp(st.hosts[i], ip) <==> st.hosts[i].0 == name)
    ensures forall i :: 0 <= i < |Remove(st.hosts, name)| ==> !HasIp(Remove(st.hosts, name)[i], ip)
  {
    name := WithoutIpRemoves(st.hosts, ip);
    var n :| 0 <= n < |st.hosts| && Keys(st.hosts)[n] == name;
    GetOfEntry(st.hosts, n);
    forall i | 0 <= i < |st.hosts|
      ensures HasIp(st.hosts[i], ip) <==> st.hosts[i].0 == name
    {
      assert Keys(st.hosts)[i] == st.hosts[i].0;
    }
    RemoveKeys(st.hosts, name);
    RemoveIsPart(st.hosts, name);
    var after := Remove(st.hosts, name);
    forall i | 0 <= i < |after|
      ensures !HasIp(after[i], ip)
    {
      assert Keys(after)[i] == after[i].0;
      assert after[i] in st.hosts;
    }
  }

  // -------------------------------------------------------------------------------------------
  // Adding names to a group
  // -------------------------------------------------------------------------------------------

  lemma {:induction false} AppendMembers(names: seq<string>, more: seq<string>, h: string)
    ensures h in Append(names, more) <==> h in names || h in more
    decreases |more|
  {
    if more != [] {
      AppendMembers(if more[0] in names then names else names + [more[0]], more[1..], h);
      assert more == [more[0]] + more[1..];
    }
  }

  lemma {:induction false} AppendNew(names: seq<string>, more: seq<string>)
    requires Distinct(names + more)
    ensures Append(names, more) == names + more
    decreases |more|
  {
    if more == [] {
      assert names + more == names;
    } else {
      DistinctConcat(names, more);
      assert more[0] in more;
      assert names + [more[0]] + more[1..] == names + more;
      AppendNew(names + [more[0]], more[1..]);
    }
  }

  lemma {:induction false} AppendDistinct(names: seq<string>, more: seq<string>)
    requires Distinct(names)
    ensures Distinct(Append(names, more))
    decreases |more|
  {
    if more != [] {
      AppendDistinct(if more[0] in names then names else names + [more[0]], more[1..]);
    }
  }
}
