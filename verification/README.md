# Verified models of an inventory builder, a word count, a state flattener and a fork benchmark

This Dafny project models the four parts of the repository that hold real logic, and proves what they keep over
every input, run or schedule. `dafny verify dfyconfig.toml` checks everything.

* **Inventory builder** (`assignment4/kubespray/contrib/inventory_builder/inventory.py`). `Inventory.dfy` gives one
  run as functions of the configuration before it; `KubesprayInventory.dfy` is the class that does the same in place,
  method by method, and is proved equal to those functions, errors included. `SpecTheorems`, `BuildTheorems`,
  `AddressTheorems` and `NameTheorems` hold the properties of one spec and one batch, `RoleTheorems` and
  `CalicoTheorems` those of the role assignment, `RunTheorems` those of repeated runs, `HistoryTheorems` those of whole
  histories; `Tables` has the concrete batches that show where a property ends. Python dictionaries are ordered lists
  of entries (`Dicts.dfy`), texts are split as `str.split` does (`Text.dfy`), numerals and addresses are parsed and
  printed (`Decimal.dfy`, `Addresses.dfy`, `HostNames.dfy`).
* **Word count** (`assignment5/WordCount.java`). The tokenizer and its split (`Tokenizer.dfy`), the window function
  with its TreeMap and the TreeSet whose comparator never returns 0 (`SortedCounts.dfy`), and the keyed pipeline as a
  state machine under any interleaving (`Dataflow.dfy`). The only assumptions on the runtime are that equal keys go to
  one worker and that channels are FIFO. Counts wrap like Java ints (`Int32.dfy`).
* **Terraform state flattener and its readers** (`assignment4/kubespray/contrib/terraform/terraform.py`).
  `Flatten.dfy`, `Readers.dfy` and `HostQueries.dfy`. A random draw is a function of the key prefix it is made for;
  every theorem is for every such function.
* **Fork benchmark** (`assignment3/forkbench.c`). The computed value, the closed-form check and 32-bit overflow
  (`ForkBench.dfy`), and the fork/pipe/wait protocol as a state machine (`ForkProtocol.dfy`).

## What does not hold

Several properties one would expect of the code are false. The code is modelled as it is, and these results say
exactly when the property holds:

* Generated names are not always fresh. A batch of addresses and deletions never overwrites an entry or reuses a name
  exactly when no host of the inventory has a generated name with a number above the highest one that the scan has
  seen (`BatchesAreFreshExactly`). The scan stops at the first host without a number, so that a host behind it, like
  node1 in [bastion, node1], can be overwritten (`NextNameIsNewExactly`, `HiddenHostIsOverwritten`).
* A host prefix with a dot gives all generated hosts one short name, so the next number is not above those in use.
  On inventories that the scan reads to the end, the next name is always new exactly when the prefix has no dot
  (`NamesAreFreshExactly`); so are repeated runs harmless (`RepeatsSafelyExactly`), and etcd is always the first
  three hosts (`EtcdHistoriesExactly`). For every dotted prefix, three runs that break the last one are constructed.
* A list of addresses gives exactly the hosts it denotes, whatever the list, if and only if no generated name is an
  address: a spec that is the name of a host is skipped, so with the prefix "10.0.0." some addresses are lost
  (`HostsAreTheUnionExactly`, and `RangeIsNumberedInOrder` range by range).
* The conflict test of `set_calico_rr` looks in the group's record and not in its hosts, contrary to its debug message.
  A run at scale leaves no conflict exactly when no etcd candidate was a master or a node before it, apart from hosts
  named like a record key (`CalicoTestIsRightExactly`). Two runs that grow an inventory to a threshold, any up to
  2^24, and make a master a route reflector are constructed (`GrownInventoryExample`).
* Roles are only removed by the purge, so after shrinking etcd keeps its survivors: two hosts can be two etcd members
  (`RunKeepsEtcdFront` has the exact size).
* A map with a key `%` loses an entry when it is flattened (`FlatteningLosesNothing`). `parse_dict` gives a map back
  exactly when it has neither a key `%` nor a key `#` (`ParseDictRoundTrip`).
* A host that lists a group `_meta` is not found in it: the index is the inverse of the group lists exactly when no host
  does (`IndexInvertsMembership`). `query_host` and `query_list` agree exactly for distinct names
  (`QueriesAgreeExactly`). A second floating-IP pass fails exactly on hosts without a floating IP whose `access_ip` the
  first has removed (`FloatedTwice`).
* The check in `main` of forkbench.c also passes for inverted ranges with start + end == -1 (`CheckPassesExactly`). The
  two last waits of `forkbench` are commented as waiting for the children, but never find one: `spawnChild` has
  already waited (`WaitsAreMatched`).

## Model

| member | source | states |
|---|---|---|
| HistoryTheorems.EtcdHistoriesExactly | assignment4/kubespray/contrib/inventory_builder/inventory.py:94-111 | over all histories of runs from an empty inventory, etcd is a prefix of the ordered hosts of at most three members, and the first three when there are three, if and only if the host prefix has no dot; for runs with addresses, ranges and deletions, and also for runs with nothing but addresses and deletions |
| HistoryTheorems.DottedPrefixBreaks | assignment4/kubespray/contrib/inventory_builder/inventory.py:150-207 | for every dotted prefix there is a history of runs with canonical addresses and deletions that ends without the etcd property |
| HistoryTheorems.EtcdOverHistories | assignment4/kubespray/contrib/inventory_builder/inventory.py:97-103 | for a dot-free prefix the etcd property holds after every history, with distinct and numbered hosts |
| HistoryTheorems.RunKeepsEtcdFront | assignment4/kubespray/contrib/inventory_builder/inventory.py:94-111 | one run keeps the etcd property from any configuration that has it, writes exactly its own host table, and leaves etcd with the survivors of the old group, or 3 (1 with fewer than three hosts) if that is more |
| RunTheorems.RunIsIdempotent | assignment4/kubespray/contrib/inventory_builder/inventory.py:94-111 | a run with addresses only, repeated on what it wrote, gives the same hosts, order, options and groups, from any configuration and for every dot-free prefix |
| RunTheorems.RepeatsSafelyExactly | assignment4/kubespray/contrib/inventory_builder/inventory.py:94-207 | repeating such runs is always harmless if and only if the prefix has no dot; two addresses break it otherwise |
| RunTheorems.FreshRun | assignment4/kubespray/contrib/inventory_builder/inventory.py:94-111 | a whole run on an inventory without hosts is a fresh build, with its masters written out as a block of the host list; at massive scale the three group sizes add up to the number of hosts |
| RunTheorems.FirstRunSucceeds | assignment4/kubespray/contrib/inventory_builder/inventory.py:94-111 | the first run with any list of addresses and ranges raises nothing and its hosts are the union of them, for every prefix with which no generated name is an address |
| RunTheorems.TableIsNumbered | assignment4/kubespray/contrib/inventory_builder/inventory.py:158-207 | for a dot-free prefix: if every host had a number before, every host has one afterwards |
| RoleTheorems.NoStaleHosts | assignment4/kubespray/contrib/inventory_builder/inventory.py:267-303 | after any run every name in any group is in all.hosts or protected; without protected names all.hosts has exactly the names of the run's table and, from distinct names, as many, so the two threshold tests agree |
| RoleTheorems.AssignedTwice | assignment4/kubespray/contrib/inventory_builder/inventory.py:99-111 | assigning roles to the same hosts again changes nothing |
| RoleTheorems.FreshBuild | assignment4/kubespray/contrib/inventory_builder/inventory.py:97-111 | a fresh build cuts the host list: etcd is the first three hosts (the first one of fewer), the masters are the first min(masters, n) hosts, at scale the min(masters, n - e) hosts after etcd; everyone has a role, etcd is apart at scale, the groups partition the hosts at massive scale |
| RoleTheorems.GroupAfterRun | assignment4/kubespray/contrib/inventory_builder/inventory.py:267-335 | a name is in a group after a run if and only if it was there before and is not purged, or its place in the host list gives it the role: a place below 3 (1 with fewer hosts) for etcd, one of the next KUBE_MASTERS places (the first ones below scale) for kube-master, no etcd host at scale and no master at massive scale for kube-node, the etcd places at scale for calico-rr; no group appears or disappears, and the record of k8s-cluster is the same after every run |
| RoleTheorems.KeptExactly | assignment4/kubespray/contrib/inventory_builder/inventory.py:44-46 | the purge leaves the hosts of the run and the six role names |
| RoleTheorems.RequiredGroups | assignment4/kubespray/contrib/inventory_builder/inventory.py:137-148 | without a configuration there are exactly five empty groups; otherwise only missing ones of these are added |
| RoleTheorems.SliceMembers | assignment4/kubespray/contrib/inventory_builder/inventory.py:103-111 | a slice has exactly the names at the places in between, where a negative end counts from the back |
| CalicoTheorems.CalicoTestIsRightExactly | assignment4/kubespray/contrib/inventory_builder/inventory.py:309-319 | after a run at scale the route reflectors among the candidates are those that are no master and no node if and only if, in the configuration before the run, the masters and nodes among them are the ones named like a record key and no reflectors yet; without such names, if and only if none was a master or a node |
| CalicoTheorems.CandidateAfterAssign | assignment4/kubespray/contrib/inventory_builder/inventory.py:297-335 | a run at scale neither makes a candidate a master or a node nor takes such a role from it, and makes it a route reflector unless it is named `hosts` or like another key of the two records |
| CalicoTheorems.GrownInventoryExample | assignment4/kubespray/contrib/inventory_builder/inventory.py:94-111 | for any threshold up to the 2^24 addresses of one block: two runs with addresses, one host and then all, after which a master is a route reflector |
| RoleTheorems.AssignSucceeds | assignment4/kubespray/contrib/inventory_builder/inventory.py:267-335 | without broken group records the role assignment raises nothing |
| RoleTheorems.FirstRunAssigns | assignment4/kubespray/contrib/inventory_builder/inventory.py:137-148 | without any group to start from, the required groups are empty and the assignment raises nothing |
| BuildTheorems.BatchIsFresh | assignment4/kubespray/contrib/inventory_builder/inventory.py:158-207 | for every batch of addresses and deletions and a dot-free prefix: survivors keep order and options, new names are none of the carried ones, nor any of the inventory unless a host behind the stop has a generated name with a higher number, and the count is carried + added - deleted |
| NameTheorems.BatchesAreFreshExactly | assignment4/kubespray/contrib/inventory_builder/inventory.py:158-207 | for every inventory and prefix: no batch of addresses and deletions overwrites an entry or reuses a present name if and only if no host has a generated name with a number above the highest one seen |
| NameTheorems.HiddenHostIsOverwritten | assignment4/kubespray/contrib/inventory_builder/inventory.py:159-172 | an inventory of an unnumbered host and prefix1 is one where this happens |
| BuildTheorems.NextNameIsNewExactly | assignment4/kubespray/contrib/inventory_builder/inventory.py:159-172 | with a dot-free prefix the next name is new in the whole inventory if and only if no host behind the stop has it |
| BuildTheorems.NamesAreFreshExactly | assignment4/kubespray/contrib/inventory_builder/inventory.py:150-172 | on all inventories that the scan reads to the end the next generated name is new, if and only if the prefix has no dot |
| BuildTheorems.EffectOf | assignment4/kubespray/contrib/inventory_builder/inventory.py:174-223 | what an accepted spec does to the table, in all cases: a deletion removes one host found by name or else by address, an address or a named host puts in one entry of exactly ansible_host, ip and access_ip whose address no host has, anything else changes nothing; and exactly which specs do so |
| SpecTheorems.AddressIsAdded | assignment4/kubespray/contrib/inventory_builder/inventory.py:184-207 | `ip` and `ip,access_ip` are accepted and add exactly one host: prefix and next number, with the three keys, ansible_host and access_ip being the last field |
| SpecTheorems.NamedIsAdded | assignment4/kubespray/contrib/inventory_builder/inventory.py:208-223 | `name,ip` and `name,ip,access_ip` are accepted and add or replace exactly the host of that name, with the three keys |
| SpecTheorems.AcceptedExactly | assignment4/kubespray/contrib/inventory_builder/inventory.py:174-223 | where every host has an address, exactly which specs are accepted, by first character and number of commas |
| SpecTheorems.FieldsStaySet | assignment4/kubespray/contrib/inventory_builder/inventory.py:184-223 | which fields of a spec later bare names can use |
| SpecTheorems.FirstWithIpGoes | assignment4/kubespray/contrib/inventory_builder/inventory.py:260-265 | of several hosts with the address the first one is deleted |
| SpecTheorems.BatchWritesEntries | assignment4/kubespray/contrib/inventory_builder/inventory.py:158-224 | after any batch each entry is one of the inventory as it was, or has exactly the three keys with ansible_host equal to access_ip |
| SpecTheorems.ExpandExactly | assignment4/kubespray/contrib/inventory_builder/inventory.py:226-249 | a spec with a '-' that starts neither with '-' nor with a letter becomes the addresses of its range, and fails exactly when its stripped text is not two addresses around one '-'; every other spec stays |
| SpecTheorems.StripTakesBlanks | assignment4/kubespray/contrib/inventory_builder/inventory.py:242-242 | stripping takes away the whitespace at both ends and nothing else |
| SpecTheorems.HostIdOfDigits | assignment4/kubespray/contrib/inventory_builder/inventory.py:150-156 | the number of a host is that of all the digits at the end of its short name, with or without a domain |
| SpecTheorems.HostIdOfOthers | assignment4/kubespray/contrib/inventory_builder/inventory.py:150-156 | a short name without a digit at its end has none |
| SpecTheorems.HostIdBeforeNewline | assignment4/kubespray/contrib/inventory_builder/inventory.py:154-154 | a newline may follow the digits |
| SpecTheorems.GeneratedHasItsNumber | assignment4/kubespray/contrib/inventory_builder/inventory.py:150-156 | prefix and numeral have that number, if the prefix has no dot and no digit at its end |
| SpecTheorems.HighestIsLargest | assignment4/kubespray/contrib/inventory_builder/inventory.py:159-168 | the scan finds the largest number of the carried hosts, or 0 |
| SpecTheorems.NextNameAfterNumbered | assignment4/kubespray/contrib/inventory_builder/inventory.py:159-204 | after prefix1..prefixk the next name is prefix(k+1) |
| BuildTheorems.StepKeepsDistinctIps | assignment4/kubespray/contrib/inventory_builder/inventory.py:174-224 | each spec, also one that names a host, keeps the `ip` values distinct |
| BuildTheorems.BatchKeepsDistinctIps | assignment4/kubespray/contrib/inventory_builder/inventory.py:158-224 | the same for whole batches, from any table with distinct `ip` values |
| BuildTheorems.DeletionByIpIsExact | assignment4/kubespray/contrib/inventory_builder/inventory.py:254-265 | deletion by address removes the only host that has it and no other |
| BuildTheorems.CarriedIsPrefix | assignment4/kubespray/contrib/inventory_builder/inventory.py:159-168 | the scan carries over the hosts up to and including the first one without a number; all of them if and only if all but the last have numbers |
| AddressTheorems.HostsAreTheUnion | assignment4/kubespray/contrib/inventory_builder/inventory.py:174-249 | from an empty inventory, any list of addresses and ranges gives hosts for exactly the union they denote, each address once, for every prefix with which no generated name is an address |
| NameTheorems.HostsAreTheUnionExactly | assignment4/kubespray/contrib/inventory_builder/inventory.py:174-249 | all lists do so if and only if no generated name is an address |
| NameTheorems.OrdinaryPrefix | assignment4/kubespray/contrib/inventory_builder/inventory.py:203-203 | a prefix without a dot, or with any character other than digits and dots, makes no name an address |
| AddressTheorems.RangeIsNumberedInOrder | assignment4/kubespray/contrib/inventory_builder/inventory.py:174-249 | a range becomes prefix1, prefix2, ... bound to its addresses in order, if and only if none of its addresses is the name of a host that is there by then |
| AddressTheorems.HostOfRange | assignment4/kubespray/contrib/inventory_builder/inventory.py:204-207 | the i-th host of a range is named prefix and i + 1, and its entry has exactly ansible_host, ip and access_ip, all the address first + i |
| AddressTheorems.ExpandAllOfTexts | assignment4/kubespray/contrib/inventory_builder/inventory.py:226-249 | expanding the texts of addresses and ranges lists the texts of what they denote, in order |
| Addresses.AddressRoundTrip | assignment4/kubespray/contrib/inventory_builder/inventory.py:229-238 | parsing the dotted text (RFC 3986, section 3.2.2) of an address gives the address |
| Addresses.OnlyCanonicalTexts | assignment4/kubespray/contrib/inventory_builder/inventory.py:229-238 | the only text that parses to an address is the one that is printed for it |
| Addresses.TextOfOctets | assignment4/kubespray/contrib/inventory_builder/inventory.py:238-238 | the text of a 32-bit address is its four octets in decimal, the most significant one first |
| HostNames.IdOfGenerated | assignment4/kubespray/contrib/inventory_builder/inventory.py:150-156 | with a dot-free prefix, a generated name has a number of at least the one it was made from |
| HostNames.GeneratedNamesDiffer | assignment4/kubespray/contrib/inventory_builder/inventory.py:203-203 | different numbers give different names |
| KubesprayInventory.Range2Ips | assignment4/kubespray/contrib/inventory_builder/inventory.py:226-249 | expands every range and keeps every other spec, or fails on the first bad range |
| KubesprayInventory.FindIp | assignment4/kubespray/contrib/inventory_builder/inventory.py:254-258 | whether a host has the address, or the error of a host without options `ip` met before it |
| KubesprayInventory.DeleteHostByIp | assignment4/kubespray/contrib/inventory_builder/inventory.py:260-265 | the table without the first host that has the address |
| KubesprayInventory.ScanExisting | assignment4/kubespray/contrib/inventory_builder/inventory.py:159-168 | the carried hosts up to and including the first one without a number, and the highest number among them |
| KubesprayInventory.KubesprayInventory.EnsureRequiredGroups | assignment4/kubespray/contrib/inventory_builder/inventory.py:137-148 | adds exactly the missing groups |
| KubesprayInventory.KubesprayInventory.BuildHosts | assignment4/kubespray/contrib/inventory_builder/inventory.py:158-224 | the new host table, or the error, of the specification function; the configuration is unchanged |
| KubesprayInventory.KubesprayInventory.PurgeInvalidHosts | assignment4/kubespray/contrib/inventory_builder/inventory.py:267-282 | purges every group but k8s-cluster, and all.hosts, whatever order the groups are visited in; fails exactly on a group without `hosts` |
| KubesprayInventory.KubesprayInventory.AddHostToGroup | assignment4/kubespray/contrib/inventory_builder/inventory.py:284-295 | appends a new name, keeps a present one in place, changes no other group |
| KubesprayInventory.KubesprayInventory.AddHosts | assignment4/kubespray/contrib/inventory_builder/inventory.py:297-299 | the same for a list of names (set_kube_master, set_etcd) |
| KubesprayInventory.KubesprayInventory.SetAll | assignment4/kubespray/contrib/inventory_builder/inventory.py:301-303 | writes each host's options to all.hosts, in order |
| KubesprayInventory.KubesprayInventory.SetKubeNode | assignment4/kubespray/contrib/inventory_builder/inventory.py:321-335 | adds the hosts that are not etcd (at scale) nor masters (at massive scale), counting all.hosts |
| KubesprayInventory.KubesprayInventory.SetCalicoRr | assignment4/kubespray/contrib/inventory_builder/inventory.py:309-319 | adds the candidates that are no key of the two group records |
| KubesprayInventory.KubesprayInventory.Assign | assignment4/kubespray/contrib/inventory_builder/inventory.py:99-111 | purge and role assignment in place equal the specification function |
| KubesprayInventory.KubesprayInventory.Run | assignment4/kubespray/contrib/inventory_builder/inventory.py:94-111 | a whole run in place equals the specification function, errors included |
| Tokenizer.WordsAreMaximalRuns | assignment5/WordCount.java:163-172 | the words are exactly the maximal runs of letters, left to right |
| Tokenizer.NonEmptySplitIsWords | assignment5/WordCount.java:165-172 | the non-empty pieces of the regular-expression split are those words |
| Tokenizer.WordsOfJoined | assignment5/WordCount.java:163-172 | two texts joined by a non-letter have the words of both, in order |
| Tokenizer.CutsDoNotMatter | assignment5/WordCount.java:163-172 | the tokens of a text do not depend on where it is cut into lines at non-letters |
| Tokenizer.TokensAreSmallLetters | assignment5/WordCount.java:165-172 | the tokens of a line are its maximal runs of letters, in order, letter by letter the small letter with the same place in the alphabet |
| Tokenizer.CaseDoesNotMatter | assignment5/WordCount.java:165-165 | lines that differ only in the case of letters have the same tokens |
| Tokenizer.CaseDoesNotMatterInLines | assignment5/WordCount.java:163-172 | the same for whole texts, so their counts are the same |
| Tokenizer.FlatMap | assignment5/WordCount.java:163-173 | appends one entry with count 1 for each maximal run of letters of the line, in order, whose word is that run in small letters |
| SortedCounts.TreeMap.Put | assignment5/WordCount.java:118-125 | the map updated at one word, entries kept sorted by word |
| SortedCounts.InsertPlaces | assignment5/WordCount.java:180-187 | the search with the comparator that never returns 0 drops no entry and puts it behind all entries of at least its count, in a tree of any shape |
| SortedCounts.TreeSet.Add | assignment5/WordCount.java:180-187 | the same after any rebalancing that keeps the contents |
| SortedCounts.PlaceKeepsRanked | assignment5/WordCount.java:180-187 | entries placed in word order stay ranked by count and then word, none lost |
| SortedCounts.RankingIsUnique | assignment5/WordCount.java:127-135 | a map has only one listing with counts descending and words ascending among equal counts |
| SortedCounts.LessIsLexicographic | assignment5/WordCount.java:118-125 | the order of words is decided by the first place where they differ |
| SortedCounts.LastCountsMeans | assignment5/WordCount.java:121-125 | the last entry of a word decides its count |
| SortedCounts.EntriesSortedByValues | assignment5/WordCount.java:178-189 | the sorted set holds that listing of the whole map |
| SortedCounts.Process | assignment5/WordCount.java:112-136 | whatever arrives, the ranking of the last count per word is emitted |
| Dataflow.TokensAreConserved | assignment5/WordCount.java:97-102 | in every reachable state the count at a word's worker plus its tokens under way is its number of occurrences, and no other worker has counted it |
| Int32.WrapIsResidue | assignment5/WordCount.java:102-102 | a count is stored as the only Java int that differs from it by a multiple of 2^32 |
| Dataflow.SendKeepsTokens | assignment5/WordCount.java:99-101 | routing to the workers loses no token and keeps each with its worker |
| Dataflow.StepKeeps | assignment5/WordCount.java:97-104 | every step of every component keeps the invariant |
| Dataflow.FinishedRunIsSequential | assignment5/WordCount.java:97-125 | at the end of every schedule the last counts are the sequential word count, whether workers emit every count or only the last |
| Dataflow.OutputIsDetermined | assignment5/WordCount.java:97-137 | any two finished runs, with different schedules, routings, worker numbers and policies, have the same output, and it is the ranking of the sequential count |
| Dataflow.NoDeadlock | assignment5/WordCount.java:97-104 | as long as a run is not finished, some step is possible |
| Dataflow.EveryRunIsBounded | assignment5/WordCount.java:97-104 | every run has at most lines + 3 * tokens steps |
| Flatten.ConvertToV3Structure | assignment4/kubespray/contrib/terraform/terraform.py:41-60 | succeeds exactly when the argument and every list element that can be reached from it are strings or dictionaries, and then makes the assignments of the specification in order |
| Flatten.FlattenableExactly | assignment4/kubespray/contrib/terraform/terraform.py:45-53 | the recursion accepts exactly the values in which every list element on every path is a string or a dictionary |
| Flatten.StringListsConvert | assignment4/kubespray/contrib/terraform/terraform.py:45-53 | an object whose lists are lists of strings is always accepted |
| Flatten.StoreField | assignment4/kubespray/contrib/terraform/terraform.py:48-59 | one attribute: list with `#`, map with `%`, or plain value |
| Flatten.UpdateWithItems | assignment4/kubespray/contrib/terraform/terraform.py:52-53 | updating with each flattened element equals assigning all their entries |
| Flatten.UpdateWithMap | assignment4/kubespray/contrib/terraform/terraform.py:56-57 | one entry per key of the map |
| Flatten.FlatKeysDistinct | assignment4/kubespray/contrib/terraform/terraform.py:41-60 | with distinct dot-free keys no two entries share a key if and only if no map has a key `%` |
| Flatten.FlatteningLosesNothing | assignment4/kubespray/contrib/terraform/terraform.py:41-60 | for every random draw the entries are as many as values plus counters if and only if no map has a key `%` |
| Flatten.FlattenedAgreesWithReader | assignment4/kubespray/contrib/terraform/terraform.py:41-60 | where no map has a key `%`, looking up any key gives what an independent reader finds by following that path in the nested value, and nothing else is stored |
| Readers.ParsePrefix | assignment4/kubespray/contrib/terraform/terraform.py:154-164 | yields the entries below the prefix, without `#`, in order |
| Readers.ParseAttrList | assignment4/kubespray/contrib/terraform/terraform.py:167-173 | groups by index, or fails on a key without a second separator |
| Readers.ParseListRoundTrip | assignment4/kubespray/contrib/terraform/terraform.py:180-181 | parse_list of a flattened list of strings is the list, for every random draw |
| Readers.StringListsRoundTrip | assignment4/kubespray/contrib/terraform/terraform.py:180-181 | an object whose lists are lists of strings is converted, and parse_list gives each of them back |
| Readers.ParseDictRoundTrip | assignment4/kubespray/contrib/terraform/terraform.py:176-177 | parse_dict of a flattened map is one `%` entry with the size and then the map, if and only if the map has neither a key `#` nor a key `%`; in general it is the size entry updated with the map less its `#` |
| Readers.ParseAttrListCommutes | assignment4/kubespray/contrib/terraform/terraform.py:154-173 | parse_attr_list of a flattened object gives the elements flattened alone, in order, with the same draws; all of them if and only if each has an entry |
| Readers.ParseAttrListOfMapFails | assignment4/kubespray/contrib/terraform/terraform.py:167-171 | on a flattened map it fails, at the size entry |
| HostQueries.IterHostIps | assignment4/kubespray/contrib/terraform/terraform.py:339-357 | updates each host in place up to the first one that raises, which has its addresses at most, and reports whether one did |
| HostQueries.FloatHost | assignment4/kubespray/contrib/terraform/terraform.py:342-355 | one host of the pass: with a floating IP all four addresses are present and are that one, except for an access_ip that the metadata hides; without one nothing is new; and exactly when its `id` and `metadata` raise |
| HostQueries.FloatedChangesAddressesOnly | assignment4/kubespray/contrib/terraform/terraform.py:344-355 | the pass gives a host exactly the four addresses, less a hidden access_ip, and changes no other attribute |
| HostQueries.CanFloatExactly | assignment4/kubespray/contrib/terraform/terraform.py:342-355 | a host is updated unless its id is missing or not hashable, its metadata is missing or cannot be searched and read, or an access_ip to be removed is missing |
| HostQueries.FloatedTwice | assignment4/kubespray/contrib/terraform/terraform.py:344-355 | a second pass succeeds if and only if the host has a floating IP or does not hide its access_ip, and then changes nothing |
| HostQueries.QueryHost | assignment4/kubespray/contrib/terraform/terraform.py:361-366 | the attributes of the first host of that name, or none |
| HostQueries.QueryList | assignment4/kubespray/contrib/terraform/terraform.py:369-385 | each group but `_meta` lists its members in host order, no group is empty, hostvars has the last host of each name |
| HostQueries.EnterHost | assignment4/kubespray/contrib/terraform/terraform.py:374-380 | enters one host in its groups, whatever order the set is visited in |
| HostQueries.IndexInvertsMembership | assignment4/kubespray/contrib/terraform/terraform.py:369-385 | with distinct names a host is in a group of the index if and only if it lists it (empty read as all), once, or twice in all if it lists both; for all groups together if and only if no host lists `_meta` |
| HostQueries.IndexKeepsOrder | assignment4/kubespray/contrib/terraform/terraform.py:373-380 | within a group of the index the entries are in the order of the hosts, each from a host that lists the group |
| HostQueries.ListAfterPass | assignment4/kubespray/contrib/terraform/terraform.py:438-442 | the list mode: the index of the hosts after the pass, or its error; no pass without floating IPs |
| HostQueries.HostAfterPass | assignment4/kubespray/contrib/terraform/terraform.py:438-447 | the host mode: the first host of the name after the pass; it fails only at a host up to that one |
| HostQueries.IndexAfterPass | assignment4/kubespray/contrib/terraform/terraform.py:339-385 | after the pass the index inverts the group lists the hosts had before it, and both queries give each host's attributes after the pass |
| HostQueries.HostvarsAgreeWithSearch | assignment4/kubespray/contrib/terraform/terraform.py:361-385 | with distinct names the index and the search agree on every name |
| HostQueries.QueriesAgreeExactly | assignment4/kubespray/contrib/terraform/terraform.py:361-385 | for hosts with a given list of names both queries always agree if and only if the names are distinct |
| ForkBench.ForkbenchIsRangeSum | assignment3/forkbench.c:74-97 | the sum of the range, and 2n - 1 processes for n numbers |
| ForkBench.CheckPassesExactly | assignment3/forkbench.c:139-140 | the check passes if and only if start <= end or start + end == -1; in the first case the formula is the sum of the range |
| ForkBench.Forkbench32Exactly | assignment3/forkbench.c:74-97 | on 0 <= start <= end, no int operation overflows if and only if the sum fits in an int |
| Int32.CheckedExactly | assignment3/forkbench.c:84-96 | a C operation overflows exactly outside -2^31 .. 2^31 - 1 |
| ForkBench.OverflowLimits | assignment3/forkbench.c:139-140 | the formula overflows exactly above 46340; forkbench alone is safe up to 65535 and overflows beyond it from 0 |
| ForkProtocol.StepKeeps | assignment3/forkbench.c:21-97 | every action of every process keeps the protocol invariant |
| ForkProtocol.InvReachable | assignment3/forkbench.c:21-97 | the invariant holds in every reachable state |
| ForkProtocol.ProcessesFormOneChain | assignment3/forkbench.c:21-97 | the live processes are one chain of parents and children of length at most 1 + ceil(log2 n) |
| ForkProtocol.CeilLog2IsLeast | assignment3/forkbench.c:84-86 | that bound is the least power of two that covers n |
| ForkProtocol.WaitsAreMatched | assignment3/forkbench.c:47-52 | each wait in spawnChild has exactly one child; the two final waits have none |
| ForkProtocol.PipesCarryOneResult | assignment3/forkbench.c:34-68 | a pipe never carries more than one result, and at the end each has carried one that was read |
| ForkProtocol.NoDeadlock | assignment3/forkbench.c:21-97 | in every reachable state before the end exactly one action is possible |
| ForkProtocol.EveryRunEnds | assignment3/forkbench.c:21-97 | every run ends after exactly 12n - 11 actions and 2n - 2 forks, with the result of forkbench |

## Left out

- Run: an error leaves nothing written, as the program exits before it saves; what the object holds after the exception
  is not specified.
- HistoryTheorems.EtcdOverHistories: requires a dot-free prefix; `EtcdHistoriesExactly` proves that condition necessary.
- Flatten.FlattenedAgreesWithReader: does not say which entry a key `%` of a map leaves behind, the size or the value.
- PurgeInvalidHosts: the values of role entries, always None in the code, are not modelled, only the names in order; child
  groups are an unordered map and the purge visits them in any order.
- ParseAddress: canonical dotted IPv4 texts only, without leading zeros; IPv6 texts count as invalid ranges.
- IterHostIps: the generator is run to its end, as query_list does; the hosts are distinct objects, and their attributes
  are texts, other scalars, tables and lists.
- Flattened: a random draw is a function of the prefix it is made for, so two draws at the same prefix would agree; with
  distinct keys no two draws have the same prefix.
- Dataflow.Finished: the one window over all input closes when every channel is empty; emission of only the last counts
  is a flush at the end of input.
- TreeSet: red-black balancing is any change of the tree that keeps its in-order contents.
- Spawn: creating the pipe and forking is one action, the system calls do not fail, and the child ends after its write, as
  the comments at assignment3/forkbench.c:18-20 and 92 say; lines 43-44 are not modelled.
- Configuration records without `children`, other YAML shapes, YAML reading and writing, commands, help and debug output.
- Host names taken over ssh (inventory.py:197-201); thresholds, prefix and number of masters are parameters.
- Letters, digits and whitespace are ASCII; no Unicode or locale case mapping.
- Flink's runtime, timers, network and CSV output.
- Of terraform.py: file walking, JSON reading, the copying of attributes in packet_device, openstack_host and
  iterresources, query_hostfile and the argument parsing and output of main.
- Of forkbench.c: timing and argument parsing.
