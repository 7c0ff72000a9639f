/** Filtering and flattening decoded squeue records into job hosts. */
module Squeue {
  import opened Wrappers
  import opened Text
  import opened HostList
  import opened HostListOutcome
  import opened JobHosts

  const RUNNING: string := "RUNNING"
  const CORE: string := "CORE"
  const CORE_PREFIX: string := "CR_CORE"

  const USE_JOB_ID: string := "job_id"
  const USE_SLUID: string := "sluid"

  datatype Allocation = Allocation(name: string, nodeName: string) {
    /** Whichever spelling this Slurm version used. */
    function Name(): string {
      if name != "" then name else nodeName
    }
  }

  datatype Nodes = Nodes(list: string, selectType: seq<string>, allocation: seq<Allocation>)

  datatype Resources = Resources(
    selectType: seq<string>,
    allocatedCores: int,
    allocatedNodes: seq<Allocation>,
    nodes: Nodes)

  datatype Job = Job(
    jobID: string,
    sluid: string,
    account: string,
    jobState: seq<string>,
    resources: Option<Resources>)

  // ----- the filters

  predicate CoreType(t: string) {
    t == CORE || HasPrefix(t, CORE_PREFIX)
  }

  /** The outer select types decide if there are any, then the nested ones, then the core count. */
  ghost predicate CoreAllocated(r: Resources) {
    if r.selectType != [] then exists t | t in r.selectType :: CoreType(t)
    else if r.nodes.selectType != [] then exists t | t in r.nodes.selectType :: CoreType(t)
    else r.allocatedCores > 0
  }

  method IsCoreAllocated(r: Resources) returns (ok: bool)
    ensures ok <==> CoreAllocated(r)
  {
    var selectTypes := r.selectType;
    if |selectTypes| == 0 {
      selectTypes := r.nodes.selectType;
    }
    if |selectTypes| > 0 {
      var i := 0;
      while i < |selectTypes|
        invariant 0 <= i <= |selectTypes|
        invariant forall t | t in selectTypes[..i] :: !CoreType(t)
      {
        if CoreType(selectTypes[i]) {
          return true;
        }
        i := i + 1;
      }
      assert selectTypes[..i] == selectTypes;
      return false;
    }
    return r.allocatedCores > 0;
  }

  method Contains(haystack: seq<string>, needle: string) returns (found: bool)
    ensures found <==> needle in haystack
  {
    var i := 0;
    while i < |haystack|
      invariant 0 <= i <= |haystack|
      invariant needle !in haystack[..i]
    {
      if haystack[i] == needle {
        return true;
      }
      i := i + 1;
    }
    return false;
  }

  /** The identifier to key a job by, as (job id, sluid), or None when the configured one is missing. */
  function Identify(jobIdentifier: string, j: Job): (r: Option<(string, string)>)
    ensures r.Some? ==> (r.value.0 == "") != (r.value.1 == "")
    ensures r.Some? && r.value.0 != "" <==>
      Trim(j.jobID) != "" && jobIdentifier != USE_SLUID && (jobIdentifier == USE_JOB_ID || Trim(j.sluid) == "")
    ensures r.Some? && r.value.1 != "" <==> Trim(j.sluid) != "" && jobIdentifier != USE_JOB_ID
    ensures r.Some? ==> r.value.0 in {"", Trim(j.jobID)} && r.value.1 in {"", Trim(j.sluid)}
  {
    var id, s := Trim(j.jobID), Trim(j.sluid);
    if jobIdentifier == USE_JOB_ID then
      if id == "" then None else Some((id, ""))
    else if jobIdentifier == USE_SLUID then
      if s == "" then None else Some(("", s))
    else if s != "" then Some(("", s))
    else if id == "" then None
    else Some((id, ""))
  }

  // ----- node names

  /** The non-empty names of an expanded list. */
  function Named(allocs: seq<Allocation>): seq<string> {
    if allocs == [] then []
    else
      var name := Trim(allocs[0].Name());
      (if name == "" then [] else [name]) + Named(allocs[1..])
  }

  lemma NamedStep(allocs: seq<Allocation>, i: nat, names: seq<string>)
    requires i < |allocs|
    ensures var name := Trim(allocs[i].Name());
      names + Named(allocs[i..]) == (if name == "" then names else names + [name]) + Named(allocs[i + 1..])
  {
    var name := Trim(allocs[i].Name());
    assert allocs[i..][1..] == allocs[i + 1..];
    if name != "" {
      assert names + ([name] + Named(allocs[i + 1..])) == names + [name] + Named(allocs[i + 1..]);
    }
  }

  /** An expanded list wins over the hostlist, and the newer place of it over the older. */
  function NodeNames(r: Resources): Expansion {
    if Named(r.nodes.allocation) != [] then Names(Named(r.nodes.allocation))
    else if Named(r.allocatedNodes) != [] then Names(Named(r.allocatedNodes))
    else ExpandedList(r.nodes.list)
  }

  method CollectNames(allocs: seq<Allocation>) returns (names: seq<string>)
    ensures names == Named(allocs)
  {
    names := [];
    var i := 0;
    while i < |allocs|
      invariant 0 <= i <= |allocs|
      invariant names + Named(allocs[i..]) == Named(allocs)
    {
      NamedStep(allocs, i, names);
      var name := Trim(allocs[i].Name());
      if name != "" {
        names := names + [name];
      }
      i := i + 1;
    }
    assert names + [] == names;
  }

  method FindNodeNames(r: Resources) returns (names: Expansion)
    ensures names == NodeNames(r)
  {
    var lists := [r.nodes.allocation, r.allocatedNodes];
    var i := 0;
    while i < |lists|
      invariant 0 <= i <= |lists|
      invariant forall k | 0 <= k < i :: Named(lists[k]) == []
    {
      var found := CollectNames(lists[i]);
      if |found| > 0 {
        assert i == 1 ==> Named(lists[0]) == [];
        return Names(found);
      }
      i := i + 1;
    }
    assert Named(lists[0]) == [] && Named(lists[1]) == [];
    names := ExpandHostList(r.nodes.list);
  }

  // ----- flattening

  /** Whether the two squeue filters let a job through. */
  ghost predicate Eligible(j: Job) {
    RUNNING in j.jobState && j.resources.Some? && CoreAllocated(j.resources.value)
  }

  /** The job hosts of one job with an identifier and a node list. */
  function HostsOn(id: (string, string), account: string, names: seq<string>): (r: seq<JobHost>)
    ensures |r| == |names|
    ensures forall i | 0 <= i < |r| :: r[i] == JobHost(id.0, id.1, account, names[i])
  {
    seq(|names|, i requires 0 <= i < |names| => JobHost(id.0, id.1, account, names[i]))
  }

  /** What a gather does: return hosts, or never return (ParseNever says when). */
  datatype Gathered = Hosts(hosts: seq<JobHost>) | Never {
    function Then(more: Gathered): Gathered {
      match (this, more)
      case (Hosts(a), Hosts(b)) => Hosts(a + b)
      case _ => Never
    }
  }

  /** What one job contributes, none of it depending on any other job. */
  ghost function FromJob(jobIdentifier: string, j: Job): Gathered {
    if !Eligible(j) || Identify(jobIdentifier, j).None? then Hosts([])
    else
      match NodeNames(j.resources.value)
      case Names(names) => Hosts(HostsOn(Identify(jobIdentifier, j).value, j.account, names))
      case Failed(_) => Hosts([])
      case Diverges => Never
  }

  ghost function FromJobs(jobIdentifier: string, jobs: seq<Job>): Gathered {
    if jobs == [] then Hosts([])
    else FromJob(jobIdentifier, jobs[0]).Then(FromJobs(jobIdentifier, jobs[1..]))
  }

  method Parse(jobIdentifier: string, jobs: seq<Job>) returns (r: Gathered)
    ensures r == FromJobs(jobIdentifier, jobs)
    ensures r.Hosts? ==> forall h :: h in r.hosts <==> exists j | j in jobs :: Reports(jobIdentifier, j, h)
    ensures r.Never? <==> exists j | j in jobs :: Blocks(jobIdentifier, j)
  {
    var hosts: seq<JobHost> := [];
    ghost var all := FromJobs(jobIdentifier, jobs);
    GatherMeaning(jobIdentifier, jobs);
    var i := 0;
    ThenEmpty(all);
    while i < |jobs|
      invariant 0 <= i <= |jobs|
      invariant Hosts(hosts).Then(FromJobs(jobIdentifier, jobs[i..])) == all
    {
      assert jobs[i..][1..] == jobs[i + 1..];
      ThenAssociative(Hosts(hosts), FromJob(jobIdentifier, jobs[i]), FromJobs(jobIdentifier, jobs[i + 1..]));
      var more := ParseJob(jobIdentifier, jobs[i]);
      if more.Never? {
        return Never;
      }
      hosts := hosts + more.hosts;
      i := i + 1;
    }
    r := Hosts(hosts);
    assert hosts + [] == hosts;
  }

  /** The body of the loop over jobs; a skipped job contributes nothing. */
  method ParseJob(jobIdentifier: string, j: Job) returns (r: Gathered)
    ensures r == FromJob(jobIdentifier, j)
  {
    var running := Contains(j.jobState, RUNNING);
    if !running {
      return Hosts([]);
    }
    if j.resources.None? {
      return Hosts([]);
    }
    var core := IsCoreAllocated(j.resources.value);
    if !core {
      return Hosts([]);
    }
    var id := Identify(jobIdentifier, j);
    if id.None? {
      return Hosts([]);
    }
    var names := FindNodeNames(j.resources.value);
    match names
    case Failed(_) =>
      return Hosts([]);
    case Diverges =>
      return Never;
    case Names(nodes) =>
      var hosts: seq<JobHost> := [];
      var i := 0;
      while i < |nodes|
        invariant 0 <= i <= |nodes|
        invariant hosts == HostsOn(id.value, j.account, nodes)[..i]
      {
        hosts := hosts + [JobHost(id.value.0, id.value.1, j.account, nodes[i])];
        i := i + 1;
      }
      return Hosts(hosts);
  }

  lemma ThenEmpty(g: Gathered)
    ensures Hosts([]).Then(g) == g && g.Then(Hosts([])) == g
  {
    if g.Hosts? {
      assert [] + g.hosts == g.hosts == g.hosts + [];
    }
  }

  lemma ThenAssociative(a: Gathered, b: Gathered, c: Gathered)
    ensures a.Then(b.Then(c)) == a.Then(b).Then(c)
  {
    if a.Hosts? && b.Hosts? && c.Hosts? {
      assert a.hosts + (b.hosts + c.hosts) == a.hosts + b.hosts + c.hosts;
    }
  }

  /** Parsing distributes over concatenation. */
  lemma {:induction false} ParseConcat(jobIdentifier: string, a: seq<Job>, b: seq<Job>)
    ensures FromJobs(jobIdentifier, a + b) == FromJobs(jobIdentifier, a).Then(FromJobs(jobIdentifier, b))
  {
    if a == [] {
      assert a + b == b;
      ThenEmpty(FromJobs(jobIdentifier, b));
    } else {
      assert (a + b)[1..] == a[1..] + b;
      ParseConcat(jobIdentifier, a[1..], b);
      ThenAssociative(
        FromJob(jobIdentifier, a[0]), FromJobs(jobIdentifier, a[1..]), FromJobs(jobIdentifier, b));
    }
  }

  /** A skipped job, for whatever reason, changes nothing about the others. */
  lemma SkippedJobImmaterial(jobIdentifier: string, a: seq<Job>, j: Job, b: seq<Job>)
    requires FromJob(jobIdentifier, j) == Hosts([])
    ensures FromJobs(jobIdentifier, a + [j] + b) == FromJobs(jobIdentifier, a + b)
  {
    ParseConcat(jobIdentifier, a + [j], b);
    ParseConcat(jobIdentifier, a, [j]);
    ParseConcat(jobIdentifier, a, b);
    ThenEmpty(FromJob(jobIdentifier, j));
    ThenEmpty(FromJobs(jobIdentifier, a));
  }

  // ----- what a gather holds, read from the records alone

  /** Running, on cores: by the outer select types, else by the nested ones, else by the core count. */
  ghost predicate RunsOnCores(j: Job) {
    && "RUNNING" in j.jobState
    && j.resources.Some?
    && var r := j.resources.value;
       || (exists t | t in r.selectType :: t == "CORE" || "CR_CORE" <= t)
       || (r.selectType == [] && exists t | t in r.nodes.selectType :: t == "CORE" || "CR_CORE" <= t)
       || (r.selectType == [] && r.nodes.selectType == [] && r.allocatedCores > 0)
  }

  /** The identifiers of the host are those of the job under this setting: exactly one, trimmed and not blank. */
  predicate Identifies(jobIdentifier: string, j: Job, jobID: string, sluid: string) {
    match jobIdentifier
    case "job_id" => jobID == Trim(j.jobID) != "" && sluid == ""
    case "sluid" => jobID == "" && sluid == Trim(j.sluid) != ""
    case _ => if Trim(j.sluid) != "" then jobID == "" && sluid == Trim(j.sluid)
              else jobID == Trim(j.jobID) != "" && sluid == ""
  }

  /** The list spells the name, in the newer place of it or else in the older, with white space around it dropped. */
  ghost predicate Spells(allocs: seq<Allocation>, name: string) {
    name != "" && exists a | a in allocs :: name == Trim(if a.name != "" then a.name else a.nodeName)
  }

  /** The node is on nodes.allocation; if that names none, on allocated_nodes; if neither does, in the hostlist. */
  ghost predicate OnNode(r: Resources, node: string) {
    || Spells(r.nodes.allocation, node)
    || ((forall name :: !Spells(r.nodes.allocation, name)) && Spells(r.allocatedNodes, node))
    || (&& (forall name :: !Spells(r.nodes.allocation, name) && !Spells(r.allocatedNodes, name))
        && ExpandedList(r.nodes.list).Names? && node in ExpandedList(r.nodes.list).names)
  }

  /** The job puts the host into the gather. */
  ghost predicate Reports(jobIdentifier: string, j: Job, h: JobHost) {
    && RunsOnCores(j)
    && Identifies(jobIdentifier, j, h.jobID, h.sluid)
    && h.account == j.account
    && OnNode(j.resources.value, h.node)
  }

  lemma EligibleExactly(j: Job)
    ensures Eligible(j) <==> RunsOnCores(j)
  {
  }

  lemma IdentifyExactly(jobIdentifier: string, j: Job, jobID: string, sluid: string)
    ensures Identify(jobIdentifier, j) == Some((jobID, sluid)) <==> Identifies(jobIdentifier, j, jobID, sluid)
  {
  }

  lemma {:induction false} NamedExactly(allocs: seq<Allocation>, name: string)
    ensures name in Named(allocs) <==> Spells(allocs, name)
  {
    if allocs != [] {
      assert allocs == [allocs[0]] + allocs[1..];
      NamedExactly(allocs[1..], name);
    }
  }

  lemma NamedNone(allocs: seq<Allocation>)
    ensures Named(allocs) == [] <==> forall name :: !Spells(allocs, name)
  {
    forall name ensures name in Named(allocs) <==> Spells(allocs, name) {
      NamedExactly(allocs, name);
    }
    if Named(allocs) != [] { assert Spells(allocs, Named(allocs)[0]); }
  }

  /** Names come in the order of the list. */
  lemma {:induction false} NamedConcat(a: seq<Allocation>, b: seq<Allocation>)
    ensures Named(a + b) == Named(a) + Named(b)
  {
    if a == [] {
      assert a + b == b;
    } else {
      assert (a + b)[1..] == a[1..] + b;
      NamedConcat(a[1..], b);
    }
  }

  lemma NodeNamesExactly(r: Resources, node: string)
    ensures NodeNames(r).Names? && node in NodeNames(r).names <==> OnNode(r, node)
  {
    NamedNone(r.nodes.allocation);
    NamedNone(r.allocatedNodes);
    NamedExactly(r.nodes.allocation, node);
    NamedExactly(r.allocatedNodes, node);
  }

  lemma HostsOnMembers(id: (string, string), account: string, names: seq<string>, h: JobHost)
    ensures h in HostsOn(id, account, names) <==>
      id == (h.jobID, h.sluid) && account == h.account && h.node in names
  {
    if id == (h.jobID, h.sluid) && account == h.account && h.node in names {
      var i :| 0 <= i < |names| && names[i] == h.node;
      assert HostsOn(id, account, names)[i] == h;
    }
  }

  lemma FromJobMembers(jobIdentifier: string, j: Job, h: JobHost)
    requires FromJob(jobIdentifier, j).Hosts?
    ensures h in FromJob(jobIdentifier, j).hosts <==> Reports(jobIdentifier, j, h)
  {
    EligibleExactly(j);
    IdentifyExactly(jobIdentifier, j, h.jobID, h.sluid);
    if Eligible(j) {
      NodeNamesExactly(j.resources.value, h.node);
      if Identify(jobIdentifier, j).Some? && NodeNames(j.resources.value).Names? {
        HostsOnMembers(Identify(jobIdentifier, j).value, j.account, NodeNames(j.resources.value).names, h);
      }
    }
  }

  /** The gathered hosts are exactly those that some record reports. */
  lemma {:induction false} ParseMembers(jobIdentifier: string, jobs: seq<Job>, h: JobHost)
    requires FromJobs(jobIdentifier, jobs).Hosts?
    ensures h in FromJobs(jobIdentifier, jobs).hosts <==> exists j | j in jobs :: Reports(jobIdentifier, j, h)
  {
    if jobs != [] {
      assert jobs == [jobs[0]] + jobs[1..];
      FromJobMembers(jobIdentifier, jobs[0], h);
      ParseMembers(jobIdentifier, jobs[1..], h);
    }
  }

  /** The nodes of these hosts, in order. */
  function NodesOf(hosts: seq<JobHost>): (r: seq<string>)
    ensures |r| == |hosts|
  {
    if hosts == [] then [] else [hosts[0].node] + NodesOf(hosts[1..])
  }

  lemma {:induction false} NodesOfAt(hosts: seq<JobHost>, i: nat)
    requires i < |hosts|
    ensures NodesOf(hosts)[i] == hosts[i].node
  {
    if i > 0 { NodesOfAt(hosts[1..], i - 1); }
  }

  /** A job that contributes at all contributes one host for each of its names, in their order. */
  lemma JobInOrder(jobIdentifier: string, j: Job)
    requires FromJob(jobIdentifier, j).Hosts? && FromJob(jobIdentifier, j).hosts != []
    ensures j.resources.Some?
    ensures var r, nodes := j.resources.value, NodesOf(FromJob(jobIdentifier, j).hosts);
      if Named(r.nodes.allocation) != [] then nodes == Named(r.nodes.allocation)
      else if Named(r.allocatedNodes) != [] then nodes == Named(r.allocatedNodes)
      else ExpandedList(r.nodes.list) == Names(nodes)
  {
    var hosts, names := FromJob(jobIdentifier, j).hosts, NodeNames(j.resources.value).names;
    forall i | 0 <= i < |hosts| ensures NodesOf(hosts)[i] == names[i] {
      NodesOfAt(hosts, i);
    }
    assert NodesOf(hosts) == names;
  }

  /** No other list names a node, and the hostlist never stops expanding. */
  ghost predicate NeverExpands(r: Resources) {
    && (forall name :: !Spells(r.nodes.allocation, name) && !Spells(r.allocatedNodes, name))
    && NeverReturns(r.nodes.list)
  }

  lemma NeverExpandsExactly(r: Resources)
    ensures NodeNames(r).Diverges? <==> NeverExpands(r)
  {
    NamedNone(r.nodes.allocation);
    NamedNone(r.allocatedNodes);
    NeverReturnsExactly(r.nodes.list);
  }

  /** The job stops the gather. */
  ghost predicate Blocks(jobIdentifier: string, j: Job) {
    && RunsOnCores(j)
    && (exists jobID, sluid :: Identifies(jobIdentifier, j, jobID, sluid))
    && NeverExpands(j.resources.value)
  }

  lemma FromJobNever(jobIdentifier: string, j: Job)
    ensures FromJob(jobIdentifier, j).Never? <==> Blocks(jobIdentifier, j)
  {
    EligibleExactly(j);
    if j.resources.Some? { NeverExpandsExactly(j.resources.value); }
    var id := Identify(jobIdentifier, j);
    if id.Some? { IdentifyExactly(jobIdentifier, j, id.value.0, id.value.1); }
    forall jobID, sluid ensures Identifies(jobIdentifier, j, jobID, sluid) <==> id == Some((jobID, sluid)) {
      IdentifyExactly(jobIdentifier, j, jobID, sluid);
    }
  }

  /**
   * A gather fails to return exactly when some eligible, identified job reports its nodes by a hostlist
   * alone and the text of that list meets the condition for expanding forever.
   */
  lemma {:induction false} ParseNever(jobIdentifier: string, jobs: seq<Job>)
    ensures FromJobs(jobIdentifier, jobs).Never? <==> exists j | j in jobs :: Blocks(jobIdentifier, j)
  {
    if jobs != [] {
      assert jobs == [jobs[0]] + jobs[1..];
      FromJobNever(jobIdentifier, jobs[0]);
      ParseNever(jobIdentifier, jobs[1..]);
    }
  }

  lemma GatherMeaning(jobIdentifier: string, jobs: seq<Job>)
    ensures var r := FromJobs(jobIdentifier, jobs);
      && (r.Hosts? ==> forall h :: h in r.hosts <==> exists j | j in jobs :: Reports(jobIdentifier, j, h))
      && (r.Never? <==> exists j | j in jobs :: Blocks(jobIdentifier, j))
  {
    ParseNever(jobIdentifier, jobs);
    if FromJobs(jobIdentifier, jobs).Hosts? {
      forall h
        ensures h in FromJobs(jobIdentifier, jobs).hosts <==> exists j | j in jobs :: Reports(jobIdentifier, j, h)
      {
        ParseMembers(jobIdentifier, jobs, h);
      }
    }
  }

  /** Every gathered host carries exactly one of job id and SLUID. */
  lemma OneIdentifier(jobIdentifier: string, jobs: seq<Job>, h: JobHost)
    requires FromJobs(jobIdentifier, jobs).Hosts? && h in FromJobs(jobIdentifier, jobs).hosts
    ensures h.Identified()
  {
    ParseMembers(jobIdentifier, jobs, h);
  }
}
