/** End to end: from what squeue reports to what the server holds, and from any accurate state of a run. */
module Delivery {
  import opened Wrappers
  import opened Entries
  import opened Reconcile
  import opened Plans
  import opened EntryServer
  import opened Progress
  import opened Convergence
  import opened Draining
  import opened JobHosts
  import opened Records
  import opened Pipeline
  import opened Protocol
  import opened Uniqueness
  import opened Refinement
  import Loops = Syncer

  /** The entry says what the record asks for. */
  predicate Says(e: Entry, d: Desired, opts: Options) {
    && e.parentID == d.parentID && multiset(e.selectors) == multiset(d.selectors) && e.spiffeID == d.spiffeID
    && e.x509TTL == d.x509TTL && e.jwtTTL == d.jwtTTL && e.hint == opts.hint
  }

  ghost predicate WellShaped(p: Option<SpiffeID>, s: seq<Selector>, id: Option<SpiffeID>) {
    Readable(p, s) && Shaped(id)
  }

  ghost predicate ShapedStore(store: seq<Entry>, opts: Options) {
    forall e | e in store && opts.owns.Owns(e) :: WellShaped(e.parentID, e.selectors, e.spiffeID)
  }

  /** Hosts whose records have well-shaped ids and NUL-free identifiers. */
  ghost predicate ShapedHosts(cfg: Config, hosts: seq<JobHost>) {
    forall h | h in hosts && Rendered(cfg, h).Some? :: Clean(cfg, h) && Shaped(Rendered(cfg, h).value.spiffeID)
  }

  /** Records that one entry could speak for. */
  predicate Alike(a: Desired, b: Desired) {
    a.parentID == b.parentID && multiset(a.selectors) == multiset(b.selectors)
  }

  ghost predicate Said(owned: seq<Entry>, d: Desired, opts: Options) {
    exists e | e in owned :: Says(e, d, opts)
  }

  ghost predicate Speaks(e: Entry, records: seq<Desired>, opts: Options) {
    exists d | d in records :: Says(e, d, opts)
  }

  /**
   * One-to-one correspondence: as many entries as records, an entry for every record and a record for
   * every entry, and no two records that one entry could speak for.
   */
  ghost predicate OneToOne(owned: seq<Entry>, records: seq<Desired>, opts: Options) {
    && |owned| == |records|
    && (forall i, j | 0 <= i < j < |records| :: !Alike(records[i], records[j]))
    && (forall d {:trigger Said(owned, d, opts)} | d in records :: Said(owned, d, opts))
    && (forall e {:trigger Speaks(e, records, opts)} | e in owned :: Speaks(e, records, opts))
  }

  /** What the first host of each distinct triple renders to, in order of first occurrence. */
  ghost function LeaderRecords(cfg: Config, hosts: seq<JobHost>): (records: seq<Desired>)
    ensures |records| == |Leaders(cfg, hosts, |hosts|)|
    ensures forall i | 0 <= i < |records| :: Rendered(cfg, hosts[Leaders(cfg, hosts, |hosts|)[i]]) == Some(records[i])
  {
    var ps := Leaders(cfg, hosts, |hosts|);
    seq(|ps|, i requires 0 <= i < |ps| => Rendered(cfg, hosts[ps[i]]).value)
  }

  /** The owned entries of the store are in one-to-one correspondence with the distinct triples of the hosts. */
  ghost predicate HoldsTriples(cfg: Config, hosts: seq<JobHost>, store: seq<Entry>, opts: Options) {
    UniqueIDs(store) && OneToOne(Owned(store, opts.owns), LeaderRecords(cfg, hosts), opts)
  }

  // ----- a converged store

  lemma HostShaped(cfg: Config, h: JobHost)
    requires Clean(cfg, h) && Shaped(Rendered(cfg, h).value.spiffeID)
    ensures WellShaped(
      Rendered(cfg, h).value.parentID, Rendered(cfg, h).value.selectors, Rendered(cfg, h).value.spiffeID)
  {
    SelectorsReadable(h, Rendered(cfg, h).value.parentID);
  }

  lemma MatchSays(e: Entry, d: Desired, opts: Options)
    requires forall p, s :: opts.key(p, s) == Key(p, s)
    requires WellShaped(e.parentID, e.selectors, e.spiffeID) && WellShaped(d.parentID, d.selectors, d.spiffeID)
    ensures Matches(e, d, opts) <==> Says(e, d, opts)
  {
    MatchesExactly(e, d, opts);
  }

  /** The records wanted of the hosts are those of the leaders. */
  lemma FirstsOfHosts(cfg: Config, hosts: seq<JobHost>, opts: Options)
    requires ShapedHosts(cfg, hosts) && forall p, s :: opts.key(p, s) == Key(p, s)
    ensures Firsts(DesiredFor(cfg, hosts), {}, opts) == LeaderRecords(cfg, hosts)
  {
    CleanKeys(cfg, hosts, opts);
    assert hosts[..|hosts|] == hosts;
    FirstsAreLeaders(cfg, hosts, |hosts|, opts);
  }

  /** In a converged store every deduplicated record has its entry, and every owned entry its record. */
  lemma RecordSaid(desired: seq<Desired>, firsts: seq<Desired>, store: seq<Entry>, opts: Options, d: Desired)
    requires Converged(desired, store, opts) && firsts == Firsts(desired, {}, opts) && d in firsts
    requires ShapedStore(store, opts) && WellShaped(d.parentID, d.selectors, d.spiffeID)
    requires forall p, s :: opts.key(p, s) == Key(p, s)
    ensures Said(Owned(store, opts.owns), d, opts)
  {
    assert HasEntry(Owned(store, opts.owns), d, opts);
    var e :| e in Owned(store, opts.owns) && Matches(e, d, opts);
    OwnedMembers(store, opts.owns);
    MatchSays(e, d, opts);
  }

  lemma EntrySpeaks(desired: seq<Desired>, firsts: seq<Desired>, store: seq<Entry>, opts: Options, e: Entry)
    requires Converged(desired, store, opts) && firsts == Firsts(desired, {}, opts) && e in Owned(store, opts.owns)
    requires ShapedStore(store, opts)
    requires forall d | d in firsts :: WellShaped(d.parentID, d.selectors, d.spiffeID)
    requires forall p, s :: opts.key(p, s) == Key(p, s)
    ensures Speaks(e, firsts, opts)
  {
    assert HasRecord(firsts, e, opts);
    var d :| d in firsts && Matches(e, d, opts);
    OwnedMembers(store, opts.owns);
    MatchSays(e, d, opts);
  }

  lemma ConvergedOneToOne(desired: seq<Desired>, firsts: seq<Desired>, store: seq<Entry>, opts: Options)
    requires Converged(desired, store, opts) && firsts == Firsts(desired, {}, opts)
    requires ShapedStore(store, opts)
    requires forall d | d in firsts :: WellShaped(d.parentID, d.selectors, d.spiffeID)
    requires forall p, s :: opts.key(p, s) == Key(p, s)
    ensures OneToOne(Owned(store, opts.owns), firsts, opts)
  {
    var owned := Owned(store, opts.owns);
    forall d | d in firsts ensures Said(owned, d, opts) {
      RecordSaid(desired, firsts, store, opts, d);
    }
    forall e | e in owned ensures Speaks(e, firsts, opts) {
      EntrySpeaks(desired, firsts, store, opts, e);
    }
    forall i, j | 0 <= i < j < |firsts| ensures !Alike(firsts[i], firsts[j]) {
      FirstsApart(desired, firsts, opts, i, j);
    }
  }

  lemma FirstsApart(desired: seq<Desired>, firsts: seq<Desired>, opts: Options, i: nat, j: nat)
    requires firsts == Firsts(desired, {}, opts) && i < j < |firsts|
    requires forall p, s :: opts.key(p, s) == Key(p, s)
    ensures !Alike(firsts[i], firsts[j])
  {
    FirstsFacts(desired, {}, opts);
    assert opts.DesiredKey(firsts[i]) != opts.DesiredKey(firsts[j]);
    if Alike(firsts[i], firsts[j]) {
      KeyIgnoresOrder(firsts[i].parentID, firsts[i].selectors, firsts[j].selectors);
    }
  }

  lemma LeadersShaped(cfg: Config, hosts: seq<JobHost>)
    requires ShapedHosts(cfg, hosts)
    ensures forall d | d in LeaderRecords(cfg, hosts) :: WellShaped(d.parentID, d.selectors, d.spiffeID)
  {
    var records, ps := LeaderRecords(cfg, hosts), Leaders(cfg, hosts, |hosts|);
    forall d | d in records ensures WellShaped(d.parentID, d.selectors, d.spiffeID) {
      var i :| 0 <= i < |records| && records[i] == d;
      HostShaped(cfg, hosts[ps[i]]);
    }
  }

  /** A converged store holds one entry for each triple. */
  lemma ConvergedTriples(cfg: Config, hosts: seq<JobHost>, store: seq<Entry>, opts: Options)
    requires Converged(DesiredFor(cfg, hosts), store, opts)
    requires ShapedHosts(cfg, hosts) && ShapedStore(store, opts)
    requires forall p, s :: opts.key(p, s) == Key(p, s)
    ensures HoldsTriples(cfg, hosts, store, opts)
  {
    FirstsOfHosts(cfg, hosts, opts);
    LeadersShaped(cfg, hosts);
    ConvergedOneToOne(DesiredFor(cfg, hosts), LeaderRecords(cfg, hosts), store, opts);
  }

  // ----- shapes survive a reconcile

  lemma WantedShaped(cfg: Config, hosts: seq<JobHost>, opts: Options, k: string)
    requires ShapedHosts(cfg, hosts) && k in Wanted(DesiredFor(cfg, hosts), opts)
    ensures var d := Wanted(DesiredFor(cfg, hosts), opts)[k];
      WellShaped(d.parentID, d.selectors, d.spiffeID)
  {
    var desired := DesiredFor(cfg, hosts);
    WantedKeys(desired, opts);
    DesiredFrom(cfg, hosts);
    var d := Wanted(desired, opts)[k];
    var h :| h in hosts && Rendered(cfg, h) == Some(d);
    HostShaped(cfg, h);
  }

  lemma ApplyShaped(
    cfg: Config, hosts: seq<JobHost>, existing: seq<Entry>, store: seq<Entry>, opts: Options, drawn: nat,
    hook: Hook, net: Network)
    requires ShapedHosts(cfg, hosts) && ShapedStore(store, opts)
    ensures ShapedStore(Apply(hook, net, DiffPlan(DesiredFor(cfg, hosts), existing, opts, drawn), store).Store(), opts)
  {
    var desired := DesiredFor(cfg, hosts);
    var plan := DiffPlan(desired, existing, opts, drawn);
    var after := Apply(hook, net, plan, store).Store();
    PlanMeaning(desired, existing, opts, drawn);
    forall e | e in after && opts.owns.Owns(e) ensures WellShaped(e.parentID, e.selectors, e.spiffeID) {
      ApplyInserts(plan, store, hook, net, e);
      if e in plan.create || e in plan.update { WantedShaped(cfg, hosts, opts, opts.EntryKey(e)); }
    }
  }

  // ----- from squeue to the server

  /** What a round from squeue to the server needs, for the hosts that squeue reports. */
  ghost predicate Deliverable(s: Loops.Syncer, hosts: seq<JobHost>)
    reads s, s.client, s.client.api
  {
    && s.client.api.hook == ContractHook && s.client.Rule() == Marked(s.cfg.className + ".", s.cfg.hint)
    && s.entries == Some(Owned(s.client.api.store, s.client.Rule())) && !s.client.api.listErr && !s.cfg.dryRun
    && Settled(s.client.api.store, s.Opts(), s.drawn)
    && ShapedHosts(s.cfg, hosts) && ShapedStore(s.client.api.store, s.Opts())
    && NoCollision(
      s.client.api.store, DiffPlan(DesiredFor(s.cfg, hosts), s.entries.value, s.Opts(), s.drawn).create)
  }

  /**
   * One round: parse what squeue says, publish the hosts, reconcile. From an accurate snapshot with
   * distinct owned keys, against the real server with every call answered and no identity covered by
   * somebody else, the owned entries then correspond one to one to the distinct triples of the jobs.
   */
  method GatherAndReconcile(s: Loops.Syncer, jobIdentifier: string, jobs: seq<Squeue.Job>, net: Network)
    requires Squeue.FromJobs(jobIdentifier, jobs).Hosts? && Answered(net)
    requires Deliverable(s, Squeue.FromJobs(jobIdentifier, jobs).hosts)
    modifies s`jobs, s`entries, s`drawn, s.client.api`store
    ensures HoldsTriples(s.cfg, Squeue.FromJobs(jobIdentifier, jobs).hosts, s.client.api.store, s.Opts())
    ensures s.entries == Some(Owned(s.client.api.store, s.client.Rule()))
  {
    var gathered := Squeue.Parse(jobIdentifier, jobs);
    ghost var hosts := gathered.hosts;
    var _ := s.GatherJobs(Some(gathered.hosts));
    ApplyShaped(s.cfg, hosts, s.entries.value, s.client.api.store, s.Opts(), s.drawn, ContractHook, net);
    Loops.ReconcileOnce(s, net);
    ConvergedTriples(s.cfg, hosts, s.client.api.store, s.Opts());
  }

  // ----- from any accurate state of a run

  /** A state of a run in which the reconcile loop is about to start from an accurate listing. */
  ghost predicate AccurateState(env: Env, s: State, hosts: seq<JobHost>) {
    && s.local.phase.Idle? && s.local.jobs == Some(hosts)
    && s.local.entries == Some(Owned(s.store, env.opts.owns))
    && LoadEnabled(env, Picked(s)) && FreshIDs(s.store, env.opts, s.local.drawn)
    && !PlanOf(env, hosts, Owned(s.store, env.opts.owns), s.local.drawn).Empty()
  }

  /**
   * However a run has come to an accurate state, one reconcile from there has converged, and finds nothing
   * more to do, exactly when no identity about to be created is covered; distinct owned keys need no
   * hypothesis here, every state of the run has them.
   */
  lemma RunConverges(
    env: Env, naming: Naming, events: seq<Event>, states: seq<State>, i: nat, hosts: seq<JobHost>, net: Network,
    later: nat)
    requires Run(env, events, states) && Tells(env.opts.key) && OrderBlind(env.opts.key) && !env.cfg.dryRun
    requires StoreGood(states[0].store, env.opts) && forall ev | ev in events :: Obeys(env, naming, ev)
    requires i < |states| && AccurateState(env, states[i], hosts) && Answered(net)
    ensures var s := states[i];
      var plan := PlanOf(env, hosts, Owned(s.store, env.opts.owns), s.local.drawn);
      var after := Apply(ContractHook, net, plan, s.store).Store();
      && Reaches(env, s, Finished(AfterPlanning(s, plan, env.opts), after, env.opts.owns, false))
      && (NoCollision(s.store, plan.create) <==> Converged(DesiredFor(env.cfg, hosts), after, env.opts))
      && (NoCollision(s.store, plan.create) <==> PlanOf(env, hosts, Owned(after, env.opts.owns), later).Empty())
  {
    var s := states[i];
    RunInv(env, events, states, i);
    RunUnique(env, naming, events, states, i);
    ReconcileRefines(env, s, hosts, Owned(s.store, env.opts.owns), net, false);
    FixedPoint(DesiredFor(env.cfg, hosts), s.store, env.opts, s.local.drawn, later, net);
  }
}
