/** The syncer's state and the bodies of its three loops, each run without interruption. */
module Syncer {
  import opened Wrappers
  import opened Entries
  import opened Reconcile
  import opened EntryServer
  import opened EntryClient
  import opened Progress
  import opened Outcome
  import opened Convergence
  import opened JobHosts
  import opened Records

  class Syncer {
    const cfg: Config
    const newID: nat -> string
    const client: Client
    var jobs: Option<seq<JobHost>>
    var entries: Option<seq<Entry>>
    /** How often the id generator has been called. */
    var drawn: nat

    constructor (cfg: Config, api: FakeEntryServer, newID: nat -> string)
      ensures this.cfg == cfg && this.newID == newID && client.api == api
      ensures client.Rule() == Marked(cfg.className + ".", cfg.hint)
      ensures Opts() == Options(
        className := cfg.className, hint := cfg.hint, newID := newID, owns := Marked(cfg.className + ".", cfg.hint),
        key := Key)
      ensures jobs == None && entries == None && drawn == 0
    {
      this.cfg := cfg;
      this.newID := newID;
      client := new Client(api, cfg.hint, cfg.className);
      jobs, entries, drawn := None, None, 0;
    }

    function Opts(): Options {
      Options(cfg.className, cfg.hint, newID, client.Rule(), Key)
    }

    /** One round of the gather loop; None stands for a failed squeue call. */
    method GatherJobs(gathered: Option<seq<JobHost>>) returns (ok: bool)
      modifies this`jobs
      ensures ok == gathered.Some?
      ensures jobs == if gathered.Some? then gathered else old(jobs)
    {
      if gathered.None? {
        return false;
      }
      jobs := Some(gathered.value);
      return true;
    }

    /** One round of the list loop, also run at the end of every apply. */
    method RefreshEntries() returns (ok: bool)
      modifies this`entries
      ensures ok == !client.api.listErr
      ensures entries == if client.api.listErr then old(entries) else Some(Owned(client.api.store, client.Rule()))
    {
      var listed := client.ListManaged();
      if listed.Failure? {
        return false;
      }
      entries := Some(listed.value);
      return true;
    }

    /** What the next reconcile would plan. */
    ghost function NextPlan(): Plan
      requires jobs.Some? && entries.Some?
      reads this
    {
      DiffPlan(DesiredFor(cfg, jobs.value), entries.value, Opts(), drawn)
    }

    /**
     * One round of the reconcile loop. It does nothing before both snapshots exist, writes nothing for
     * an empty plan or in a dry run, and otherwise leaves the server as Progress.Apply does and the
     * entry snapshot as an accurate listing of it, unless that listing failed.
     */
    method Reconcile(net: Network) returns (ok: bool)
      modifies this`entries, this`drawn, client.api`store
      ensures old(jobs.None? || entries.None?) ==>
        ok && entries == old(entries) && drawn == old(drawn) && client.api.store == old(client.api.store)
      ensures old(jobs.Some? && entries.Some?) ==>
        var plan := old(NextPlan());
        && drawn == old(drawn) + |plan.create|
        && if plan.Empty() || cfg.dryRun then
             ok && entries == old(entries) && client.api.store == old(client.api.store)
           else
             var r := Apply(client.api.hook, net, plan, old(client.api.store));
             && client.api.store == r.Store() == StoreApplied(client.api.hook, net, plan, old(client.api.store))
             && (!ok <==> ApplyFails(client.api.hook, net, plan, old(client.api.store)))
             && entries == if client.api.listErr then old(entries) else Some(Owned(client.api.store, client.Rule()))
    {
      if jobs.None? || entries.None? {
        return true;
      }
      var desired, _ := BuildDesired(cfg, jobs.value);
      var plan := Diff(desired, entries.value, Opts(), drawn);
      drawn := drawn + |plan.create|;
      if plan.Empty() {
        return true;
      }
      if cfg.dryRun {
        return true;
      }
      ok := ApplyPlan(plan, net);
    }

    /** Runs all three writes even if an earlier one fails, then lists again and ignores a failure to. */
    method ApplyPlan(plan: Plan, net: Network) returns (ok: bool)
      modifies this`entries, client.api`store
      ensures var r := Apply(client.api.hook, net, plan, old(client.api.store));
        client.api.store == r.Store() == StoreApplied(client.api.hook, net, plan, old(client.api.store))
      ensures !ok <==> ApplyFails(client.api.hook, net, plan, old(client.api.store))
      ensures entries == if client.api.listErr then old(entries) else Some(Owned(client.api.store, client.Rule()))
    {
      ApplyOutcome(client.api.hook, net, plan, client.api.store);
      var failed: nat := 0;
      if |plan.create| > 0 {
        var _, errors := client.Create(plan.create, net.creates);
        failed := failed + errors;
      }
      if |plan.update| > 0 {
        var _, errors := client.Update(plan.update, net.updates);
        failed := failed + errors;
      }
      if |plan.delete| > 0 {
        var _, errors := client.Delete(plan.delete, net.deletes);
        failed := failed + errors;
      }
      var _ := RefreshEntries();
      ok := failed == 0;
    }
  }

  /** The syncer has listed the real server accurately, and no call or later listing fails. */
  ghost predicate Accurate(s: Syncer)
    reads s, s.client, s.client.api
  {
    && s.client.api.hook == ContractHook && s.client.Rule() == Marked(s.cfg.className + ".", s.cfg.hint)
    && s.jobs.Some? && s.entries == Some(Owned(s.client.api.store, s.client.Rule()))
    && !s.client.api.listErr && !s.cfg.dryRun
  }

  /** The plan of the next round, in terms of the store alone. */
  lemma NextEmpty(desired: seq<Desired>, store: seq<Entry>, opts: Options, drawn: nat, later: nat, net: Network)
    requires Settled(store, opts, drawn) && Answered(net) && OrderBlind(opts.key)
    requires NoCollision(store, DiffPlan(desired, Owned(store, opts.owns), opts, drawn).create)
    ensures var plan := DiffPlan(desired, Owned(store, opts.owns), opts, drawn);
      var after := Apply(ContractHook, net, plan, store).Store();
      Converged(desired, after, opts) && DiffPlan(desired, Owned(after, opts.owns), opts, later).Empty()
  {
    FixedPoint(desired, store, opts, drawn, later, net);
  }

  /** One round, with every call answered and no identity already covered: the next plan is empty. */
  method ReconcileOnce(s: Syncer, net: Network)
    requires Accurate(s) && Answered(net)
    requires Settled(s.client.api.store, s.Opts(), s.drawn) && NoCollision(s.client.api.store, s.NextPlan().create)
    modifies s`entries, s`drawn, s.client.api`store
    ensures Accurate(s) && s.NextPlan().Empty()
    ensures Converged(DesiredFor(s.cfg, s.jobs.value), s.client.api.store, s.Opts())
    ensures s.client.api.store == Apply(ContractHook, net, old(s.NextPlan()), old(s.client.api.store)).Store()
  {
    ghost var desired, opts, store, plan := DesiredFor(s.cfg, s.jobs.value), s.Opts(), s.client.api.store, s.NextPlan();
    ghost var later, after := s.drawn + |plan.create|, Apply(ContractHook, net, plan, store).Store();
    KeyOrderBlind();
    NextEmpty(desired, store, opts, s.drawn, later, net);
    EmptyApply(ContractHook, net, plan, store);
    var _ := s.Reconcile(net);
    assert s.client.api.store == after && s.drawn == later && s.Opts() == opts;
    assert s.NextPlan() == DiffPlan(desired, Owned(after, opts.owns), opts, later);
  }

  /**
   * Two rounds of the reconcile loop with no round of the list loop in between: from distinct owned keys
   * and without collisions the second round finds nothing to do and leaves everything as it is.
   */
  method ReconcileTwice(s: Syncer, first: Network, second: Network)
    requires Accurate(s) && Answered(first)
    requires Settled(s.client.api.store, s.Opts(), s.drawn) && NoCollision(s.client.api.store, s.NextPlan().create)
    modifies s`entries, s`drawn, s.client.api`store
    ensures Accurate(s) && s.NextPlan().Empty()
    ensures Converged(DesiredFor(s.cfg, s.jobs.value), s.client.api.store, s.Opts())
    ensures s.client.api.store == Apply(ContractHook, first, old(s.NextPlan()), old(s.client.api.store)).Store()
  {
    ReconcileOnce(s, first);
    var _ := s.Reconcile(second);
  }

  /** An empty plan writes nothing. */
  lemma EmptyApply(hook: Hook, net: Network, plan: Plan, store: seq<Entry>)
    ensures plan.Empty() ==> Apply(hook, net, plan, store).Store() == store
  {
  }
}
