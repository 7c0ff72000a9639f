/** An uninterrupted reconcile, calls lost or not, is a run of the protocol. */
module Refinement {
  import opened Wrappers
  import opened Entries
  import opened Reconcile
  import opened EntryServer
  import opened EntryClient
  import opened Progress
  import opened JobHosts
  import opened Protocol

  /** The syncer in the middle of an apply. */
  function Sending(local: Local, hosts: seq<JobHost>, store: seq<Entry>, ops: seq<Op>): State {
    State(store, local.(phase := Writing(hosts, ops)))
  }

  /** A path leads from one state to another. */
  ghost predicate Reaches(env: Env, s: State, t: State) {
    exists events: seq<Event>, states: seq<State> :: PathFrom(env, events, states, s, t)
  }

  ghost predicate PathFrom(env: Env, events: seq<Event>, states: seq<State>, s: State, t: State) {
    Path(env, events, states) && states[0] == s && states[|events|] == t
  }

  lemma ReachesItself(env: Env, s: State)
    ensures Reaches(env, s, s)
  {
    assert PathFrom(env, [], [s], s, s);
  }

  lemma ReachesStep(env: Env, s: State, ev: Event, t: State)
    requires Step(env, ev, s, t)
    ensures Reaches(env, s, t)
  {
    assert PathFrom(env, [ev], [s, t], s, t);
  }

  lemma ReachesTransitive(env: Env, s: State, t: State, u: State)
    requires Reaches(env, s, t) && Reaches(env, t, u)
    ensures Reaches(env, s, u)
  {
    var e1: seq<Event>, p1: seq<State> :| PathFrom(env, e1, p1, s, t);
    var e2: seq<Event>, p2: seq<State> :| PathFrom(env, e2, p2, t, u);
    var events, states := e1 + e2, p1 + p2[1..];
    forall i | 0 <= i < |events| ensures Step(env, events[i], states[i], states[i + 1]) {
      if i < |e1| {
        assert Step(env, e1[i], p1[i], p1[i + 1]);
      } else {
        var j := i - |e1|;
        assert Step(env, e2[j], p2[j], p2[j + 1]);
        assert states[i] == p2[j] && states[i + 1] == p2[j + 1];
      }
    }
    assert PathFrom(env, events, states, s, u);
  }

  /** A call the server executes: its items reach the server one by one. */
  lemma {:induction false} CallExecuted(
    env: Env, local: Local, hosts: seq<JobHost>, store: seq<Entry>, call: seq<Op>, rest: seq<Op>)
    ensures Reaches(
      env, Sending(local, hosts, store, call + rest), Sending(local, hosts, After(ContractHook, store, call), rest))
    decreases |call|
  {
    var s := Sending(local, hosts, store, call + rest);
    if call == [] {
      assert call + rest == rest;
      ReachesItself(env, s);
    } else {
      var t := Sending(local, hosts, Item(ContractHook, store, call[0]).0, call[1..] + rest);
      assert (call + rest)[1..] == call[1..] + rest;
      ReachesStep(env, s, Execute, t);
      CallExecuted(env, local, hosts, t.store, call[1..], rest);
      ReachesTransitive(env, s, t, Sending(local, hosts, After(ContractHook, store, call), rest));
    }
  }

  /** A call that never reaches the server. */
  lemma {:induction false} CallLost(
    env: Env, local: Local, hosts: seq<JobHost>, store: seq<Entry>, call: seq<Op>, rest: seq<Op>)
    ensures Reaches(env, Sending(local, hosts, store, call + rest), Sending(local, hosts, store, rest))
    decreases |call|
  {
    var s := Sending(local, hosts, store, call + rest);
    if call == [] {
      assert call + rest == rest;
      ReachesItself(env, s);
    } else {
      var t := Sending(local, hosts, store, call[1..] + rest);
      assert (call + rest)[1..] == call[1..] + rest;
      ReachesStep(env, s, Lose, t);
      CallLost(env, local, hosts, store, call[1..], rest);
      ReachesTransitive(env, s, t, Sending(local, hosts, store, rest));
    }
  }

  lemma {:induction false} ChunksSent(
    env: Env, local: Local, hosts: seq<JobHost>, rpc: Transport, chunks: seq<seq<Op>>, i: nat, t: Tally, rest: seq<Op>)
    ensures Reaches(
      env, Sending(local, hosts, t.store, Concat(chunks) + rest),
      Sending(local, hosts, TallyChunks(ContractHook, rpc, chunks, i, t).store, rest))
    decreases |chunks|
  {
    var s := Sending(local, hosts, t.store, Concat(chunks) + rest);
    if chunks == [] {
      assert Concat(chunks) + rest == rest;
      ReachesItself(env, s);
    } else {
      var later := Concat(chunks[1..]) + rest;
      var t' := TallyCall(ContractHook, rpc(i), chunks[0], t);
      assert Concat(chunks) + rest == chunks[0] + later;
      if rpc(i).Unreachable? {
        CallLost(env, local, hosts, t.store, chunks[0], later);
      } else {
        CallExecuted(env, local, hosts, t.store, chunks[0], later);
        TallyStore(ContractHook, chunks[0], t);
      }
      ChunksSent(env, local, hosts, rpc, chunks[1..], i + 1, t', rest);
      ReachesTransitive(
        env, s, Sending(local, hosts, t'.store, later),
        Sending(local, hosts, TallyChunks(ContractHook, rpc, chunks, i, t).store, rest));
    }
  }

  /** One batched write, whichever of its calls are lost before or after they take effect. */
  lemma WriteSent(
    env: Env, local: Local, hosts: seq<JobHost>, rpc: Transport, ops: seq<Op>, rest: seq<Op>, store: seq<Entry>,
    after: Tally)
    requires after == Written(ContractHook, rpc, ops, store)
    ensures Reaches(env, Sending(local, hosts, store, ops + rest), Sending(local, hosts, after.store, rest))
  {
    ChunksPartition(ops, BATCH_SIZE);
    ChunksSent(env, local, hosts, rpc, Chunks(ops, BATCH_SIZE), 0, Tally(store, 0, 0), rest);
  }

  lemma PlanSent(env: Env, local: Local, hosts: seq<JobHost>, net: Network, plan: Plan, store: seq<Entry>, r: Applied)
    requires r == Apply(ContractHook, net, plan, store)
    ensures Reaches(env, Sending(local, hosts, store, PlanOps(plan)), Sending(local, hosts, r.Store(), []))
  {
    var creates, updates, deletes := Creating(plan.create), Updating(plan.update), Deleting(plan.delete);
    WriteSent(env, local, hosts, net.creates, creates, updates + deletes, store, r.created);
    WriteSent(env, local, hosts, net.updates, updates, deletes, r.created.store, r.updated);
    assert deletes + [] == deletes;
    WriteSent(env, local, hosts, net.deletes, deletes, [], r.updated.store, r.deleted);
    var s1 := Sending(local, hosts, r.created.store, updates + deletes);
    var s2 := Sending(local, hosts, r.updated.store, deletes);
    ReachesTransitive(env, Sending(local, hosts, store, PlanOps(plan)), s1, s2);
    ReachesTransitive(env, Sending(local, hosts, store, PlanOps(plan)), s2, Sending(local, hosts, r.Store(), []));
  }

  /** The listing that ends an apply, when it succeeds and when it fails. */
  lemma Refreshed(env: Env, local: Local, hosts: seq<JobHost>, store: seq<Entry>, listErr: bool)
    ensures Reaches(
      env, Sending(local, hosts, store, []), Finished(local, store, env.opts.owns, listErr))
  {
    var s := Sending(local, hosts, store, []);
    var s1 := State(store, local.(phase := Refreshing(Started(store))));
    var t := State(store, local.(
      phase := Idle, entries := if listErr then local.entries else Some(Owned(store, env.opts.owns))));
    ReachesStep(env, s, RefreshStart, s1);
    if listErr {
      ReachesStep(env, s1, RefreshFail, t);
      ReachesTransitive(env, s, s1, t);
    } else {
      var s2 := State(store, local.(phase := Refreshing(Listing({}, Owned(store, env.opts.owns)))));
      assert [] + Owned(store, env.opts.owns) == Owned(store, env.opts.owns);
      assert Paged(Started(store), store, env.opts.owns) == s2.local.phase.refresh;
      ReachesStep(env, s1, RefreshPage(store), s2);
      ReachesStep(env, s2, RefreshPublish, t);
      ReachesTransitive(env, s, s1, s2);
      ReachesTransitive(env, s, s2, t);
    }
  }

  /** The syncer between its two loads, when nothing else has happened in between. */
  function Picked(s: State): State {
    State(s.store, s.local.(phase := Loading(s.local.jobs)))
  }

  /** The syncer after loading and planning, before it sends anything. */
  function AfterPlanning(s: State, plan: Plan, opts: Options): Local {
    s.local.(drawn := s.local.drawn + |plan.create|, keyOf := Record(s.local.keyOf, plan.create, opts))
  }

  lemma LoadReaches(env: Env, s: State, hosts: seq<JobHost>, entries: seq<Entry>)
    requires s.local.phase.Idle? && LoadEnabled(env, Picked(s)) && !env.cfg.dryRun
    requires s.local.jobs == Some(hosts) && s.local.entries == Some(entries)
    requires !PlanOf(env, hosts, entries, s.local.drawn).Empty()
    ensures var plan := PlanOf(env, hosts, entries, s.local.drawn);
      Reaches(env, s, Sending(AfterPlanning(s, plan, env.opts), hosts, s.store, PlanOps(plan)))
  {
    var plan := PlanOf(env, hosts, entries, s.local.drawn);
    var t := Sending(AfterPlanning(s, plan, env.opts), hosts, s.store, PlanOps(plan));
    ReachesStep(env, s, LoadJobs, Picked(s));
    ReachesStep(env, Picked(s), LoadEntries, t);
    ReachesTransitive(env, s, Picked(s), t);
  }

  /** Where an apply and its refresh leave the syncer. */
  function Finished(local: Local, store: seq<Entry>, owns: Ownership, listErr: bool): State {
    State(store, local.(phase := Idle, entries := if listErr then local.entries else Some(Owned(store, owns))))
  }

  lemma ApplyReaches(
    env: Env, local: Local, hosts: seq<JobHost>, net: Network, plan: Plan, store: seq<Entry>, r: Applied, listErr: bool)
    requires r == Apply(ContractHook, net, plan, store)
    ensures Reaches(
      env, Sending(local, hosts, store, PlanOps(plan)), Finished(local, r.Store(), env.opts.owns, listErr))
  {
    PlanSent(env, local, hosts, net, plan, store, r);
    Refreshed(env, local, hosts, r.Store(), listErr);
    ReachesTransitive(
      env, Sending(local, hosts, store, PlanOps(plan)), Sending(local, hosts, r.Store(), []),
      Finished(local, r.Store(), env.opts.owns, listErr));
  }

  /**
   * Refinement. What Syncer.Reconcile does against the real server, whichever of its calls fail and whether
   * or not its final listing does, is a path of the protocol: so whatever holds of every run holds of it.
   */
  lemma ReconcileRefines(
    env: Env, s: State, hosts: seq<JobHost>, entries: seq<Entry>, net: Network, listErr: bool)
    requires s.local.phase.Idle? && LoadEnabled(env, Picked(s)) && !env.cfg.dryRun
    requires s.local.jobs == Some(hosts) && s.local.entries == Some(entries)
    requires !PlanOf(env, hosts, entries, s.local.drawn).Empty()
    ensures var plan := PlanOf(env, hosts, entries, s.local.drawn);
      var store := Apply(ContractHook, net, plan, s.store).Store();
      Reaches(env, s, Finished(AfterPlanning(s, plan, env.opts), store, env.opts.owns, listErr))
  {
    var plan := PlanOf(env, hosts, entries, s.local.drawn);
    var local := AfterPlanning(s, plan, env.opts);
    var r := Apply(ContractHook, net, plan, s.store);
    LoadReaches(env, s, hosts, entries);
    ApplyReaches(env, local, hosts, net, plan, s.store, r, listErr);
    ReachesTransitive(
      env, s, Sending(local, hosts, s.store, PlanOps(plan)), Finished(local, r.Store(), env.opts.owns, listErr));
  }
}
