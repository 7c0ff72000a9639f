/** Repeated reconciles with a fixed desired list, from a store where several owned entries may share a key. */
module Draining {
  import opened Entries
  import opened Reconcile
  import opened Plans
  import opened EntryServer
  import opened EntryClient
  import opened Stores
  import opened Progress
  import opened Convergence

  /** The ids of the owned entries with this key. */
  function IDsUnder(store: seq<Entry>, k: string, opts: Options): set<string> {
    set e | e in store && opts.owns.Owns(e) && opts.EntryKey(e) == k :: e.id
  }

  /** The ids of the owned entries whose key is not wanted. */
  function Unwanted(desired: seq<Desired>, store: seq<Entry>, opts: Options): set<string> {
    set e | e in store && opts.owns.Owns(e) && opts.EntryKey(e) !in Wanted(desired, opts) :: e.id
  }

  /** What a reconcile needs when keys may repeat. */
  ghost predicate Prepared(store: seq<Entry>, opts: Options, drawn: nat) {
    UniqueIDs(store) && OwnRule(opts) && FreshIDs(store, opts, drawn)
  }

  /** One reconcile from an accurate listing. */
  function Cycle(
    hook: Hook, net: Network, desired: seq<Desired>, opts: Options, drawn: nat, store: seq<Entry>): seq<Entry>
  {
    Apply(hook, net, DiffPlan(desired, Owned(store, opts.owns), opts, drawn), store).Store()
  }

  // ----- ids

  /** A batch of deletes that nothing stands in the way of leaves none of its ids. */
  lemma {:induction false} DeletesGone(hook: Hook, store: seq<Entry>, ids: seq<string>)
    requires UniqueIDs(store) && LetsThrough(hook)
    ensures forall id | id in ids :: id !in IDs(After(hook, store, Deleting(ids)))
    decreases |ids|
  {
    if ids != [] {
      var ops := Deleting(ids);
      assert ops[1..] == Deleting(ids[1..]);
      ItemMembers(hook, store, ops[0]);
      var after := Item(hook, store, ops[0]).0;
      DeletesGone(hook, after, ids[1..]);
      FreshOthers(ops[1..], IDs(after));
      UniqueBatch(hook, after, ops[1..]);
      assert ids == [ids[0]] + ids[1..];
      assert ids[0] !in IDs(after);
    }
  }

  /** With every call answered, a write is one pass over its items. */
  lemma WrittenStore(hook: Hook, rpc: Transport, ops: seq<Op>, store: seq<Entry>)
    requires forall n: nat :: rpc(n).Delivered?
    ensures Written(hook, rpc, ops, store).store == After(hook, store, ops)
  {
    BatchingTransparent(hook, rpc, ops, BATCH_SIZE, 0, Tally(store, 0, 0));
    TallyStore(hook, ops, Tally(store, 0, 0));
  }

  // ----- one cycle

  /** The entry the planner sees under a key is an owned entry of the store with that key. */
  lemma KnownFacts(store: seq<Entry>, opts: Options)
    ensures var known := ByKey(Owned(store, opts.owns), opts);
      && (forall k | k in known :: known[k] in store && opts.owns.Owns(known[k]) && opts.EntryKey(known[k]) == k)
      && (forall e | e in store && opts.owns.Owns(e) :: opts.EntryKey(e) in known)
  {
    VisibleFacts(Owned(store, opts.owns), opts);
    OwnedMembers(store, opts.owns);
  }

  /** What a plan made from an accurate listing writes, with repeated keys allowed. */
  ghost predicate Sound(
    plan: Plan, wanted: map<string, Desired>, known: map<string, Entry>, store: seq<Entry>, opts: Options)
  {
    && Faithful(plan, wanted, known, opts) && Minted(plan.create, store, opts)
    && (forall k | k in known :: known[k] in store && opts.owns.Owns(known[k]) && opts.EntryKey(known[k]) == k)
  }

  lemma PlanSound(desired: seq<Desired>, store: seq<Entry>, opts: Options, drawn: nat)
    requires Prepared(store, opts, drawn)
    ensures var existing := Owned(store, opts.owns);
      Sound(DiffPlan(desired, existing, opts, drawn), Wanted(desired, opts), ByKey(existing, opts), store, opts)
  {
    var existing := Owned(store, opts.owns);
    PlanMeaning(desired, existing, opts, drawn);
    CreatesMinted(Firsts(desired, {}, opts), ByKey(existing, opts), store, opts, drawn);
    KnownFacts(store, opts);
  }

  /** Different keys, different ids. */
  lemma KnownApart(known: map<string, Entry>, store: seq<Entry>, opts: Options, k: string, l: string)
    requires UniqueIDs(store) && k in known && l in known && k != l
    requires forall k | k in known :: known[k] in store && opts.owns.Owns(known[k]) && opts.EntryKey(known[k]) == k
    ensures known[k].id != known[l].id
  {
    if known[k].id == known[l].id { SameID(store, known[k], known[l]); }
  }

  /** An owned entry with an unwanted key is written only by a delete, and only if it is the one the planner sees. */
  lemma UnwantedTouched(
    plan: Plan, wanted: map<string, Desired>, known: map<string, Entry>, store: seq<Entry>, opts: Options, x: Entry)
    requires UniqueIDs(store) && Sound(plan, wanted, known, store, opts)
    requires x in store && opts.EntryKey(x) !in wanted
    ensures x.id !in Touched(Creating(plan.create)) && x.id !in Touched(Updating(plan.update))
    ensures x.id in plan.delete ==> opts.EntryKey(x) in known && known[opts.EntryKey(x)] == x
  {
    forall u | u in plan.update ensures u.id != x.id {
      var seen := known[opts.EntryKey(u)];
      if seen.id == x.id { SameID(store, seen, x); }
    }
    if x.id in plan.delete {
      var k :| k in known.Keys - wanted.Keys && known[k].id == x.id;
      SameID(store, known[k], x);
    }
  }

  /** Whatever fails, an apply keeps the ids unique and adds none but those of its creates. */
  lemma ApplyUnique(plan: Plan, store: seq<Entry>, opts: Options, hook: Hook, net: Network)
    requires UniqueIDs(store) && Minted(plan.create, store, opts)
    ensures var r := Apply(hook, net, plan, store);
      && UniqueIDs(r.created.store) && UniqueIDs(r.updated.store) && UniqueIDs(r.Store())
      && IDs(r.Store()) <= IDs(store) + IDs(plan.create)
  {
    var r := Apply(hook, net, plan, store);
    FreshCreates(plan.create, IDs(store));
    WrittenUnique(hook, net.creates, Creating(plan.create), store);
    PartKinds(plan);
    FreshOthers(Updating(plan.update), IDs(r.created.store));
    WrittenUnique(hook, net.updates, Updating(plan.update), r.created.store);
    FreshOthers(Deleting(plan.delete), IDs(r.updated.store));
    WrittenUnique(hook, net.deletes, Deleting(plan.delete), r.updated.store);
  }

  /** With every call answered and no delete stood in the way of, the deleted ids are gone. */
  lemma ApplyDeletes(plan: Plan, store: seq<Entry>, opts: Options, hook: Hook, net: Network)
    requires UniqueIDs(store) && Minted(plan.create, store, opts)
    requires LetsThrough(hook) && Answered(net)
    ensures forall id | id in plan.delete :: id !in IDs(Apply(hook, net, plan, store).Store())
  {
    var r := Apply(hook, net, plan, store);
    ApplyUnique(plan, store, opts, hook, net);
    WrittenStore(hook, net.deletes, Deleting(plan.delete), r.updated.store);
    DeletesGone(hook, r.updated.store, plan.delete);
  }

  /** What an apply leaves behind was there after its creates, or is one of its updates. */
  lemma AfterCreates(plan: Plan, store: seq<Entry>, hook: Hook, net: Network, x: Entry)
    requires x in Apply(hook, net, plan, store).Store()
    ensures x in Apply(hook, net, plan, store).created.store || x in plan.update
  {
    var r := Apply(hook, net, plan, store);
    WrittenInserts(hook, net.deletes, Deleting(plan.delete), r.updated.store, x);
    assert forall op | op in Deleting(plan.delete) :: op.Delete?;
    assert x in r.updated.store;
    WrittenInserts(hook, net.updates, Updating(plan.update), r.created.store, x);
    assert forall op | op in Updating(plan.update) :: op.Update? && op.entry in plan.update;
  }

  /** An apply leaves behind only what was there and what the plan wrote. */
  lemma ApplyInserts(plan: Plan, store: seq<Entry>, hook: Hook, net: Network, x: Entry)
    requires x in Apply(hook, net, plan, store).Store()
    ensures x in store || x in plan.create || x in plan.update
  {
    AfterCreates(plan, store, hook, net, x);
    if x !in plan.update {
      WrittenInserts(hook, net.creates, Creating(plan.create), store, x);
      assert forall op | op in Creating(plan.create) :: op.Create? && op.entry in plan.create;
    }
  }

  /** An apply never touches an entry whose id is in none of its three writes. */
  lemma ApplyFrame(plan: Plan, store: seq<Entry>, hook: Hook, net: Network, x: Entry)
    requires x.id !in Touched(Creating(plan.create)) && x.id !in Touched(Updating(plan.update))
    requires x.id !in plan.delete
    ensures x in Apply(hook, net, plan, store).Store() <==> x in store
  {
    var r := Apply(hook, net, plan, store);
    assert x.id !in Touched(Deleting(plan.delete));
    WrittenFrame(hook, net.creates, Creating(plan.create), store, x);
    WrittenFrame(hook, net.updates, Updating(plan.update), r.created.store, x);
    WrittenFrame(hook, net.deletes, Deleting(plan.delete), r.updated.store, x);
  }

  /** An entry with an unwanted key survives a cycle unchanged exactly when the plan does not delete it. */
  lemma UnwantedSurvives(
    plan: Plan, wanted: map<string, Desired>, known: map<string, Entry>, store: seq<Entry>, opts: Options,
    hook: Hook, net: Network, x: Entry)
    requires UniqueIDs(store) && Sound(plan, wanted, known, store, opts)
    requires LetsThrough(hook) && Answered(net)
    requires opts.EntryKey(x) !in wanted
    ensures x in Apply(hook, net, plan, store).Store() <==> x in store && x.id !in plan.delete
  {
    ApplyDeletes(plan, store, opts, hook, net);
    if x in store && x.id !in plan.delete {
      UnwantedTouched(plan, wanted, known, store, opts, x);
      ApplyFrame(plan, store, hook, net, x);
    }
    var after := Apply(hook, net, plan, store).Store();
    if x in after {
      ApplyInserts(plan, store, hook, net, x);
      assert x.id in IDs(after);
    }
  }

  /** The deleted ids are the planner's entries under the known but unwanted keys, one for each. */
  lemma DeletedUnder(
    plan: Plan, wanted: map<string, Desired>, known: map<string, Entry>, store: seq<Entry>, opts: Options, x: Entry)
    requires UniqueIDs(store) && Sound(plan, wanted, known, store, opts)
    requires x in store && opts.owns.Owns(x) && opts.EntryKey(x) in known && opts.EntryKey(x) !in wanted
    ensures x.id in plan.delete <==> known[opts.EntryKey(x)].id == x.id
  {
    UnwantedTouched(plan, wanted, known, store, opts, x);
    var k := opts.EntryKey(x);
    if known[k].id == x.id {
      assert k in known.Keys - wanted.Keys;
    }
  }

  /** The ids of a plan's creates are behind the generator. */
  lemma DrawnBehind(
    firsts: seq<Desired>, known: map<string, Entry>, store: seq<Entry>, opts: Options, drawn: nat, e: Entry, n: nat)
    requires FreshIDs(store, opts, drawn)
    requires e in Creates(firsts, known, opts, drawn) && drawn + |Creates(firsts, known, opts, drawn)| <= n
    ensures e.id != opts.className + "." + opts.newID(n)
  {
    var created := Creates(firsts, known, opts, drawn);
    var i :| 0 <= i < |created| && created[i] == e;
    CreateIDs(firsts, known, opts, drawn, i);
    DrawnDistinct(opts, drawn, store, drawn + i, n);
  }

  lemma FreshKept(
    firsts: seq<Desired>, known: map<string, Entry>, store: seq<Entry>, after: seq<Entry>, opts: Options, drawn: nat)
    requires FreshIDs(store, opts, drawn)
    requires IDs(after) <= IDs(store) + IDs(Creates(firsts, known, opts, drawn))
    ensures FreshIDs(after, opts, drawn + |Creates(firsts, known, opts, drawn)|)
  {
    var created := Creates(firsts, known, opts, drawn);
    forall n: nat | drawn + |created| <= n ensures opts.className + "." + opts.newID(n) !in IDs(after) {
      forall e | e in created ensures e.id != opts.className + "." + opts.newID(n) {
        DrawnBehind(firsts, known, store, opts, drawn, e, n);
      }
    }
  }

  lemma UnderMember(
    plan: Plan, wanted: map<string, Desired>, known: map<string, Entry>, store: seq<Entry>, opts: Options,
    hook: Hook, net: Network, x: Entry)
    requires UniqueIDs(store) && Sound(plan, wanted, known, store, opts)
    requires opts.owns.Owns(x) && opts.EntryKey(x) !in wanted
    requires x in store ==> opts.EntryKey(x) in known
    requires LetsThrough(hook) && Answered(net)
    ensures x in Apply(hook, net, plan, store).Store() <==> x in store && known[opts.EntryKey(x)].id != x.id
  {
    UnwantedSurvives(plan, wanted, known, store, opts, hook, net, x);
    if x in store { DeletedUnder(plan, wanted, known, store, opts, x); }
  }

  /** Taking the one entry the planner sees away from a key. */
  lemma UnderCount(store: seq<Entry>, after: seq<Entry>, known: map<string, Entry>, k: string, opts: Options)
    requires forall l | l in known :: known[l] in store && opts.owns.Owns(known[l]) && opts.EntryKey(known[l]) == l
    requires forall x | x in store && opts.owns.Owns(x) :: opts.EntryKey(x) in known
    requires forall x | opts.owns.Owns(x) && opts.EntryKey(x) == k ::
      x in after <==> x in store && known[opts.EntryKey(x)].id != x.id
    ensures IDsUnder(after, k, opts) <= IDsUnder(store, k, opts)
    ensures |IDsUnder(after, k, opts)| == if IDsUnder(store, k, opts) == {} then 0 else |IDsUnder(store, k, opts)| - 1
  {
    var before, later := IDsUnder(store, k, opts), IDsUnder(after, k, opts);
    assert later <= before;
    if k in known {
      assert known[k].id in before;
      assert later == before - {known[k].id};
    } else {
      assert before == {};
    }
  }

  /**
   * One cycle takes exactly one entry from under each unwanted key that is still there.
   */
  lemma DrainStep(
    desired: seq<Desired>, store: seq<Entry>, opts: Options, drawn: nat, hook: Hook, net: Network, k: string)
    requires Prepared(store, opts, drawn) && LetsThrough(hook) && Answered(net)
    requires k !in Wanted(desired, opts)
    ensures var after := Cycle(hook, net, desired, opts, drawn, store);
      && IDsUnder(after, k, opts) <= IDsUnder(store, k, opts)
      && |IDsUnder(after, k, opts)| == if IDsUnder(store, k, opts) == {} then 0 else |IDsUnder(store, k, opts)| - 1
  {
    var existing := Owned(store, opts.owns);
    var plan, wanted, known := DiffPlan(desired, existing, opts, drawn), Wanted(desired, opts), ByKey(existing, opts);
    var after := Apply(hook, net, plan, store).Store();
    PlanSound(desired, store, opts, drawn);
    KnownFacts(store, opts);
    forall x: Entry | opts.owns.Owns(x) && opts.EntryKey(x) == k
      ensures x in after <==> x in store && known[opts.EntryKey(x)].id != x.id
    {
      UnderMember(plan, wanted, known, store, opts, hook, net, x);
    }
    UnderCount(store, after, known, k, opts);
  }

  /** Whatever fails, a cycle leaves the ids unique and the generator fresh for the next one. */
  lemma CyclePrepared(desired: seq<Desired>, store: seq<Entry>, opts: Options, drawn: nat, hook: Hook, net: Network)
    requires Prepared(store, opts, drawn)
    ensures var plan := DiffPlan(desired, Owned(store, opts.owns), opts, drawn);
      Prepared(Cycle(hook, net, desired, opts, drawn, store), opts, drawn + |plan.create|)
  {
    var existing := Owned(store, opts.owns);
    var plan, known := DiffPlan(desired, existing, opts, drawn), ByKey(existing, opts);
    PlanSound(desired, store, opts, drawn);
    ApplyUnique(plan, store, opts, hook, net);
    FreshKept(Firsts(desired, {}, opts), known, store, Apply(hook, net, plan, store).Store(), opts, drawn);
  }

  // ----- many cycles

  /** A store and the number of ids drawn so far. */
  datatype Server = Server(store: seq<Entry>, drawn: nat)

  function NextServer(hook: Hook, net: Network, desired: seq<Desired>, opts: Options, s: Server): Server {
    Server(
      Cycle(hook, net, desired, opts, s.drawn, s.store),
      s.drawn + |DiffPlan(desired, Owned(s.store, opts.owns), opts, s.drawn).create|)
  }

  /** Successive cycles, each over a network of its own. */
  ghost predicate CycleRun(trace: seq<Server>, nets: seq<Network>, hook: Hook, desired: seq<Desired>, opts: Options) {
    && |trace| == |nets| + 1
    && (forall i | 0 <= i < |nets| :: trace[i + 1] == NextServer(hook, nets[i], desired, opts, trace[i]))
  }

  ghost predicate AllAnswered(nets: seq<Network>) {
    forall i | 0 <= i < |nets| :: Answered(nets[i])
  }

  /** Every server of a run is prepared for the next cycle. */
  lemma {:induction false} RunPrepared(
    trace: seq<Server>, nets: seq<Network>, hook: Hook, desired: seq<Desired>, opts: Options, n: nat)
    requires CycleRun(trace, nets, hook, desired, opts) && Prepared(trace[0].store, opts, trace[0].drawn)
    requires n <= |nets|
    ensures Prepared(trace[n].store, opts, trace[n].drawn)
    decreases n
  {
    if n > 0 {
      RunPrepared(trace, nets, hook, desired, opts, n - 1);
      PreparedNext(trace, nets, hook, desired, opts, n - 1);
    }
  }

  lemma PreparedNext(trace: seq<Server>, nets: seq<Network>, hook: Hook, desired: seq<Desired>, opts: Options, i: nat)
    requires CycleRun(trace, nets, hook, desired, opts) && i < |nets|
    requires Prepared(trace[i].store, opts, trace[i].drawn)
    ensures Prepared(trace[i + 1].store, opts, trace[i + 1].drawn)
  {
    CyclePrepared(desired, trace[i].store, opts, trace[i].drawn, hook, nets[i]);
  }

  /** One step of a run. */
  lemma DrainNext(
    trace: seq<Server>, nets: seq<Network>, hook: Hook, desired: seq<Desired>, opts: Options, i: nat, k: string)
    requires CycleRun(trace, nets, hook, desired, opts) && AllAnswered(nets) && LetsThrough(hook) && i < |nets|
    requires Prepared(trace[i].store, opts, trace[i].drawn) && k !in Wanted(desired, opts)
    ensures var before := |IDsUnder(trace[i].store, k, opts)|;
      |IDsUnder(trace[i + 1].store, k, opts)| == if before == 0 then 0 else before - 1
  {
    var s, net := trace[i], nets[i];
    DrainStep(desired, s.store, opts, s.drawn, hook, net, k);
  }

  /**
   * Draining: after n cycles each unwanted key holds exactly its first multiplicity less n, never below zero.
   */
  lemma {:induction false} Drain(
    trace: seq<Server>, nets: seq<Network>, hook: Hook, desired: seq<Desired>, opts: Options, n: nat, k: string)
    requires CycleRun(trace, nets, hook, desired, opts) && AllAnswered(nets) && LetsThrough(hook)
    requires Prepared(trace[0].store, opts, trace[0].drawn) && k !in Wanted(desired, opts)
    requires n <= |nets|
    ensures var before := |IDsUnder(trace[0].store, k, opts)|;
      |IDsUnder(trace[n].store, k, opts)| == if before <= n then 0 else before - n
    decreases n
  {
    if n > 0 {
      Drain(trace, nets, hook, desired, opts, n - 1, k);
      RunPrepared(trace, nets, hook, desired, opts, n - 1);
      DrainNext(trace, nets, hook, desired, opts, n - 1, k);
    }
  }

  /** Everything unwanted is gone after n cycles exactly when no unwanted key held more than n entries. */
  lemma DrainedExactly(trace: seq<Server>, nets: seq<Network>, hook: Hook, desired: seq<Desired>, opts: Options, n: nat)
    requires CycleRun(trace, nets, hook, desired, opts) && AllAnswered(nets) && LetsThrough(hook)
    requires Prepared(trace[0].store, opts, trace[0].drawn) && n <= |nets|
    ensures Unwanted(desired, trace[n].store, opts) == {}
      <==> forall k | k !in Wanted(desired, opts) :: |IDsUnder(trace[0].store, k, opts)| <= n
  {
    forall k | k !in Wanted(desired, opts)
      ensures IDsUnder(trace[n].store, k, opts) == {} <==> |IDsUnder(trace[0].store, k, opts)| <= n
    {
      Drain(trace, nets, hook, desired, opts, n, k);
    }
    UnwantedEmpty(desired, trace[n].store, opts);
  }

  lemma UnwantedEmpty(desired: seq<Desired>, store: seq<Entry>, opts: Options)
    ensures Unwanted(desired, store, opts) == {}
      <==> forall k | k !in Wanted(desired, opts) :: IDsUnder(store, k, opts) == {}
  {
    forall k | k !in Wanted(desired, opts) ensures IDsUnder(store, k, opts) <= Unwanted(desired, store, opts) {
    }
    forall id | id in Unwanted(desired, store, opts)
      ensures exists k | k !in Wanted(desired, opts) :: id in IDsUnder(store, k, opts)
    {
      var e :| e in store && opts.owns.Owns(e) && opts.EntryKey(e) !in Wanted(desired, opts) && e.id == id;
      assert id in IDsUnder(store, opts.EntryKey(e), opts);
    }
  }

  /** While anything unwanted is left, a cycle takes away as many entries as there are unwanted keys. */
  lemma UnwantedFalls(desired: seq<Desired>, store: seq<Entry>, opts: Options, drawn: nat, hook: Hook, net: Network)
    requires Prepared(store, opts, drawn) && LetsThrough(hook) && Answered(net)
    ensures var keys := ByKey(Owned(store, opts.owns), opts).Keys - Wanted(desired, opts).Keys;
      var after := Cycle(hook, net, desired, opts, drawn, store);
      && |Unwanted(desired, after, opts)| == |Unwanted(desired, store, opts)| - |keys|
      && (Unwanted(desired, store, opts) != {} ==> |keys| > 0)
  {
    var existing := Owned(store, opts.owns);
    var plan, wanted, known := DiffPlan(desired, existing, opts, drawn), Wanted(desired, opts), ByKey(existing, opts);
    var after := Apply(hook, net, plan, store).Store();
    PlanSound(desired, store, opts, drawn);
    KnownFacts(store, opts);
    var keys := known.Keys - wanted.Keys;
    var gone := set k | k in keys :: known[k].id;
    forall k, l | k in keys && l in keys && known[k].id == known[l].id ensures k == l {
      if k != l { KnownApart(known, store, opts, k, l); }
    }
    ImageCount(keys, known);
    forall x | IsUnwanted(x, desired, opts) ensures x in after <==> x in store && known[opts.EntryKey(x)].id != x.id {
      UnderMember(plan, wanted, known, store, opts, hook, net, x);
    }
    UnwantedDifference(desired, store, after, known, gone, opts);
  }

  /** An owned entry with an unwanted key. */
  predicate IsUnwanted(x: Entry, desired: seq<Desired>, opts: Options) {
    opts.owns.Owns(x) && opts.EntryKey(x) !in Wanted(desired, opts)
  }

  lemma UnwantedDifference(
    desired: seq<Desired>, store: seq<Entry>, after: seq<Entry>, known: map<string, Entry>, gone: set<string>,
    opts: Options)
    requires UniqueIDs(store)
    requires forall l | l in known :: known[l] in store && opts.owns.Owns(known[l]) && opts.EntryKey(known[l]) == l
    requires forall x | x in store && opts.owns.Owns(x) :: opts.EntryKey(x) in known
    requires gone == set k | k in known.Keys - Wanted(desired, opts).Keys :: known[k].id
    requires forall x | IsUnwanted(x, desired, opts) ::
      x in after <==> x in store && known[opts.EntryKey(x)].id != x.id
    ensures |Unwanted(desired, after, opts)| == |Unwanted(desired, store, opts)| - |gone|
    ensures Unwanted(desired, store, opts) != {} ==> known.Keys - Wanted(desired, opts).Keys != {}
  {
    var before, later := Unwanted(desired, store, opts), Unwanted(desired, after, opts);
    GoneWithin(desired, store, known, gone, opts);
    forall x: Entry | IsUnwanted(x, desired, opts) ensures x in after <==> x in store && x.id !in gone {
      if x in store { NotGone(desired, store, known, gone, opts, x); }
    }
    StillUnwanted(desired, store, after, gone, opts);
    assert later == before - gone;
    if before != {} {
      var id :| id in before;
      var x :| x in store && IsUnwanted(x, desired, opts) && x.id == id;
      assert opts.EntryKey(x) in known.Keys - Wanted(desired, opts).Keys;
    }
  }

  lemma StillUnwanted(desired: seq<Desired>, store: seq<Entry>, after: seq<Entry>, gone: set<string>, opts: Options)
    requires forall x | IsUnwanted(x, desired, opts) :: x in after <==> x in store && x.id !in gone
    ensures Unwanted(desired, after, opts) == Unwanted(desired, store, opts) - gone
  {
    var before, later := Unwanted(desired, store, opts), Unwanted(desired, after, opts);
    forall id | id in later ensures id in before - gone {
      var x :| x in after && IsUnwanted(x, desired, opts) && x.id == id;
      assert x in store;
    }
    forall id | id in before - gone ensures id in later {
      var x :| x in store && IsUnwanted(x, desired, opts) && x.id == id;
      assert x in after;
    }
  }

  lemma GoneWithin(
    desired: seq<Desired>, store: seq<Entry>, known: map<string, Entry>, gone: set<string>, opts: Options)
    requires forall l | l in known :: known[l] in store && opts.owns.Owns(known[l]) && opts.EntryKey(known[l]) == l
    requires gone == set k | k in known.Keys - Wanted(desired, opts).Keys :: known[k].id
    ensures gone <= Unwanted(desired, store, opts)
  {
    forall k | k in known.Keys - Wanted(desired, opts).Keys ensures known[k].id in Unwanted(desired, store, opts) {
      assert known[k] in store;
    }
  }

  /** The ids that go are those of the entries the planner sees. */
  lemma NotGone(
    desired: seq<Desired>, store: seq<Entry>, known: map<string, Entry>, gone: set<string>, opts: Options, x: Entry)
    requires UniqueIDs(store) && x in store && IsUnwanted(x, desired, opts) && opts.EntryKey(x) in known
    requires forall l | l in known :: known[l] in store && opts.owns.Owns(known[l]) && opts.EntryKey(known[l]) == l
    requires gone == set k | k in known.Keys - Wanted(desired, opts).Keys :: known[k].id
    ensures x.id in gone <==> known[opts.EntryKey(x)].id == x.id
  {
    forall k | k in known.Keys - Wanted(desired, opts).Keys && known[k].id == x.id ensures k == opts.EntryKey(x) {
      SameID(store, known[k], x);
    }
    assert opts.EntryKey(x) in known.Keys - Wanted(desired, opts).Keys;
  }
}
