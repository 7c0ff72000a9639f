/** Entries that share a wanted key with the one the planner sees: no cycle ever writes them. */
module Duplicates {
  import opened Entries
  import opened Reconcile
  import opened Plans
  import opened EntryServer
  import opened EntryClient
  import opened Stores
  import opened Progress
  import opened Convergence
  import opened Draining

  /** The entry is owned and has this key. */
  predicate Holds(e: Entry, k: string, opts: Options) {
    opts.owns.Owns(e) && opts.EntryKey(e) == k
  }

  /** The ids of the owned entries with this key, in store order. */
  function Line(store: seq<Entry>, k: string, opts: Options): seq<string> {
    if store == [] then []
    else (if Holds(store[0], k, opts) then [store[0].id] else []) + Line(store[1..], k, opts)
  }

  lemma {:induction false} LineAppend(a: seq<Entry>, b: seq<Entry>, k: string, opts: Options)
    ensures Line(a + b, k, opts) == Line(a, k, opts) + Line(b, k, opts)
  {
    if a == [] {
      assert a + b == b;
    } else {
      assert (a + b)[1..] == a[1..] + b;
      LineAppend(a[1..], b, k, opts);
    }
  }

  /** The planner sees the last entry of the line. */
  lemma {:induction false} LineLast(store: seq<Entry>, k: string, opts: Options)
    ensures var line, known := Line(store, k, opts), ByKey(Owned(store, opts.owns), opts);
      && (k in known <==> line != [])
      && (k in known ==> known[k].id == line[|line| - 1])
  {
    if store != [] {
      LineLast(store[1..], k, opts);
      if opts.owns.Owns(store[0]) {
        var later := Owned(store[1..], opts.owns);
        assert ([store[0]] + later)[1..] == later;
      }
    }
  }

  /** The item changes nothing about the line. */
  ghost predicate Harmless(op: Op, store: seq<Entry>, k: string, opts: Options) {
    match op
    case Create(e) => !Holds(e, k, opts)
    case Update(e) => forall x | x in store && x.id == e.id :: Holds(x, k, opts) <==> Holds(e, k, opts)
    case Delete(id) => forall x | x in store && x.id == id :: !Holds(x, k, opts)
  }

  lemma ItemLine(hook: Hook, store: seq<Entry>, op: Op, k: string, opts: Options)
    requires Harmless(op, store, k, opts)
    ensures Line(Item(hook, store, op).0, k, opts) == Line(store, k, opts)
  {
    if hook(store, op).None? {
      var i := Find(store, op.ID());
      match op
      case Create(e) =>
        LineAppend(store, [e], k, opts);
      case Update(e) =>
        if i < |store| {
          assert store[i] in store;
          assert store == store[..i] + [store[i]] + store[i + 1..];
          assert store[i := e] == store[..i] + [e] + store[i + 1..];
          LineMiddle(store[..i], store[i], store[i + 1..], k, opts);
          LineMiddle(store[..i], e, store[i + 1..], k, opts);
        }
      case Delete(_) =>
        if i < |store| {
          assert store[i] in store;
          assert store == store[..i] + [store[i]] + store[i + 1..];
          LineMiddle(store[..i], store[i], store[i + 1..], k, opts);
          LineAppend(store[..i], store[i + 1..], k, opts);
        }
    }
  }

  lemma LineMiddle(a: seq<Entry>, e: Entry, b: seq<Entry>, k: string, opts: Options)
    ensures Line(a + [e] + b, k, opts)
         == Line(a, k, opts) + (if Holds(e, k, opts) then [e.id] else []) + Line(b, k, opts)
  {
    LineAppend(a + [e], b, k, opts);
    LineAppend(a, [e], k, opts);
  }

  lemma HarmlessAfter(hook: Hook, store: seq<Entry>, op: Op, other: Op, k: string, opts: Options)
    requires !op.Create? || other.Create?
    requires Harmless(op, store, k, opts) && Harmless(other, store, k, opts)
    ensures Harmless(other, Item(hook, store, op).0, k, opts)
  {
    var i := Find(store, op.ID());
    if op.Update? && i < |store| { assert store[i] in store; }
  }

  /** A batch of creates only, or without creates. */
  lemma {:induction false} BatchLine(hook: Hook, store: seq<Entry>, ops: seq<Op>, k: string, opts: Options)
    requires forall op | op in ops :: Harmless(op, store, k, opts)
    requires (forall op | op in ops :: op.Create?) || (forall op | op in ops :: !op.Create?)
    ensures Line(After(hook, store, ops), k, opts) == Line(store, k, opts)
    decreases |ops|
  {
    if ops != [] {
      assert ops[0] in ops;
      ItemLine(hook, store, ops[0], k, opts);
      var after := Item(hook, store, ops[0]).0;
      forall op | op in ops[1..] ensures op in ops && Harmless(op, after, k, opts) {
        HarmlessAfter(hook, store, ops[0], op, k, opts);
      }
      BatchLine(hook, after, ops[1..], k, opts);
    }
  }

  /** A whole write, whichever of its calls reach the server. */
  lemma WrittenLine(hook: Hook, rpc: Transport, store: seq<Entry>, ops: seq<Op>, k: string, opts: Options)
    requires forall op | op in ops :: Harmless(op, store, k, opts)
    requires (forall op | op in ops :: op.Create?) || (forall op | op in ops :: !op.Create?)
    ensures Line(Written(hook, rpc, ops, store).store, k, opts) == Line(store, k, opts)
  {
    ChunksPartition(ops, BATCH_SIZE);
    var chunks := Chunks(ops, BATCH_SIZE);
    BatchingStore(hook, rpc, chunks, 0, Tally(store, 0, 0));
    ReachedWithin(rpc, chunks, 0);
    BatchLine(hook, store, Concat(Reached(rpc, chunks, 0)), k, opts);
  }

  // ----- the three writes of a cycle

  /** The target of an update is the entry the planner sees under the key of the update. */
  lemma UpdateTarget(
    plan: Plan, wanted: map<string, Desired>, known: map<string, Entry>, store: seq<Entry>, opts: Options, u: Entry,
    x: Entry)
    requires UniqueIDs(store) && Sound(plan, wanted, known, store, opts) && OwnRule(opts)
    requires u in plan.update && x.id == u.id && (x in store || x in plan.create)
    ensures opts.EntryKey(x) == opts.EntryKey(u) && opts.owns.Owns(x)
    ensures opts.owns.Owns(u)
  {
    var seen := known[opts.EntryKey(u)];
    assert seen.id in IDs(store);
    SameID(store, x, seen);
  }

  lemma UpdatesHarmless(
    plan: Plan, wanted: map<string, Desired>, known: map<string, Entry>, store: seq<Entry>, opts: Options,
    now: seq<Entry>, k: string)
    requires UniqueIDs(store) && Sound(plan, wanted, known, store, opts) && OwnRule(opts)
    requires forall x | x in now :: x in store || x in plan.create
    ensures forall op | op in Updating(plan.update) :: Harmless(op, now, k, opts)
  {
    forall u | u in plan.update ensures Harmless(Update(u), now, k, opts) {
      forall x | x in now && x.id == u.id ensures Holds(x, k, opts) <==> Holds(u, k, opts) {
        UpdateTarget(plan, wanted, known, store, opts, u, x);
      }
    }
  }

  lemma DeletesHarmless(
    plan: Plan, wanted: map<string, Desired>, known: map<string, Entry>, store: seq<Entry>, opts: Options,
    now: seq<Entry>, k: string)
    requires UniqueIDs(store) && Sound(plan, wanted, known, store, opts) && k in wanted
    requires forall x | x in now :: x in store || x in plan.create || x in plan.update
    ensures forall op | op in Deleting(plan.delete) :: Harmless(op, now, k, opts)
  {
    forall id | id in plan.delete ensures Harmless(Delete(id), now, k, opts) {
      var l :| l in known.Keys - wanted.Keys && known[l].id == id;
      forall x | x in now && x.id == id ensures !Holds(x, k, opts) {
        assert known[l].id in IDs(store);
        if x in store { SameID(store, x, known[l]); }
        if x in plan.update { KnownApart(known, store, opts, opts.EntryKey(x), l); }
      }
    }
  }

  /** Under a wanted key that is known, a cycle neither adds nor removes nor reorders ids, whatever fails. */
  lemma ApplyLine(
    plan: Plan, wanted: map<string, Desired>, known: map<string, Entry>, store: seq<Entry>, opts: Options,
    hook: Hook, net: Network, k: string)
    requires UniqueIDs(store) && Sound(plan, wanted, known, store, opts) && OwnRule(opts) && k in wanted && k in known
    ensures Line(Apply(hook, net, plan, store).Store(), k, opts) == Line(store, k, opts)
  {
    var r := Apply(hook, net, plan, store);
    PartKinds(plan);
    assert forall op | op in Creating(plan.create) :: op.Create? && op.entry in plan.create;
    WrittenLine(hook, net.creates, store, Creating(plan.create), k, opts);
    forall x | x in r.created.store ensures x in store || x in plan.create {
      WrittenInserts(hook, net.creates, Creating(plan.create), store, x);
    }
    UpdatesHarmless(plan, wanted, known, store, opts, r.created.store, k);
    WrittenLine(hook, net.updates, r.created.store, Updating(plan.update), k, opts);
    assert forall op | op in Updating(plan.update) :: op.Update? && op.entry in plan.update;
    forall x | x in r.updated.store ensures x in store || x in plan.create || x in plan.update {
      WrittenInserts(hook, net.updates, Updating(plan.update), r.created.store, x);
    }
    DeletesHarmless(plan, wanted, known, store, opts, r.updated.store, k);
    WrittenLine(hook, net.deletes, r.updated.store, Deleting(plan.delete), k, opts);
  }

  /** An owned entry with a wanted key that is not the one the planner sees. */
  ghost predicate IsSurplus(x: Entry, desired: seq<Desired>, store: seq<Entry>, opts: Options) {
    var known := ByKey(Owned(store, opts.owns), opts);
    && x in store && opts.owns.Owns(x) && opts.EntryKey(x) in Wanted(desired, opts)
    && opts.EntryKey(x) in known && known[opts.EntryKey(x)].id != x.id
  }

  /** No write of a cycle carries the id of a surplus entry. */
  lemma SurplusUntouched(
    plan: Plan, wanted: map<string, Desired>, known: map<string, Entry>, store: seq<Entry>, opts: Options, x: Entry)
    requires UniqueIDs(store) && Sound(plan, wanted, known, store, opts)
    requires x in store && opts.EntryKey(x) in wanted && opts.EntryKey(x) in known && known[opts.EntryKey(x)].id != x.id
    ensures x.id !in Touched(Creating(plan.create)) && x.id !in Touched(Updating(plan.update))
    ensures x.id !in plan.delete
  {
    forall u | u in plan.update ensures u.id != x.id {
      if u.id == x.id { SameID(store, known[opts.EntryKey(u)], x); }
    }
    forall k | k in known.Keys - wanted.Keys ensures known[k].id != x.id {
      if known[k].id == x.id { SameID(store, known[k], x); }
    }
  }

  lemma SurplusStays(
    plan: Plan, wanted: map<string, Desired>, known: map<string, Entry>, store: seq<Entry>, opts: Options,
    hook: Hook, net: Network, x: Entry)
    requires UniqueIDs(store) && Sound(plan, wanted, known, store, opts) && OwnRule(opts)
    requires x in store && opts.EntryKey(x) in wanted && opts.EntryKey(x) in known && known[opts.EntryKey(x)].id != x.id
    ensures var after := Apply(hook, net, plan, store).Store();
      x in after && Line(after, opts.EntryKey(x), opts) == Line(store, opts.EntryKey(x), opts)
  {
    SurplusUntouched(plan, wanted, known, store, opts, x);
    ApplyFrame(plan, store, hook, net, x);
    ApplyLine(plan, wanted, known, store, opts, hook, net, opts.EntryKey(x));
  }

  /**
   * A surplus entry under a wanted key is neither updated nor deleted, and stays surplus: one
   * cycle leaves it exactly as it was, whatever the hook refuses and whichever calls fail.
   */
  lemma SurplusKept(
    desired: seq<Desired>, store: seq<Entry>, opts: Options, drawn: nat, hook: Hook, net: Network, x: Entry)
    requires Prepared(store, opts, drawn) && IsSurplus(x, desired, store, opts)
    ensures IsSurplus(x, desired, Cycle(hook, net, desired, opts, drawn, store), opts)
  {
    var existing := Owned(store, opts.owns);
    var plan, wanted, known := DiffPlan(desired, existing, opts, drawn), Wanted(desired, opts), ByKey(existing, opts);
    var after := Cycle(hook, net, desired, opts, drawn, store);
    var k := opts.EntryKey(x);
    PlanSound(desired, store, opts, drawn);
    SurplusStays(plan, wanted, known, store, opts, hook, net, x);
    LineLast(store, k, opts);
    LineLast(after, k, opts);
  }

  /** Over any run of cycles, whatever fails in them, a surplus entry is there at every point. */
  lemma {:induction false} SurplusForever(
    trace: seq<Server>, nets: seq<Network>, hook: Hook, desired: seq<Desired>, opts: Options, n: nat, x: Entry)
    requires CycleRun(trace, nets, hook, desired, opts) && Prepared(trace[0].store, opts, trace[0].drawn)
    requires IsSurplus(x, desired, trace[0].store, opts) && n <= |nets|
    ensures IsSurplus(x, desired, trace[n].store, opts)
    decreases n
  {
    if n > 0 {
      SurplusForever(trace, nets, hook, desired, opts, n - 1, x);
      RunPrepared(trace, nets, hook, desired, opts, n - 1);
      SurplusNext(trace, nets, hook, desired, opts, n - 1, x);
    }
  }

  lemma SurplusNext(
    trace: seq<Server>, nets: seq<Network>, hook: Hook, desired: seq<Desired>, opts: Options, i: nat, x: Entry)
    requires CycleRun(trace, nets, hook, desired, opts) && i < |nets|
    requires Prepared(trace[i].store, opts, trace[i].drawn) && IsSurplus(x, desired, trace[i].store, opts)
    ensures IsSurplus(x, desired, trace[i + 1].store, opts)
  {
    SurplusKept(desired, trace[i].store, opts, trace[i].drawn, hook, nets[i], x);
  }
}
