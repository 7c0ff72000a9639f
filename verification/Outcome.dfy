/** When a reconcile reports an error: call by call, in terms of what the server answers. */
module Outcome {
  import opened Reconcile
  import opened Entries
  import opened EntryServer
  import opened EntryClient
  import opened Progress

  /** Call i fails: it is not answered, or one of its results has a status that is not fine. */
  ghost predicate CallFails(
    hook: Hook, rpc: Transport, ops: seq<Op>, store: seq<Entry>, i: nat, fine: set<Code>)
  {
    || !rpc(i).Delivered?
    || exists r | r in Replies(hook, StoreAt(hook, rpc, ops, store, i), CallItems(ops, i)) :: r.code !in fine
  }

  /** One of the first n calls fails. */
  ghost predicate FailsWithin(
    hook: Hook, rpc: Transport, ops: seq<Op>, store: seq<Entry>, n: nat, fine: set<Code>)
  {
    exists i: nat | i < n :: CallFails(hook, rpc, ops, store, i, fine)
  }

  /** One of the calls that a write makes fails. */
  ghost predicate WriteFails(hook: Hook, rpc: Transport, ops: seq<Op>, store: seq<Entry>, fine: set<Code>) {
    FailsWithin(hook, rpc, ops, store, Calls(|ops|), fine)
  }

  /** The store that a write leaves behind. */
  function StoreBehind(hook: Hook, rpc: Transport, ops: seq<Op>, store: seq<Entry>): seq<Entry> {
    StoreAt(hook, rpc, ops, store, Calls(|ops|))
  }

  /** Some call of the creates, of the updates behind them or of the deletes behind those fails. */
  ghost predicate ApplyFails(hook: Hook, net: Network, plan: Plan, store: seq<Entry>) {
    var creates, updates, deletes := Creating(plan.create), Updating(plan.update), Deleting(plan.delete);
    var created := StoreBehind(hook, net.creates, creates, store);
    var updated := StoreBehind(hook, net.updates, updates, created);
    || WriteFails(hook, net.creates, creates, store, {OK, AlreadyExists})
    || WriteFails(hook, net.updates, updates, created, {OK, NotFound})
    || WriteFails(hook, net.deletes, deletes, updated, {OK, NotFound})
  }

  /** The store after creates, updates and deletes, in this order. */
  function StoreApplied(hook: Hook, net: Network, plan: Plan, store: seq<Entry>): seq<Entry> {
    var created := StoreBehind(hook, net.creates, Creating(plan.create), store);
    var updated := StoreBehind(hook, net.updates, Updating(plan.update), created);
    StoreBehind(hook, net.deletes, Deleting(plan.delete), updated)
  }

  lemma {:induction false} BeyondNone(replies: seq<Reply>, codes: set<Code>)
    ensures Beyond(replies, codes) > 0 <==> exists r | r in replies :: r.code !in codes
  {
    if replies != [] {
      assert replies == [replies[0]] + replies[1..];
      BeyondNone(replies[1..], codes);
    }
  }

  /** How many errors the first n calls give. */
  function ErrorsOf(hook: Hook, rpc: Transport, ops: seq<Op>, store: seq<Entry>, n: nat, fine: set<Code>): nat {
    Failures(rpc, n, 0) + Beyond(Answers(hook, rpc, ops, store, n), fine)
  }

  /** One call more gives an error of its own exactly when it fails. */
  lemma ErrorsNext(hook: Hook, rpc: Transport, ops: seq<Op>, store: seq<Entry>, n: nat, fine: set<Code>)
    ensures ErrorsOf(hook, rpc, ops, store, n + 1, fine) > 0
      <==> ErrorsOf(hook, rpc, ops, store, n, fine) > 0 || CallFails(hook, rpc, ops, store, n, fine)
  {
    var before := Answers(hook, rpc, ops, store, n);
    FailuresSnoc(rpc, n, 0);
    if rpc(n).Delivered? {
      var replies := Replies(hook, StoreAt(hook, rpc, ops, store, n), CallItems(ops, n));
      assert Answers(hook, rpc, ops, store, n + 1) == before + replies;
      CodesAppend(before, replies, fine);
      BeyondNone(replies, fine);
    } else {
      assert Answers(hook, rpc, ops, store, n + 1) == before;
    }
  }

  lemma FailsNext(hook: Hook, rpc: Transport, ops: seq<Op>, store: seq<Entry>, n: nat, fine: set<Code>)
    ensures FailsWithin(hook, rpc, ops, store, n + 1, fine)
      <==> FailsWithin(hook, rpc, ops, store, n, fine) || CallFails(hook, rpc, ops, store, n, fine)
  {
  }

  /** An error is counted within the first n calls exactly when one of them fails. */
  lemma {:induction false} ErrorsWithin(
    hook: Hook, rpc: Transport, ops: seq<Op>, store: seq<Entry>, n: nat, fine: set<Code>)
    ensures ErrorsOf(hook, rpc, ops, store, n, fine) > 0 <==> FailsWithin(hook, rpc, ops, store, n, fine)
  {
    if n > 0 {
      ErrorsWithin(hook, rpc, ops, store, n - 1, fine);
      ErrorsNext(hook, rpc, ops, store, n - 1, fine);
      FailsNext(hook, rpc, ops, store, n - 1, fine);
    }
  }

  lemma WriteOutcome(hook: Hook, rpc: Transport, ops: seq<Op>, kind: Kind, store: seq<Entry>)
    requires forall op | op in ops :: KindOf(op) == kind
    ensures var t := Written(hook, rpc, ops, store);
      && t.store == StoreBehind(hook, rpc, ops, store)
      && (t.errors > 0 <==> WriteFails(hook, rpc, ops, store, FineCodes(kind)))
  {
    WrittenCalls(hook, rpc, ops, kind, store);
    ErrorsWithin(hook, rpc, ops, store, Calls(|ops|), FineCodes(kind));
  }

  /**
   * An apply reports an error if and only if some call of its creates, its updates or its deletes is not answered,
   * or brings back a status other than OK and AlreadyExists for a create, or OK and NotFound for an update or delete.
   */
  lemma ApplyOutcome(hook: Hook, net: Network, plan: Plan, store: seq<Entry>)
    ensures var r := Apply(hook, net, plan, store);
      && r.Store() == StoreApplied(hook, net, plan, store)
      && (r.Errors() > 0 <==> ApplyFails(hook, net, plan, store))
  {
    var creates, updates, deletes := Creating(plan.create), Updating(plan.update), Deleting(plan.delete);
    var r := Apply(hook, net, plan, store);
    PartKinds(plan);
    WriteOutcome(hook, net.creates, creates, CreateKind, store);
    WriteOutcome(hook, net.updates, updates, UpdateKind, r.created.store);
    WriteOutcome(hook, net.deletes, deletes, DeleteKind, r.updated.store);
  }
}
