/** Applying a plan: how far the server is from what is wanted, and what every write does to that distance. */
module Progress {
  import opened Entries
  import opened Reconcile
  import opened Plans
  import opened EntryServer
  import opened EntryClient
  import opened Stores

  // ----- a store with one owned entry a key

  /** No two owned entries share a key. */
  ghost predicate KeyUnique(store: seq<Entry>, opts: Options) {
    forall a, b | a in store && b in store && opts.owns.Owns(a) && opts.owns.Owns(b)
      && opts.EntryKey(a) == opts.EntryKey(b) ::
      a.id == b.id
  }

  /** The map lists exactly the owned entries, each under its key. */
  ghost predicate Index(store: seq<Entry>, known: map<string, Entry>, opts: Options) {
    && UniqueIDs(store)
    && (forall e :: e in store && opts.owns.Owns(e) <==> opts.EntryKey(e) in known && known[opts.EntryKey(e)] == e)
    && (forall k | k in known :: opts.EntryKey(known[k]) == k)
  }

  lemma IndexUnique(store: seq<Entry>, m: map<string, Entry>, n: map<string, Entry>, opts: Options)
    requires Index(store, m, opts) && Index(store, n, opts)
    ensures m == n
  {
    forall k | k in m ensures k in n && n[k] == m[k] {
      assert opts.EntryKey(m[k]) == k;
    }
    forall k | k in n ensures k in m {
      assert opts.EntryKey(n[k]) == k;
    }
  }

  lemma IndexKeyUnique(store: seq<Entry>, known: map<string, Entry>, opts: Options)
    requires Index(store, known, opts)
    ensures KeyUnique(store, opts)
  {
  }

  lemma {:induction false} OwnedMembers(store: seq<Entry>, owns: Ownership)
    ensures forall e :: e in Owned(store, owns) <==> e in store && owns.Owns(e)
  {
    if store != [] {
      OwnedMembers(store[1..], owns);
      assert store == [store[0]] + store[1..];
    }
  }

  /** The planner's index of an accurate listing is the index of the store. */
  lemma ListingIndex(store: seq<Entry>, opts: Options)
    requires UniqueIDs(store) && KeyUnique(store, opts)
    ensures Index(store, ByKey(Owned(store, opts.owns), opts), opts)
  {
    var listing := Owned(store, opts.owns);
    OwnedMembers(store, opts.owns);
    VisibleFacts(listing, opts);
    var known := ByKey(listing, opts);
    forall e | e in store && opts.owns.Owns(e) ensures opts.EntryKey(e) in known && known[opts.EntryKey(e)] == e {
      SameID(store, e, known[opts.EntryKey(e)]);
    }
  }

  // ----- the distance

  /** Missing keys, drifted entries and unwanted entries. */
  function Gap(wanted: map<string, Desired>, known: map<string, Entry>): nat {
    |wanted.Keys - known.Keys| + |DriftedKeys(wanted, known)| + |known.Keys - wanted.Keys|
  }

  /** The distance between a store and the records wanted. */
  function Distance(desired: seq<Desired>, store: seq<Entry>, opts: Options): nat {
    Gap(Wanted(desired, opts), ByKey(Owned(store, opts.owns), opts))
  }

  /** A plan has as many items as the distance it was computed at. */
  lemma PlanSize(desired: seq<Desired>, existing: seq<Entry>, opts: Options, drawn: nat)
    ensures var plan := DiffPlan(desired, existing, opts, drawn);
      && |plan.create| + |plan.update| + |plan.delete| == Gap(Wanted(desired, opts), ByKey(existing, opts))
      && (plan.Empty() <==> Gap(Wanted(desired, opts), ByKey(existing, opts)) == 0)
  {
    PlanMeaning(desired, existing, opts, drawn);
    var plan := DiffPlan(desired, existing, opts, drawn);
    DistinctCount(plan.create, opts);
    DistinctCount(plan.update, opts);
  }

  /** Every wanted entry already known keeps its id. */
  ghost predicate Keeps(wanted: map<string, Desired>, known: map<string, Entry>, known': map<string, Entry>) {
    forall k | k in wanted && k in known :: k in known' && known'[k].id == known[k].id
  }

  // ----- useful items

  /** The item closes one unit of the gap. */
  ghost predicate Useful(
    op: Op, wanted: map<string, Desired>, known: map<string, Entry>, store: seq<Entry>, opts: Options)
  {
    match op
    case Create(e) => Creatable(e, wanted, known, opts) && opts.owns.Owns(e) && e.id !in IDs(store)
    case Update(e) => Updatable(e, wanted, known, opts) && opts.owns.Owns(e)
    case Delete(id) => exists k | k in known.Keys - wanted.Keys :: known[k].id == id
  }

  /** Two items of one batch that do not get in each other's way. */
  predicate Apart(a: Op, b: Op, opts: Options) {
    && (a.Create? && b.Create? ==> a.entry.id != b.entry.id && opts.EntryKey(a.entry) != opts.EntryKey(b.entry))
    && (a.Update? && b.Update? ==> opts.EntryKey(a.entry) != opts.EntryKey(b.entry))
    && (a.Delete? && b.Delete? ==> a.target != b.target)
  }

  /** Useful items, each apart from all later ones. */
  ghost predicate Batch(
    ops: seq<Op>, wanted: map<string, Desired>, known: map<string, Entry>, store: seq<Entry>, opts: Options)
    decreases |ops|
  {
    ops == [] ||
    (&& Useful(ops[0], wanted, known, store, opts)
     && (forall other | other in ops[1..] :: Apart(ops[0], other, opts))
     && Batch(ops[1..], wanted, known, store, opts))
  }

  /** What is known once the item has taken effect. */
  ghost function Advance(
    op: Op, wanted: map<string, Desired>, known: map<string, Entry>, store: seq<Entry>,
    opts: Options): map<string, Entry>
    requires Useful(op, wanted, known, store, opts)
  {
    match op
    case Create(e) => known[opts.EntryKey(e) := e]
    case Update(e) => known[opts.EntryKey(e) := e]
    case Delete(id) => var k :| k in known.Keys - wanted.Keys && known[k].id == id; known - {k}
  }

  lemma KnownInStore(store: seq<Entry>, known: map<string, Entry>, opts: Options, k: string)
    requires Index(store, known, opts) && k in known
    ensures known[k] in store && opts.owns.Owns(known[k]) && known[k].id in IDs(store)
  {
    assert opts.EntryKey(known[k]) == k;
  }

  lemma UsefulTarget(op: Op, wanted: map<string, Desired>, known: map<string, Entry>, store: seq<Entry>, opts: Options)
    requires Index(store, known, opts) && Useful(op, wanted, known, store, opts)
    ensures if op.Create? then op.entry.id !in IDs(store) else op.ID() in IDs(store)
  {
    match op
    case Create(e) =>
    case Update(e) => KnownInStore(store, known, opts, opts.EntryKey(e));
    case Delete(id) =>
      var k :| k in known.Keys - wanted.Keys && known[k].id == id;
      KnownInStore(store, known, opts, k);
  }

  lemma CreateIndex(
    hook: Hook, e: Entry, wanted: map<string, Desired>, known: map<string, Entry>, store: seq<Entry>, opts: Options)
    requires Index(store, known, opts) && Useful(Create(e), wanted, known, store, opts)
    requires hook(store, Create(e)).None?
    ensures Index(Item(hook, store, Create(e)).0, known[opts.EntryKey(e) := e], opts)
  {
    ItemMembers(hook, store, Create(e));
  }

  lemma UpdateIndex(
    hook: Hook, e: Entry, wanted: map<string, Desired>, known: map<string, Entry>, store: seq<Entry>, opts: Options)
    requires Index(store, known, opts) && Useful(Update(e), wanted, known, store, opts)
    requires hook(store, Update(e)).None?
    ensures Index(Item(hook, store, Update(e)).0, known[opts.EntryKey(e) := e], opts)
  {
    ItemMembers(hook, store, Update(e));
    KnownInStore(store, known, opts, opts.EntryKey(e));
    forall x | x in store && opts.owns.Owns(x) && x.id == e.id ensures opts.EntryKey(x) == opts.EntryKey(e) {
      SameID(store, x, known[opts.EntryKey(e)]);
    }
  }

  lemma DeleteIndex(
    hook: Hook, k: string, wanted: map<string, Desired>, known: map<string, Entry>, store: seq<Entry>, opts: Options)
    requires Index(store, known, opts) && k in known
    requires hook(store, Delete(known[k].id)).None?
    ensures Index(Item(hook, store, Delete(known[k].id)).0, known - {k}, opts)
  {
    ItemMembers(hook, store, Delete(known[k].id));
    KnownInStore(store, known, opts, k);
    forall x | x in store && x.id == known[k].id ensures x == known[k] {
      SameID(store, x, known[k]);
    }
  }

  /** A useful item that is let through succeeds and the index follows it. */
  lemma ItemIndex(
    hook: Hook, op: Op, wanted: map<string, Desired>, known: map<string, Entry>, store: seq<Entry>, opts: Options)
    requires Index(store, known, opts) && Useful(op, wanted, known, store, opts)
    requires hook(store, op).None?
    ensures Index(Item(hook, store, op).0, Advance(op, wanted, known, store, opts), opts)
    ensures Item(hook, store, op).1.code == OK
  {
    UsefulTarget(op, wanted, known, store, opts);
    FindFacts(store, op.ID());
    match op
    case Create(e) => CreateIndex(hook, e, wanted, known, store, opts);
    case Update(e) => UpdateIndex(hook, e, wanted, known, store, opts);
    case Delete(id) =>
      var known' := Advance(op, wanted, known, store, opts);
      var k :| k in known && known' == known - {k} && known[k].id == id;
      DeleteIndex(hook, k, wanted, known, store, opts);
  }

  lemma GapAdd(wanted: map<string, Desired>, known: map<string, Entry>, key: string, e: Entry)
    requires key in wanted && key !in known && !Drifted(wanted[key], e)
    ensures Gap(wanted, known[key := e]) == Gap(wanted, known) - 1
  {
    var known' := known[key := e];
    assert wanted.Keys - known'.Keys == (wanted.Keys - known.Keys) - {key};
    assert known'.Keys - wanted.Keys == known.Keys - wanted.Keys;
    assert DriftedKeys(wanted, known') == DriftedKeys(wanted, known);
  }

  lemma GapReplace(wanted: map<string, Desired>, known: map<string, Entry>, key: string, e: Entry)
    requires key in DriftedKeys(wanted, known) && !Drifted(wanted[key], e)
    ensures Gap(wanted, known[key := e]) == Gap(wanted, known) - 1
  {
    var known' := known[key := e];
    assert known'.Keys == known.Keys;
    assert DriftedKeys(wanted, known') == DriftedKeys(wanted, known) - {key};
  }

  lemma GapRemove(wanted: map<string, Desired>, known: map<string, Entry>, key: string)
    requires key in known && key !in wanted
    ensures Gap(wanted, known - {key}) == Gap(wanted, known) - 1
  {
    var known' := known - {key};
    assert known'.Keys - wanted.Keys == (known.Keys - wanted.Keys) - {key};
    assert wanted.Keys - known'.Keys == wanted.Keys - known.Keys;
    assert DriftedKeys(wanted, known') == DriftedKeys(wanted, known);
  }

  /** A useful item that takes effect closes exactly one unit. */
  lemma ItemGap(op: Op, wanted: map<string, Desired>, known: map<string, Entry>, store: seq<Entry>, opts: Options)
    requires Useful(op, wanted, known, store, opts)
    ensures Gap(wanted, Advance(op, wanted, known, store, opts)) == Gap(wanted, known) - 1
  {
    match op
    case Create(e) =>
      assert !Drifted(wanted[opts.EntryKey(e)], e);
      GapAdd(wanted, known, opts.EntryKey(e), e);
    case Update(e) =>
      assert !Drifted(wanted[opts.EntryKey(e)], e);
      GapReplace(wanted, known, opts.EntryKey(e), e);
    case Delete(id) =>
      var k :| k in known.Keys - wanted.Keys && Advance(op, wanted, known, store, opts) == known - {k};
      GapRemove(wanted, known, k);
  }

  /** Other creates of the batch stay useful: their ids stay free. */
  lemma CreateStays(
    hook: Hook, op: Op, e: Entry, wanted: map<string, Desired>, known: map<string, Entry>, store: seq<Entry>,
    opts: Options)
    requires Index(store, known, opts)
    requires Useful(op, wanted, known, store, opts) && Useful(Create(e), wanted, known, store, opts)
    requires Apart(op, Create(e), opts)
    ensures Useful(Create(e), wanted, Advance(op, wanted, known, store, opts), Item(hook, store, op).0, opts)
  {
    UsefulTarget(op, wanted, known, store, opts);
    ItemUnique(hook, store, op);
  }

  /** Other updates stay useful: their keys stay drifted. */
  lemma UpdateStays(
    op: Op, u: Entry, wanted: map<string, Desired>, known: map<string, Entry>, store: seq<Entry>, after: seq<Entry>,
    opts: Options)
    requires Useful(op, wanted, known, store, opts) && Useful(Update(u), wanted, known, store, opts)
    requires Apart(op, Update(u), opts)
    ensures Useful(Update(u), wanted, Advance(op, wanted, known, store, opts), after, opts)
  {
  }

  /** Other deletes stay useful: their keys stay known and unwanted. */
  lemma DeleteStays(
    op: Op, id: string, wanted: map<string, Desired>, known: map<string, Entry>, store: seq<Entry>, after: seq<Entry>,
    opts: Options)
    requires Useful(op, wanted, known, store, opts) && Useful(Delete(id), wanted, known, store, opts)
    requires Apart(op, Delete(id), opts)
    ensures Useful(Delete(id), wanted, Advance(op, wanted, known, store, opts), after, opts)
  {
    var known' := Advance(op, wanted, known, store, opts);
    var k :| k in known.Keys - wanted.Keys && known[k].id == id;
    assert k in known'.Keys - wanted.Keys && known'[k].id == id;
  }

  /** The other items of the batch stay useful. */
  lemma ItemOthers(
    hook: Hook, op: Op, other: Op, wanted: map<string, Desired>, known: map<string, Entry>, store: seq<Entry>,
    opts: Options)
    requires Index(store, known, opts)
    requires Useful(op, wanted, known, store, opts) && Useful(other, wanted, known, store, opts)
    requires Apart(op, other, opts)
    ensures Useful(other, wanted, Advance(op, wanted, known, store, opts), Item(hook, store, op).0, opts)
  {
    var after := Item(hook, store, op).0;
    match other
    case Create(e) => CreateStays(hook, op, e, wanted, known, store, opts);
    case Update(u) => UpdateStays(op, u, wanted, known, store, after, opts);
    case Delete(id) => DeleteStays(op, id, wanted, known, store, after, opts);
  }

  // ----- batches under failure

  /** The hook does not call an item done that it has kept from taking effect; a missing entry counts as deleted. */
  predicate Honest(hook: Hook, store: seq<Entry>, op: Op) {
    match hook(store, op)
    case None => true
    case Some(reply) => reply.code != OK && (op.Delete? ==> reply.code != NotFound)
  }

  /** A hook that never reports success for an item it has kept from taking effect. */
  ghost predicate Truthful(hook: Hook) {
    forall store, op :: Honest(hook, store, op)
  }

  lemma {:induction false} BatchKept(
    hook: Hook, op: Op, ops: seq<Op>, wanted: map<string, Desired>, known: map<string, Entry>, store: seq<Entry>,
    opts: Options)
    requires Index(store, known, opts) && Useful(op, wanted, known, store, opts)
    requires Batch(ops, wanted, known, store, opts)
    requires forall other | other in ops :: Apart(op, other, opts)
    ensures Batch(ops, wanted, Advance(op, wanted, known, store, opts), Item(hook, store, op).0, opts)
    decreases |ops|
  {
    if ops != [] {
      assert ops[0] in ops;
      assert forall other | other in ops[1..] :: other in ops;
      ItemOthers(hook, op, ops[0], wanted, known, store, opts);
      BatchKept(hook, op, ops[1..], wanted, known, store, opts);
    }
  }

  lemma {:induction false} BatchSuffix(
    ops: seq<Op>, rest: seq<Op>, wanted: map<string, Desired>, known: map<string, Entry>, store: seq<Entry>,
    opts: Options)
    requires Batch(ops + rest, wanted, known, store, opts)
    ensures Batch(rest, wanted, known, store, opts)
    decreases |ops|
  {
    if ops == [] {
      assert ops + rest == rest;
    } else {
      assert (ops + rest)[1..] == ops[1..] + rest;
      BatchSuffix(ops[1..], rest, wanted, known, store, opts);
    }
  }

  lemma AdvanceKeeps(op: Op, wanted: map<string, Desired>, known: map<string, Entry>, store: seq<Entry>, opts: Options)
    requires Useful(op, wanted, known, store, opts)
    ensures Keeps(wanted, known, Advance(op, wanted, known, store, opts))
  {
  }

  lemma KeepsTransitive(
    wanted: map<string, Desired>, a: map<string, Entry>, b: map<string, Entry>, c: map<string, Entry>)
    requires Keeps(wanted, a, b) && Keeps(wanted, b, c)
    ensures Keeps(wanted, a, c)
  {
  }

  /** A useful item that is let through, and the rest of its batch. */
  lemma BatchTaken(
    hook: Hook, op: Op, rest: seq<Op>, wanted: map<string, Desired>, known: map<string, Entry>, store: seq<Entry>,
    opts: Options)
    requires Index(store, known, opts) && hook(store, op).None?
    requires Useful(op, wanted, known, store, opts) && Batch(rest, wanted, known, store, opts)
    requires forall other | other in rest :: Apart(op, other, opts)
    ensures var known', after := Advance(op, wanted, known, store, opts), Item(hook, store, op).0;
      && Index(after, known', opts) && Batch(rest, wanted, known', after, opts)
      && Gap(wanted, known') + 1 == Gap(wanted, known) && Keeps(wanted, known, known')
    ensures Item(hook, store, op).1.code == OK
  {
    ItemIndex(hook, op, wanted, known, store, opts);
    ItemGap(op, wanted, known, store, opts);
    AdvanceKeeps(op, wanted, known, store, opts);
    BatchKept(hook, op, rest, wanted, known, store, opts);
  }

  /** What a truthful hook keeps from taking effect is not counted. */
  lemma RefusedUncounted(hook: Hook, op: Op, store: seq<Entry>)
    requires Truthful(hook) && hook(store, op).Some?
    ensures Item(hook, store, op).0 == store
    ensures !Judge(KindOf(op), Item(hook, store, op).1.code).Counted?
  {
    assert Honest(hook, store, op);
  }

  lemma OKCounts(kind: Kind)
    ensures Judge(kind, OK).Counted?
  {
  }

  lemma BatchTail(
    hook: Hook, op: Op, rest: seq<Op>, wanted: map<string, Desired>, known: map<string, Entry>, store: seq<Entry>,
    opts: Options)
    returns (known': map<string, Entry>)
    requires Index(store, known, opts) && Batch([op] + rest, wanted, known, store, opts)
    requires Truthful(hook)
    ensures var (after, reply) := Item(hook, store, op);
      && Index(after, known', opts) && Batch(rest, wanted, known', after, opts)
      && Gap(wanted, known') + (if Judge(KindOf(op), reply.code).Counted? then 1 else 0) == Gap(wanted, known)
      && (hook(store, op).None? <==> Judge(KindOf(op), reply.code).Counted?)
      && Keeps(wanted, known, known')
  {
    assert ([op] + rest)[1..] == rest;
    if hook(store, op).Some? {
      known' := known;
      RefusedUncounted(hook, op, store);
    } else {
      known' := Advance(op, wanted, known, store, opts);
      BatchTaken(hook, op, rest, wanted, known, store, opts);
      OKCounts(KindOf(op));
    }
  }

  /** Every hook lets every item of the batch through. */
  ghost predicate Admits(hook: Hook, store: seq<Entry>, ops: seq<Op>)
    decreases |ops|
  {
    ops == [] || (hook(store, ops[0]).None? && Admits(hook, Item(hook, store, ops[0]).0, ops[1..]))
  }

  /** What some items of a batch have done, with the rest of it still to do. */
  ghost predicate Tallied(
    wanted: map<string, Desired>, known: map<string, Entry>, t: Tally, known': map<string, Entry>, t': Tally, n: nat,
    opts: Options)
  {
    && Index(t'.store, known', opts)
    && Gap(wanted, known') + t'.count == Gap(wanted, known) + t.count
    && t'.count <= t.count + n
    && Keeps(wanted, known, known')
  }

  lemma TalliedTransitive(
    wanted: map<string, Desired>, a: map<string, Entry>, t: Tally, b: map<string, Entry>, u: Tally,
    c: map<string, Entry>, v: Tally, m: nat, n: nat, opts: Options)
    requires Tallied(wanted, a, t, b, u, m, opts) && Tallied(wanted, b, u, c, v, n, opts)
    ensures Tallied(wanted, a, t, c, v, m + n, opts)
  {
  }

  /** One item. */
  lemma TallyOne(
    hook: Hook, op: Op, rest: seq<Op>, wanted: map<string, Desired>, known: map<string, Entry>, t: Tally, opts: Options)
    returns (known': map<string, Entry>)
    requires Index(t.store, known, opts) && Batch([op] + rest, wanted, known, t.store, opts)
    requires Truthful(hook)
    ensures var t' := TallyItem(hook, op, t);
      && Tallied(wanted, known, t, known', t', 1, opts) && Batch(rest, wanted, known', t'.store, opts)
      && (hook(t.store, op).None? <==> t'.count == t.count + 1)
  {
    known' := BatchTail(hook, op, rest, wanted, known, t.store, opts);
  }

  /** Everything is let through exactly when the first item and the rest are. */
  lemma AdmitsCons(hook: Hook, ops: seq<Op>, t: Tally, t': Tally)
    requires ops != []
    requires var t1 := TallyItem(hook, ops[0], t);
      && t1.count <= t.count + 1 && t'.count <= t1.count + |ops| - 1
      && (hook(t.store, ops[0]).None? <==> t1.count == t.count + 1)
      && (Admits(hook, t1.store, ops[1..]) <==> t'.count == t1.count + |ops| - 1)
    ensures Admits(hook, t.store, ops) <==> t'.count == t.count + |ops|
  {
  }

  /** The items are done: what they have counted has closed the gap, and the rest of the batch is still to do. */
  ghost predicate Worked(
    hook: Hook, ops: seq<Op>, rest: seq<Op>, wanted: map<string, Desired>, known: map<string, Entry>, t: Tally,
    known': map<string, Entry>, opts: Options)
  {
    var t' := TallyOps(hook, ops, t);
    && Tallied(wanted, known, t, known', t', |ops|, opts) && Batch(rest, wanted, known', t'.store, opts)
    && (Admits(hook, t.store, ops) <==> t'.count == t.count + |ops|)
  }

  /** One item, and the items behind it. */
  lemma WorkedCons(
    hook: Hook, ops: seq<Op>, rest: seq<Op>, wanted: map<string, Desired>, known: map<string, Entry>, t: Tally,
    known1: map<string, Entry>, known': map<string, Entry>, opts: Options)
    requires ops != []
    requires var t1 := TallyItem(hook, ops[0], t);
      && Tallied(wanted, known, t, known1, t1, 1, opts)
      && (hook(t.store, ops[0]).None? <==> t1.count == t.count + 1)
      && Worked(hook, ops[1..], rest, wanted, known1, t1, known', opts)
    ensures Worked(hook, ops, rest, wanted, known, t, known', opts)
  {
    var t1 := TallyItem(hook, ops[0], t);
    TalliedTransitive(wanted, known, t, known1, t1, known', TallyOps(hook, ops[1..], t1), 1, |ops| - 1, opts);
    AdmitsCons(hook, ops, t, TallyOps(hook, ops[1..], t1));
  }

  /** One answered call: the gap falls by exactly what is counted. */
  lemma {:induction false} TallyGap(
    hook: Hook, ops: seq<Op>, rest: seq<Op>, wanted: map<string, Desired>, known: map<string, Entry>, t: Tally,
    opts: Options)
    returns (known': map<string, Entry>)
    requires Index(t.store, known, opts) && Batch(ops + rest, wanted, known, t.store, opts)
    requires Truthful(hook)
    ensures Worked(hook, ops, rest, wanted, known, t, known', opts)
    decreases |ops|
  {
    if ops == [] {
      known' := known;
      assert ops + rest == rest;
    } else {
      assert ops + rest == [ops[0]] + (ops[1..] + rest);
      var known1 := TallyOne(hook, ops[0], ops[1..] + rest, wanted, known, t, opts);
      known' := TallyGap(hook, ops[1..], rest, wanted, known1, TallyItem(hook, ops[0], t), opts);
      WorkedCons(hook, ops, rest, wanted, known, t, known1, known', opts);
    }
  }

  /** One call, answered or not: the gap falls by at least what is counted. */
  lemma CallGap(
    hook: Hook, delivery: Delivery, ops: seq<Op>, rest: seq<Op>,
    wanted: map<string, Desired>, known: map<string, Entry>, t: Tally, opts: Options)
    returns (known': map<string, Entry>)
    requires Index(t.store, known, opts) && Batch(ops + rest, wanted, known, t.store, opts)
    requires Truthful(hook)
    ensures var t' := TallyCall(hook, delivery, ops, t);
      && Index(t'.store, known', opts) && Batch(rest, wanted, known', t'.store, opts)
      && Gap(wanted, known') + t'.count <= Gap(wanted, known) + t.count
      && (delivery.Delivered? ==> Gap(wanted, known') + t'.count == Gap(wanted, known) + t.count)
      && Keeps(wanted, known, known')
  {
    if delivery.Unreachable? {
      known' := known;
      BatchSuffix(ops, rest, wanted, known, t.store, opts);
    } else {
      known' := TallyGap(hook, ops, rest, wanted, known, t, opts);
      TallyStore(hook, ops, t);
      TallyCounts(hook, ops, t);
    }
  }

  lemma {:induction false} TallyCounts(hook: Hook, ops: seq<Op>, t: Tally)
    ensures TallyOps(hook, ops, t).count >= t.count
    decreases |ops|
  {
    if ops != [] {
      TallyCounts(hook, ops[1..], TallyItem(hook, ops[0], t));
    }
  }

  lemma ConcatStep(chunks: seq<seq<Op>>, rest: seq<Op>)
    requires chunks != []
    ensures Concat(chunks) + rest == chunks[0] + (Concat(chunks[1..]) + rest)
  {
  }

  /** All the calls of one write. */
  lemma {:induction false} ChunksGap(
    hook: Hook, rpc: Transport, chunks: seq<seq<Op>>, i: nat, rest: seq<Op>,
    wanted: map<string, Desired>, known: map<string, Entry>, t: Tally, opts: Options, answered: bool)
    returns (known': map<string, Entry>)
    requires Index(t.store, known, opts) && Batch(Concat(chunks) + rest, wanted, known, t.store, opts)
    requires Truthful(hook)
    requires answered ==> forall n: nat :: rpc(n).Delivered?
    ensures var t' := TallyChunks(hook, rpc, chunks, i, t);
      && Index(t'.store, known', opts) && Batch(rest, wanted, known', t'.store, opts)
      && Gap(wanted, known') + t'.count <= Gap(wanted, known) + t.count
      && (answered ==> Gap(wanted, known') + t'.count == Gap(wanted, known) + t.count)
      && Keeps(wanted, known, known')
    decreases |chunks|
  {
    if chunks == [] {
      known' := known;
      assert Concat(chunks) + rest == rest;
    } else {
      ConcatStep(chunks, rest);
      var t1 := TallyCall(hook, rpc(i), chunks[0], t);
      var known1 := CallGap(hook, rpc(i), chunks[0], Concat(chunks[1..]) + rest, wanted, known, t, opts);
      known' := ChunksGap(hook, rpc, chunks[1..], i + 1, rest, wanted, known1, t1, opts, answered);
      KeepsTransitive(wanted, known, known1, known');
    }
  }

  lemma WrittenGap(
    hook: Hook, rpc: Transport, ops: seq<Op>, rest: seq<Op>,
    wanted: map<string, Desired>, known: map<string, Entry>, store: seq<Entry>, opts: Options, answered: bool)
    returns (known': map<string, Entry>)
    requires Index(store, known, opts) && Batch(ops + rest, wanted, known, store, opts)
    requires Truthful(hook)
    requires answered ==> forall n: nat :: rpc(n).Delivered?
    ensures var t := Written(hook, rpc, ops, store);
      && Index(t.store, known', opts) && Batch(rest, wanted, known', t.store, opts)
      && Gap(wanted, known') + t.count <= Gap(wanted, known)
      && (answered ==> Gap(wanted, known') + t.count == Gap(wanted, known))
      && Keeps(wanted, known, known')
  {
    ChunksPartition(ops, BATCH_SIZE);
    known' := ChunksGap(hook, rpc, Chunks(ops, BATCH_SIZE), 0, rest, wanted, known, Tally(store, 0, 0), opts, answered);
  }

  // ----- a whole apply

  /** The three writes of apply, in order, each run whatever became of the earlier ones. */
  datatype Applied = Applied(created: Tally, updated: Tally, deleted: Tally) {
    function Store(): seq<Entry> {
      deleted.store
    }

    function Count(): nat {
      created.count + updated.count + deleted.count
    }

    function Errors(): nat {
      created.errors + updated.errors + deleted.errors
    }
  }

  /** The fates of the calls of the three writes. */
  datatype Network = Network(creates: Transport, updates: Transport, deletes: Transport)

  function Apply(hook: Hook, net: Network, plan: Plan, store: seq<Entry>): Applied {
    var created := Written(hook, net.creates, Creating(plan.create), store);
    var updated := Written(hook, net.updates, Updating(plan.update), created.store);
    var deleted := Written(hook, net.deletes, Deleting(plan.delete), updated.store);
    Applied(created, updated, deleted)
  }

  /** The generator's ids from drawn on are new to the store and never repeat. */
  ghost predicate FreshIDs(store: seq<Entry>, opts: Options, drawn: nat) {
    && (forall m: nat, n: nat | drawn <= m < n :: opts.newID(m) != opts.newID(n))
    && (forall n: nat | drawn <= n :: opts.className + "." + opts.newID(n) !in IDs(store))
  }

  /** The planner and the client use one ownership rule, the one every planned entry satisfies. */
  ghost predicate OwnRule(opts: Options) {
    opts.owns == Marked(opts.className + ".", opts.hint)
  }

  /** With every call answered, everything is counted exactly when the hook lets everything through. */
  lemma WrittenCount(
    hook: Hook, rpc: Transport, ops: seq<Op>, rest: seq<Op>,
    wanted: map<string, Desired>, known: map<string, Entry>, store: seq<Entry>, opts: Options)
    requires Index(store, known, opts) && Batch(ops + rest, wanted, known, store, opts)
    requires Truthful(hook)
    requires forall n: nat :: rpc(n).Delivered?
    ensures Written(hook, rpc, ops, store).count <= |ops|
    ensures Admits(hook, store, ops) <==> Written(hook, rpc, ops, store).count == |ops|
  {
    BatchingTransparent(hook, rpc, ops, BATCH_SIZE, 0, Tally(store, 0, 0));
    var _ := TallyGap(hook, ops, rest, wanted, known, Tally(store, 0, 0), opts);
  }

  // ----- the items of a plan

  lemma {:induction false} BatchFrom(
    ops: seq<Op>, wanted: map<string, Desired>, known: map<string, Entry>, store: seq<Entry>, opts: Options)
    requires forall op | op in ops :: Useful(op, wanted, known, store, opts)
    requires forall i, j | 0 <= i < j < |ops| :: Apart(ops[i], ops[j], opts)
    ensures Batch(ops, wanted, known, store, opts)
    decreases |ops|
  {
    if ops != [] {
      assert ops[0] in ops;
      assert forall op | op in ops[1..] :: op in ops;
      BatchFrom(ops[1..], wanted, known, store, opts);
    }
  }

  lemma {:induction false} BatchConcat(
    xs: seq<Op>, ys: seq<Op>, kind: Kind,
    wanted: map<string, Desired>, known: map<string, Entry>, store: seq<Entry>, opts: Options)
    requires Batch(xs, wanted, known, store, opts) && Batch(ys, wanted, known, store, opts)
    requires forall x | x in xs :: KindOf(x) == kind
    requires forall y | y in ys :: KindOf(y) != kind
    ensures Batch(xs + ys, wanted, known, store, opts)
    decreases |xs|
  {
    if xs == [] {
      assert xs + ys == ys;
    } else {
      assert (xs + ys)[1..] == xs[1..] + ys;
      BatchConcat(xs[1..], ys, kind, wanted, known, store, opts);
      assert KindOf(xs[0]) == kind;
      forall other | other in (xs + ys)[1..] ensures Apart(xs[0], other, opts) {
        assert other in xs[1..] || other in ys;
      }
    }
  }

  lemma {:induction false} ImageCount(keys: set<string>, known: map<string, Entry>)
    requires keys <= known.Keys
    requires forall k, l | k in keys && l in keys && known[k].id == known[l].id :: k == l
    ensures |set k | k in keys :: known[k].id| == |keys|
  {
    if keys != {} {
      var k :| k in keys;
      ImageCount(keys - {k}, known);
      assert (set l | l in keys :: known[l].id) == (set l | l in keys - {k} :: known[l].id) + {known[k].id};
    }
  }

  lemma SetCons(s: seq<string>)
    requires s != []
    ensures (set x | x in s) == (set x | x in s[1..]) + {s[0]}
  {
    assert s == [s[0]] + s[1..];
  }

  lemma {:induction false} SetCount(s: seq<string>)
    ensures |set x | x in s| <= |s|
    ensures |set x | x in s| == |s| ==> forall i, j | 0 <= i < j < |s| :: s[i] != s[j]
  {
    if s != [] {
      SetCount(s[1..]);
      SetCons(s);
      forall i, j | |set x | x in s| == |s| && 0 <= i < j < |s| ensures s[i] != s[j] {
        if i == 0 { assert s[j] in s[1..]; } else { assert s[i] == s[1..][i - 1] && s[j] == s[1..][j - 1]; }
      }
    }
  }

  lemma KnownIDsDistinct(known: map<string, Entry>, store: seq<Entry>, opts: Options, k: string, l: string)
    requires Index(store, known, opts) && k in known && l in known && known[k].id == known[l].id
    ensures k == l
  {
    KnownInStore(store, known, opts, k);
    KnownInStore(store, known, opts, l);
    SameID(store, known[k], known[l]);
  }

  /** As many ids as keys, all of them ids of those keys: no id comes twice. */
  lemma DeletesDistinct(
    ids: seq<string>, keys: set<string>, known: map<string, Entry>, store: seq<Entry>, opts: Options)
    requires Index(store, known, opts) && keys <= known.Keys
    requires |ids| == |keys|
    requires forall id :: id in ids <==> exists k | k in keys :: known[k].id == id
    ensures forall i, j | 0 <= i < j < |ids| :: ids[i] != ids[j]
  {
    forall k, l | k in keys && l in keys && known[k].id == known[l].id ensures k == l {
      KnownIDsDistinct(known, store, opts, k, l);
    }
    ImageCount(keys, known);
    assert (set x | x in ids) == (set k | k in keys :: known[k].id);
    SetCount(ids);
  }

  lemma DrawnDistinct(opts: Options, drawn: nat, store: seq<Entry>, m: nat, n: nat)
    requires FreshIDs(store, opts, drawn) && drawn <= m < n
    ensures opts.className + "." + opts.newID(m) != opts.className + "." + opts.newID(n)
  {
    var x, y := opts.className + "." + opts.newID(m), opts.className + "." + opts.newID(n);
    var k := |opts.className| + 1;
    assert x[k..] == opts.newID(m) && y[k..] == opts.newID(n);
  }

  /** Entries that carry the ownership marks and ids that are new and different. */
  ghost predicate Minted(created: seq<Entry>, store: seq<Entry>, opts: Options) {
    && (forall e | e in created :: opts.owns.Owns(e) && e.id !in IDs(store))
    && (forall i, j | 0 <= i < j < |created| :: created[i].id != created[j].id)
  }

  lemma CreatesMinted(records: seq<Desired>, known: map<string, Entry>, store: seq<Entry>, opts: Options, drawn: nat)
    requires OwnRule(opts) && FreshIDs(store, opts, drawn)
    requires forall e | e in Creates(records, known, opts, drawn) :: e.hint == opts.hint
    ensures Minted(Creates(records, known, opts, drawn), store, opts)
  {
    var created := Creates(records, known, opts, drawn);
    forall e | e in created ensures opts.owns.Owns(e) && e.id !in IDs(store) {
      var i :| 0 <= i < |created| && created[i] == e;
      CreateIDs(records, known, opts, drawn, i);
    }
    forall i, j | 0 <= i < j < |created| ensures created[i].id != created[j].id {
      CreateIDs(records, known, opts, drawn, i);
      CreateIDs(records, known, opts, drawn, j);
      DrawnDistinct(opts, drawn, store, drawn + i, drawn + j);
    }
  }

  lemma CreateItems(
    plan: Plan, wanted: map<string, Desired>, known: map<string, Entry>, store: seq<Entry>, opts: Options)
    requires Faithful(plan, wanted, known, opts) && Minted(plan.create, store, opts)
    ensures Batch(Creating(plan.create), wanted, known, store, opts)
  {
    var ops := Creating(plan.create);
    forall op | op in ops ensures Useful(op, wanted, known, store, opts) {
      var i :| 0 <= i < |ops| && ops[i] == op;
      assert plan.create[i] in plan.create;
    }
    BatchFrom(ops, wanted, known, store, opts);
  }

  lemma UpdateItems(
    plan: Plan, wanted: map<string, Desired>, known: map<string, Entry>, store: seq<Entry>, opts: Options)
    requires OwnRule(opts) && Index(store, known, opts) && Faithful(plan, wanted, known, opts)
    ensures Batch(Updating(plan.update), wanted, known, store, opts)
  {
    var ops := Updating(plan.update);
    forall op | op in ops ensures Useful(op, wanted, known, store, opts) {
      var i :| 0 <= i < |ops| && ops[i] == op;
      assert plan.update[i] in plan.update;
      KnownInStore(store, known, opts, opts.EntryKey(plan.update[i]));
    }
    BatchFrom(ops, wanted, known, store, opts);
  }

  lemma DeleteItems(
    plan: Plan, wanted: map<string, Desired>, known: map<string, Entry>, store: seq<Entry>, opts: Options)
    requires Index(store, known, opts) && Faithful(plan, wanted, known, opts)
    ensures Batch(Deleting(plan.delete), wanted, known, store, opts)
  {
    var ops := Deleting(plan.delete);
    DeletesDistinct(plan.delete, known.Keys - wanted.Keys, known, store, opts);
    forall op | op in ops ensures Useful(op, wanted, known, store, opts) {
      var i :| 0 <= i < |ops| && ops[i] == op;
      assert plan.delete[i] in plan.delete;
    }
    BatchFrom(ops, wanted, known, store, opts);
  }

  function PlanOps(plan: Plan): seq<Op> {
    Creating(plan.create) + (Updating(plan.update) + Deleting(plan.delete))
  }

  lemma PartKinds(plan: Plan)
    ensures forall op | op in Creating(plan.create) :: KindOf(op) == CreateKind
    ensures forall op | op in Updating(plan.update) :: KindOf(op) == UpdateKind
    ensures forall op | op in Deleting(plan.delete) :: KindOf(op) == DeleteKind
    ensures forall op | op in Updating(plan.update) + Deleting(plan.delete) :: KindOf(op) != CreateKind
  {
  }

  lemma JoinBatch(plan: Plan, wanted: map<string, Desired>, known: map<string, Entry>, store: seq<Entry>, opts: Options)
    requires Batch(Creating(plan.create), wanted, known, store, opts)
    requires Batch(Updating(plan.update), wanted, known, store, opts)
    requires Batch(Deleting(plan.delete), wanted, known, store, opts)
    ensures Batch(PlanOps(plan), wanted, known, store, opts)
  {
    PartKinds(plan);
    BatchConcat(Updating(plan.update), Deleting(plan.delete), UpdateKind, wanted, known, store, opts);
    BatchConcat(
      Creating(plan.create), Updating(plan.update) + Deleting(plan.delete), CreateKind, wanted, known, store, opts);
  }

  lemma FaithfulBatch(
    plan: Plan, wanted: map<string, Desired>, known: map<string, Entry>, store: seq<Entry>, opts: Options)
    requires OwnRule(opts) && Index(store, known, opts)
    requires Faithful(plan, wanted, known, opts) && Minted(plan.create, store, opts)
    ensures Batch(PlanOps(plan), wanted, known, store, opts)
  {
    CreateItems(plan, wanted, known, store, opts);
    UpdateItems(plan, wanted, known, store, opts);
    DeleteItems(plan, wanted, known, store, opts);
    JoinBatch(plan, wanted, known, store, opts);
  }

  /** The items of a plan made from an accurate listing are all useful and pairwise apart. */
  lemma PlanBatch(desired: seq<Desired>, existing: seq<Entry>, store: seq<Entry>, opts: Options, drawn: nat)
    requires UniqueIDs(store) && KeyUnique(store, opts) && OwnRule(opts) && FreshIDs(store, opts, drawn)
    requires existing == Owned(store, opts.owns)
    ensures Index(store, ByKey(existing, opts), opts)
    ensures Minted(DiffPlan(desired, existing, opts, drawn).create, store, opts)
    ensures var plan := DiffPlan(desired, existing, opts, drawn);
      Batch(PlanOps(plan), Wanted(desired, opts), ByKey(existing, opts), store, opts)
  {
    ListingIndex(store, opts);
    PlanMeaning(desired, existing, opts, drawn);
    CreatesMinted(Firsts(desired, {}, opts), ByKey(existing, opts), store, opts, drawn);
    FaithfulBatch(DiffPlan(desired, existing, opts, drawn), Wanted(desired, opts), ByKey(existing, opts), store, opts);
  }
}
