/** One reconcile from an accurate listing: progress under any failures, convergence, and the fixed point. */
module Convergence {
  import opened Entries
  import opened Reconcile
  import opened Plans
  import opened EntryServer
  import opened EntryClient
  import opened Stores
  import opened Progress

  /** Every call of every write is answered. */
  ghost predicate Answered(net: Network) {
    && (forall n: nat :: net.creates(n).Delivered?)
    && (forall n: nat :: net.updates(n).Delivered?)
    && (forall n: nat :: net.deletes(n).Delivered?)
  }

  /** What a reconcile needs of the store it lists accurately. */
  ghost predicate Settled(store: seq<Entry>, opts: Options, drawn: nat) {
    UniqueIDs(store) && KeyUnique(store, opts) && OwnRule(opts) && FreshIDs(store, opts, drawn)
  }

  /** What is left of the gap after some writes, and how much of it they have counted. */
  ghost predicate Narrowed(
    wanted: map<string, Desired>, start: map<string, Entry>, known: map<string, Entry>, count: nat, exact: bool)
  {
    && Gap(wanted, known) + count <= Gap(wanted, start)
    && (exact ==> Gap(wanted, known) + count == Gap(wanted, start))
    && Keeps(wanted, start, known)
  }

  /** One write more: the counts add up and nothing wanted is lost. */
  lemma WriteGap(
    hook: Hook, rpc: Transport, ops: seq<Op>, rest: seq<Op>, t: Tally, before: nat,
    wanted: map<string, Desired>, start: map<string, Entry>, known: map<string, Entry>, store: seq<Entry>,
    opts: Options, answered: bool)
    returns (known': map<string, Entry>)
    requires Index(store, known, opts) && Batch(ops + rest, wanted, known, store, opts)
    requires Truthful(hook) && (answered ==> forall n: nat :: rpc(n).Delivered?)
    requires t == Written(hook, rpc, ops, store) && Narrowed(wanted, start, known, before, answered)
    ensures Index(t.store, known', opts) && Batch(rest, wanted, known', t.store, opts)
    ensures Narrowed(wanted, start, known', before + t.count, answered)
  {
    known' := WrittenGap(hook, rpc, ops, rest, wanted, known, store, opts, answered);
    KeepsTransitive(wanted, start, known, known');
  }

  /** The last write, with nothing after it. */
  lemma LastGap(
    hook: Hook, rpc: Transport, ops: seq<Op>, t: Tally, before: nat,
    wanted: map<string, Desired>, start: map<string, Entry>, known: map<string, Entry>, store: seq<Entry>,
    opts: Options, answered: bool)
    returns (known': map<string, Entry>)
    requires Index(store, known, opts) && Batch(ops, wanted, known, store, opts)
    requires Truthful(hook) && (answered ==> forall n: nat :: rpc(n).Delivered?)
    requires t == Written(hook, rpc, ops, store) && Narrowed(wanted, start, known, before, answered)
    ensures Index(t.store, known', opts) && Narrowed(wanted, start, known', before + t.count, answered)
  {
    assert ops + [] == ops;
    known' := WriteGap(hook, rpc, ops, [], t, before, wanted, start, known, store, opts, answered);
  }

  lemma ThreeWrites(
    hook: Hook, net: Network, plan: Plan, store: seq<Entry>, r: Applied,
    wanted: map<string, Desired>, start: map<string, Entry>, opts: Options, answered: bool)
    returns (known: map<string, Entry>)
    requires Index(store, start, opts) && Batch(PlanOps(plan), wanted, start, store, opts)
    requires Truthful(hook) && (answered ==> Answered(net))
    requires r == Apply(hook, net, plan, store)
    ensures Index(r.deleted.store, known, opts) && Narrowed(wanted, start, known, r.Count(), answered)
  {
    var creates, updates, deletes := Creating(plan.create), Updating(plan.update), Deleting(plan.delete);
    var known1 := WriteGap(
      hook, net.creates, creates, updates + deletes, r.created, 0, wanted, start, start, store, opts, answered);
    var known2 := WriteGap(
      hook, net.updates, updates, deletes, r.updated, r.created.count, wanted, start, known1, r.created.store,
      opts, answered);
    known := LastGap(
      hook, net.deletes, deletes, r.deleted, r.created.count + r.updated.count, wanted, start, known2, r.updated.store,
      opts, answered);
  }

  lemma ApplyGap(
    hook: Hook, net: Network, plan: Plan, store: seq<Entry>,
    wanted: map<string, Desired>, known: map<string, Entry>, opts: Options, answered: bool)
    returns (known': map<string, Entry>)
    requires Index(store, known, opts) && Batch(PlanOps(plan), wanted, known, store, opts)
    requires Truthful(hook) && (answered ==> Answered(net))
    ensures var r := Apply(hook, net, plan, store);
      && Index(r.Store(), known', opts)
      && Gap(wanted, known') + r.Count() <= Gap(wanted, known)
      && (answered ==> Gap(wanted, known') + r.Count() == Gap(wanted, known))
      && Keeps(wanted, known, known')
  {
    known' := ThreeWrites(hook, net, plan, store, Apply(hook, net, plan, store), wanted, known, opts, answered);
  }

  lemma IndexDistance(desired: seq<Desired>, store: seq<Entry>, known: map<string, Entry>, opts: Options)
    requires Index(store, known, opts)
    ensures KeyUnique(store, opts) && ByKey(Owned(store, opts.owns), opts) == known
    ensures Distance(desired, store, opts) == Gap(Wanted(desired, opts), known)
  {
    IndexKeyUnique(store, known, opts);
    ListingIndex(store, opts);
    IndexUnique(store, known, ByKey(Owned(store, opts.owns), opts), opts);
  }

  /**
   * Progress under failure. Whatever the hook refuses, and whichever calls are lost before or after
   * taking effect, the distance never rises and falls by at least the sum of the three counts; by exactly
   * that sum when every call is answered. Unique ids and unique owned keys survive.
   */
  lemma ProgressUnderFailure(
    desired: seq<Desired>, store: seq<Entry>, opts: Options, drawn: nat, hook: Hook, net: Network)
    requires Settled(store, opts, drawn) && Truthful(hook)
    ensures var r := Apply(hook, net, DiffPlan(desired, Owned(store, opts.owns), opts, drawn), store);
      && UniqueIDs(r.Store()) && KeyUnique(r.Store(), opts)
      && Distance(desired, r.Store(), opts) + r.Count() <= Distance(desired, store, opts)
      && (Answered(net) ==> Distance(desired, r.Store(), opts) + r.Count() == Distance(desired, store, opts))
  {
    var known := ReconcileKnown(desired, store, opts, drawn, hook, net);
  }

  /** The index after a reconcile, with all that is known of it. */
  lemma ReconcileKnown(desired: seq<Desired>, store: seq<Entry>, opts: Options, drawn: nat, hook: Hook, net: Network)
    returns (known: map<string, Entry>)
    requires Settled(store, opts, drawn) && Truthful(hook)
    ensures var r := Apply(hook, net, DiffPlan(desired, Owned(store, opts.owns), opts, drawn), store);
      && Index(r.Store(), known, opts)
      && KeyUnique(r.Store(), opts)
      && ByKey(Owned(r.Store(), opts.owns), opts) == known
      && Distance(desired, r.Store(), opts) + r.Count() <= Distance(desired, store, opts)
      && (Answered(net) ==> Distance(desired, r.Store(), opts) + r.Count() == Distance(desired, store, opts))
      && Keeps(Wanted(desired, opts), ByKey(Owned(store, opts.owns), opts), known)
  {
    var existing := Owned(store, opts.owns);
    var plan, wanted, before := DiffPlan(desired, existing, opts, drawn), Wanted(desired, opts), ByKey(existing, opts);
    PlanBatch(desired, existing, store, opts, drawn);
    known := ApplyGap(hook, net, plan, store, wanted, before, opts, Answered(net));
    IndexDistance(desired, Apply(hook, net, plan, store).Store(), known, opts);
  }

  // ----- convergence

  /** The server holds what is wanted, entry for entry. */
  ghost predicate Converged(desired: seq<Desired>, store: seq<Entry>, opts: Options) {
    var owned, firsts := Owned(store, opts.owns), Firsts(desired, {}, opts);
    && UniqueIDs(store) && KeyUnique(store, opts)
    && |owned| == |firsts|
    && (forall d {:trigger HasEntry(owned, d, opts)} | d in firsts :: HasEntry(owned, d, opts))
    && (forall e {:trigger HasRecord(firsts, e, opts)} | e in owned :: HasRecord(firsts, e, opts))
  }

  ghost predicate HasEntry(owned: seq<Entry>, d: Desired, opts: Options) {
    exists e | e in owned :: Matches(e, d, opts)
  }

  ghost predicate HasRecord(records: seq<Desired>, e: Entry, opts: Options) {
    exists d | d in records :: Matches(e, d, opts)
  }

  /** Same key, SPIFFE ID and TTLs; the hint is the owner's. */
  predicate Matches(e: Entry, d: Desired, opts: Options) {
    opts.EntryKey(e) == opts.DesiredKey(d) && !Drifted(d, e) && e.hint == opts.hint
  }

  /** In terms of the entry itself, for the key function in use and well-shaped ids. */
  lemma MatchesExactly(e: Entry, d: Desired, opts: Options)
    requires forall p, s :: opts.key(p, s) == Key(p, s)
    requires Readable(e.parentID, e.selectors) && Readable(d.parentID, d.selectors)
    requires Shaped(e.spiffeID) && Shaped(d.spiffeID)
    ensures Matches(e, d, opts) <==>
      && e.parentID == d.parentID && multiset(e.selectors) == multiset(d.selectors)
      && e.spiffeID == d.spiffeID && e.x509TTL == d.x509TTL && e.jwtTTL == d.jwtTTL
      && e.hint == opts.hint
  {
    KeyCanonical(e.parentID, e.selectors, d.parentID, d.selectors);
    if IDString(d.spiffeID) == IDString(e.spiffeID) { IDStringInjective(d.spiffeID, e.spiffeID); }
  }

  lemma {:induction false} RecordCount(records: seq<Desired>, opts: Options)
    requires DistinctRecords(records, opts)
    ensures |records| == |DesiredKeys(records, opts)|
  {
    if records != [] {
      var d, rest := records[0], records[1..];
      RecordCount(rest, opts);
      assert records == [d] + rest;
      assert DesiredKeys(records, opts) == {opts.DesiredKey(d)} + DesiredKeys(rest, opts);
    }
  }

  lemma {:induction false} OwnedDistinct(store: seq<Entry>, opts: Options)
    requires UniqueIDs(store) && KeyUnique(store, opts)
    ensures DistinctKeys(Owned(store, opts.owns), opts)
  {
    if store != [] {
      var e, rest := store[0], store[1..];
      assert store == [e] + rest;
      OwnedDistinct(rest, opts);
      OwnedMembers(rest, opts.owns);
      if opts.owns.Owns(e) {
        var later := Owned(rest, opts.owns);
        forall i | 0 <= i < |later| ensures opts.EntryKey(later[i]) != opts.EntryKey(e) {
          assert later[i] in rest;
          assert later[i] in store && e in store;
        }
      }
    }
  }

  lemma OwnedCount(store: seq<Entry>, opts: Options)
    requires UniqueIDs(store) && KeyUnique(store, opts)
    ensures |Owned(store, opts.owns)| == |ByKey(Owned(store, opts.owns), opts)|
  {
    var owned := Owned(store, opts.owns);
    OwnedDistinct(store, opts);
    DistinctCount(owned, opts);
    ListingIndex(store, opts);
    OwnedMembers(store, opts.owns);
    var known := ByKey(owned, opts);
    assert EntryKeys(owned, opts) == known.Keys by {
      forall k | k in known ensures k in EntryKeys(owned, opts) {
        KnownInStore(store, known, opts, k);
        assert known[k] in owned;
      }
    }
  }

  /** Distance zero is convergence. */
  lemma ZeroDistanceConverged(desired: seq<Desired>, store: seq<Entry>, opts: Options)
    requires UniqueIDs(store) && KeyUnique(store, opts) && OwnRule(opts)
    requires Distance(desired, store, opts) == 0
    ensures Converged(desired, store, opts)
  {
    var owned, firsts := Owned(store, opts.owns), Firsts(desired, {}, opts);
    var wanted, known := Wanted(desired, opts), ByKey(owned, opts);
    ListingIndex(store, opts);
    OwnedMembers(store, opts.owns);
    FirstsFacts(desired, {}, opts);
    ZeroGap(wanted, known);
    OwnedCount(store, opts);
    RecordCount(firsts, opts);
    assert DesiredKeys(firsts, opts) == wanted.Keys by {
      forall k | k in wanted ensures k in DesiredKeys(firsts, opts) {
        assert wanted[k] in firsts;
      }
    }
    forall d | d in firsts ensures HasEntry(owned, d, opts) {
      var k := opts.DesiredKey(d);
      KnownInStore(store, known, opts, k);
      assert known[k] in owned && Matches(known[k], d, opts);
    }
    forall e | e in owned ensures HasRecord(firsts, e, opts) {
      var k := opts.EntryKey(e);
      assert wanted[k] in firsts && Matches(e, wanted[k], opts);
    }
  }

  lemma ZeroGap(wanted: map<string, Desired>, known: map<string, Entry>)
    requires Gap(wanted, known) == 0
    ensures wanted.Keys == known.Keys
    ensures forall k | k in wanted :: !Drifted(wanted[k], known[k])
  {
    assert wanted.Keys - known.Keys == {};
    assert known.Keys - wanted.Keys == {};
    assert DriftedKeys(wanted, known) == {};
    forall k | k in wanted ensures k in known && !Drifted(wanted[k], known[k]) {
      assert k !in wanted.Keys - known.Keys;
      assert k !in DriftedKeys(wanted, known);
    }
    forall k | k in known ensures k in wanted {
      assert k !in known.Keys - wanted.Keys;
    }
  }

  // ----- the real server: the exact condition for a fixed point

  /** Reordering selectors does not change a key; true of the key function in use. */
  ghost predicate OrderBlind(key: KeyFunction) {
    forall p, s, t | multiset(s) == multiset(t) :: key(p, s) == key(p, t)
  }

  /** The entry has the SPIFFE ID, the parent and the selectors of the other, in whatever order. */
  predicate Covers(x: Entry, e: Entry) {
    x.spiffeID == e.spiffeID && x.parentID == e.parentID && multiset(x.selectors) == multiset(e.selectors)
  }

  /** No entry of the store has the identity of one about to be created. */
  ghost predicate NoCollision(store: seq<Entry>, created: seq<Entry>) {
    forall e, c | e in store && c in created :: !Covers(e, c)
  }

  lemma {:induction false} FindIdentityFacts(store: seq<Entry>, e: Entry)
    ensures FindIdentity(store, e) < |store| <==> exists x | x in store :: Covers(x, e)
  {
    if store != [] {
      assert store == [store[0]] + store[1..];
      assert store[0] in store;
      if !SameIdentity(store[0], e) {
        FindIdentityFacts(store[1..], e);
      }
    }
  }

  lemma {:induction false} FindIdentityFirst(store: seq<Entry>, e: Entry)
    ensures var i := FindIdentity(store, e); i < |store| ==> Covers(store[i], e)
  {
    if store != [] && !SameIdentity(store[0], e) { FindIdentityFirst(store[1..], e); }
  }

  /**
   * The contract lets a create through exactly when no entry covers its identity and its id is free. It answers
   * AlreadyExists otherwise, with an entry that covers the identity if there is one.
   */
  lemma ContractCreate(store: seq<Entry>, e: Entry)
    ensures var r := ContractHook(store, Create(e));
      && (r.None? <==> e.id !in IDs(store) && forall x | x in store :: !Covers(x, e))
      && (r.Some? ==> r.value.code == AlreadyExists)
      && (r.Some? ==> (r.value.entry.None? <==> forall x | x in store :: !Covers(x, e)))
      && (r.Some? && r.value.entry.Some? ==> r.value.entry.value in store && Covers(r.value.entry.value, e))
  {
    FindIdentityFacts(store, e);
    FindIdentityFirst(store, e);
    FindFacts(store, e.id);
  }

  /** With a new id only a covering entry is in the way. */
  lemma ContractFresh(store: seq<Entry>, e: Entry)
    requires e.id !in IDs(store)
    ensures ContractHook(store, Create(e)).None? <==> forall x | x in store :: !Covers(x, e)
  {
    ContractCreate(store, e);
  }

  ghost predicate DistinctIdentities(created: seq<Entry>) {
    forall i, j | 0 <= i < j < |created| :: !Covers(created[i], created[j])
  }

  lemma {:induction false} ContractAdmitsCreates(store: seq<Entry>, created: seq<Entry>)
    requires forall e | e in created :: e.id !in IDs(store)
    requires forall i, j | 0 <= i < j < |created| :: created[i].id != created[j].id
    requires DistinctIdentities(created)
    ensures Admits(ContractHook, store, Creating(created)) <==> NoCollision(store, created)
    decreases |created|
  {
    var ops := Creating(created);
    if created != [] {
      var e, rest := created[0], created[1..];
      assert created == [e] + rest;
      assert ops[1..] == Creating(rest);
      ContractFresh(store, e);
      if ContractHook(store, Create(e)).None? {
        var after := store + [e];
        assert IDs(after) == IDs(store) + {e.id};
        ContractAdmitsCreates(after, rest);
        RestCollision(store, e, rest);
      }
    }
  }

  lemma RestCollision(store: seq<Entry>, e: Entry, rest: seq<Entry>)
    requires DistinctIdentities([e] + rest)
    requires forall x | x in store :: !Covers(x, e)
    ensures NoCollision(store + [e], rest) <==> NoCollision(store, [e] + rest)
  {
    var all := [e] + rest;
    forall c | c in rest ensures !Covers(e, c) {
      var i :| 0 <= i < |rest| && rest[i] == c;
      assert all[i + 1] == c && all[0] == e;
    }
    if NoCollision(store, all) {
      forall x, c | x in store + [e] && c in rest ensures !Covers(x, c) {
        assert c in all;
      }
    }
    if NoCollision(store + [e], rest) {
      forall x, c | x in store && c in all ensures !Covers(x, c) {
        assert x in store + [e];
      }
    }
  }

  lemma {:induction false} ContractAdmitsOthers(store: seq<Entry>, ops: seq<Op>)
    requires forall op | op in ops :: !op.Create?
    ensures Admits(ContractHook, store, ops)
    decreases |ops|
  {
    if ops != [] {
      assert ops[0] in ops;
      ContractAdmitsOthers(Item(ContractHook, store, ops[0]).0, ops[1..]);
    }
  }

  lemma ContractTruthful()
    ensures Truthful(ContractHook)
  {
  }

  lemma DistinctKeysIdentities(created: seq<Entry>, opts: Options)
    requires OrderBlind(opts.key) && DistinctKeys(created, opts)
    ensures DistinctIdentities(created)
  {
  }

  /** With every call answered, everything is counted exactly when the hook lets all three writes through. */
  lemma ApplyCount(
    hook: Hook, plan: Plan, net: Network, store: seq<Entry>, wanted: map<string, Desired>, known: map<string, Entry>,
    opts: Options)
    requires Index(store, known, opts) && Batch(PlanOps(plan), wanted, known, store, opts)
    requires Truthful(hook) && Answered(net)
    ensures var r := Apply(hook, net, plan, store);
      r.Count() == |plan.create| + |plan.update| + |plan.delete| <==>
        && Admits(hook, store, Creating(plan.create))
        && Admits(hook, r.created.store, Updating(plan.update))
        && Admits(hook, r.updated.store, Deleting(plan.delete))
  {
    var creates, updates, deletes := Creating(plan.create), Updating(plan.update), Deleting(plan.delete);
    var r := Apply(hook, net, plan, store);
    var known1 := WrittenExact(hook, net.creates, creates, updates + deletes, r.created, wanted, known, store, opts);
    var known2 := WrittenExact(hook, net.updates, updates, deletes, r.updated, wanted, known1, r.created.store, opts);
    assert deletes + [] == deletes;
    var _ := WrittenExact(hook, net.deletes, deletes, [], r.deleted, wanted, known2, r.updated.store, opts);
  }

  lemma WrittenExact(
    hook: Hook, rpc: Transport, ops: seq<Op>, rest: seq<Op>, t: Tally,
    wanted: map<string, Desired>, known: map<string, Entry>, store: seq<Entry>, opts: Options)
    returns (known': map<string, Entry>)
    requires Index(store, known, opts) && Batch(ops + rest, wanted, known, store, opts)
    requires Truthful(hook) && t == Written(hook, rpc, ops, store)
    requires forall n: nat :: rpc(n).Delivered?
    ensures Index(t.store, known', opts) && Batch(rest, wanted, known', t.store, opts)
    ensures t.count <= |ops|
    ensures Admits(hook, store, ops) <==> t.count == |ops|
  {
    WrittenCount(hook, rpc, ops, rest, wanted, known, store, opts);
    known' := WrittenGap(hook, rpc, ops, rest, wanted, known, store, opts, true);
  }

  /** The real server lets updates and deletes through, and creates exactly without collisions. */
  lemma ContractAdmits(plan: Plan, net: Network, store: seq<Entry>, opts: Options)
    requires Minted(plan.create, store, opts) && DistinctKeys(plan.create, opts) && OrderBlind(opts.key)
    ensures var r := Apply(ContractHook, net, plan, store);
      && (Admits(ContractHook, store, Creating(plan.create)) <==> NoCollision(store, plan.create))
      && Admits(ContractHook, r.created.store, Updating(plan.update))
      && Admits(ContractHook, r.updated.store, Deleting(plan.delete))
  {
    DistinctKeysIdentities(plan.create, opts);
    ContractAdmitsCreates(store, plan.create);
    var r := Apply(ContractHook, net, plan, store);
    ContractAdmitsOthers(r.created.store, Updating(plan.update));
    ContractAdmitsOthers(r.updated.store, Deleting(plan.delete));
  }

  /** Against the real server, with every call answered, everything is counted exactly without collisions. */
  lemma ContractCount(
    plan: Plan, net: Network, store: seq<Entry>, wanted: map<string, Desired>, known: map<string, Entry>, opts: Options)
    requires Index(store, known, opts) && Batch(PlanOps(plan), wanted, known, store, opts) && Answered(net)
    requires Minted(plan.create, store, opts) && DistinctKeys(plan.create, opts) && OrderBlind(opts.key)
    ensures Apply(ContractHook, net, plan, store).Count() == |plan.create| + |plan.update| + |plan.delete|
      <==> NoCollision(store, plan.create)
  {
    ContractTruthful();
    ContractAdmits(plan, net, store, opts);
    ApplyCount(ContractHook, plan, net, store, wanted, known, opts);
  }

  /**
   * The fixed point, exactly. Against the real server with every call answered, the plan of the next
   * reconcile, made from the listing that follows the writes, is empty if and only if no entry on the server
   * already covered an identity about to be created; and then the server holds what is wanted.
   */
  lemma FixedPoint(desired: seq<Desired>, store: seq<Entry>, opts: Options, drawn: nat, later: nat, net: Network)
    requires Settled(store, opts, drawn) && Answered(net) && OrderBlind(opts.key)
    ensures var plan := DiffPlan(desired, Owned(store, opts.owns), opts, drawn);
      var after := Apply(ContractHook, net, plan, store).Store();
      && (DiffPlan(desired, Owned(after, opts.owns), opts, later).Empty() <==> NoCollision(store, plan.create))
      && (NoCollision(store, plan.create) <==> Converged(desired, after, opts))
  {
    var existing := Owned(store, opts.owns);
    var plan := DiffPlan(desired, existing, opts, drawn);
    ContractTruthful();
    PlanBatch(desired, existing, store, opts, drawn);
    PlanMeaning(desired, existing, opts, drawn);
    PlanSize(desired, existing, opts, drawn);
    ContractCount(plan, net, store, Wanted(desired, opts), ByKey(existing, opts), opts);
    var known := ReconcileKnown(desired, store, opts, drawn, ContractHook, net);
    var after := Apply(ContractHook, net, plan, store).Store();
    PlanSize(desired, Owned(after, opts.owns), opts, later);
    ConvergedDistance(desired, after, opts);
  }

  /** Convergence is distance zero. */
  lemma ConvergedDistance(desired: seq<Desired>, store: seq<Entry>, opts: Options)
    requires UniqueIDs(store) && KeyUnique(store, opts) && OwnRule(opts)
    ensures Converged(desired, store, opts) <==> Distance(desired, store, opts) == 0
  {
    if Distance(desired, store, opts) == 0 {
      ZeroDistanceConverged(desired, store, opts);
    }
    if Converged(desired, store, opts) {
      var owned, firsts := Owned(store, opts.owns), Firsts(desired, {}, opts);
      var wanted, known := Wanted(desired, opts), ByKey(owned, opts);
      ListingIndex(store, opts);
      OwnedMembers(store, opts.owns);
      FirstsFacts(desired, {}, opts);
      forall k | k in wanted ensures k in known && !Drifted(wanted[k], known[k]) {
        assert HasEntry(owned, wanted[k], opts);
        var e :| e in owned && Matches(e, wanted[k], opts);
      }
      forall k | k in known ensures k in wanted {
        KnownInStore(store, known, opts, k);
        assert HasRecord(firsts, known[k], opts);
        var d :| d in firsts && Matches(known[k], d, opts);
      }
      assert wanted.Keys - known.Keys == {} && known.Keys - wanted.Keys == {};
      assert DriftedKeys(wanted, known) == {};
    }
  }

  lemma KeyOrderBlind()
    ensures OrderBlind(Key)
  {
    forall p, s, t | multiset(s) == multiset(t) ensures Key(p, s) == Key(p, t) {
      KeyIgnoresOrder(p, s, t);
    }
  }

  // ----- what a reconcile leaves alone

  /** An update in place never changes an id: every owned entry with a wanted key is still there under its id. */
  lemma MatchedKeepIDs(
    desired: seq<Desired>, store: seq<Entry>, opts: Options, drawn: nat, hook: Hook, net: Network, e: Entry)
    requires Settled(store, opts, drawn) && Truthful(hook)
    requires e in store && opts.owns.Owns(e) && opts.EntryKey(e) in Wanted(desired, opts)
    ensures var after := Apply(hook, net, DiffPlan(desired, Owned(store, opts.owns), opts, drawn), store).Store();
      exists x | x in after :: x.id == e.id && opts.owns.Owns(x) && opts.EntryKey(x) == opts.EntryKey(e)
  {
    var after := Apply(hook, net, DiffPlan(desired, Owned(store, opts.owns), opts, drawn), store).Store();
    var known := ReconcileKnown(desired, store, opts, drawn, hook, net);
    ListingIndex(store, opts);
    var k := opts.EntryKey(e);
    KnownInStore(after, known, opts, k);
    assert known[k].id == e.id && opts.EntryKey(known[k]) == k;
  }

  lemma {:induction false} InsertsOnly(hook: Hook, store: seq<Entry>, ops: seq<Op>, x: Entry)
    requires x in After(hook, store, ops)
    ensures x in store || exists op | op in ops :: !op.Delete? && op.entry == x
    decreases |ops|
  {
    if ops != [] {
      var after := Item(hook, store, ops[0]).0;
      InsertsOnly(hook, after, ops[1..], x);
      assert ops[0] in ops;
      assert forall op | op in ops[1..] :: op in ops;
    }
  }

  lemma WrittenInserts(hook: Hook, rpc: Transport, ops: seq<Op>, store: seq<Entry>, x: Entry)
    requires x in Written(hook, rpc, ops, store).store
    ensures x in store || exists op | op in ops :: !op.Delete? && op.entry == x
  {
    ChunksPartition(ops, BATCH_SIZE);
    var chunks := Chunks(ops, BATCH_SIZE);
    BatchingStore(hook, rpc, chunks, 0, Tally(store, 0, 0));
    ReachedWithin(rpc, chunks, 0);
    InsertsOnly(hook, store, Concat(Reached(rpc, chunks, 0)), x);
  }

  /** Every id and every entry a plan writes is one the ownership rule accepts. */
  ghost predicate OwnedItems(plan: Plan, store: seq<Entry>, opts: Options) {
    && (forall e | e in plan.create :: opts.owns.Owns(e))
    && (forall e | e in plan.update :: opts.owns.Owns(e))
    && (forall x | x in store && !opts.owns.Owns(x) ::
      && x.id !in Touched(Creating(plan.create))
      && x.id !in Touched(Updating(plan.update))
      && x.id !in Touched(Deleting(plan.delete)))
  }

  lemma OwnedItemsFrame(plan: Plan, store: seq<Entry>, opts: Options, hook: Hook, net: Network, x: Entry)
    requires OwnedItems(plan, store, opts) && !opts.owns.Owns(x)
    ensures x in Apply(hook, net, plan, store).Store() <==> x in store
  {
    var creates, updates, deletes := Creating(plan.create), Updating(plan.update), Deleting(plan.delete);
    var r := Apply(hook, net, plan, store);
    if x in store {
      WrittenFrame(hook, net.creates, creates, store, x);
      WrittenFrame(hook, net.updates, updates, r.created.store, x);
      WrittenFrame(hook, net.deletes, deletes, r.updated.store, x);
    }
    if x in r.Store() {
      WrittenInserts(hook, net.deletes, deletes, r.updated.store, x);
      WrittenInserts(hook, net.updates, updates, r.created.store, x);
      WrittenInserts(hook, net.creates, creates, store, x);
    }
  }

  lemma KnownNotUnowned(known: map<string, Entry>, store: seq<Entry>, opts: Options, k: string, x: Entry)
    requires Index(store, known, opts) && k in known
    requires x in store && !opts.owns.Owns(x)
    ensures known[k].id != x.id
  {
    KnownInStore(store, known, opts, k);
    if known[k].id == x.id { SameID(store, known[k], x); }
  }

  lemma UnownedIDs(
    plan: Plan, wanted: map<string, Desired>, known: map<string, Entry>, store: seq<Entry>, opts: Options, x: Entry)
    requires Index(store, known, opts) && Faithful(plan, wanted, known, opts) && Minted(plan.create, store, opts)
    requires x in store && !opts.owns.Owns(x)
    ensures forall e | e in plan.create :: e.id != x.id
    ensures forall e | e in plan.update :: e.id != x.id
    ensures x.id !in plan.delete
  {
    forall e | e in plan.update ensures e.id != x.id {
      KnownNotUnowned(known, store, opts, opts.EntryKey(e), x);
    }
    forall k | k in known ensures known[k].id != x.id {
      KnownNotUnowned(known, store, opts, k, x);
    }
  }

  lemma PlanOwnedItems(
    plan: Plan, wanted: map<string, Desired>, known: map<string, Entry>, store: seq<Entry>, opts: Options)
    requires OwnRule(opts) && Index(store, known, opts)
    requires Faithful(plan, wanted, known, opts) && Minted(plan.create, store, opts)
    ensures OwnedItems(plan, store, opts)
  {
    forall e | e in plan.update ensures opts.owns.Owns(e) {
      KnownInStore(store, known, opts, opts.EntryKey(e));
    }
    forall x | x in store && !opts.owns.Owns(x)
      ensures x.id !in Touched(Creating(plan.create))
      ensures x.id !in Touched(Updating(plan.update))
      ensures x.id !in Touched(Deleting(plan.delete))
    {
      UnownedIDs(plan, wanted, known, store, opts, x);
      TouchedIDs(plan, x.id);
    }
  }

  lemma TouchedIDs(plan: Plan, id: string)
    requires forall e | e in plan.create :: e.id != id
    requires forall e | e in plan.update :: e.id != id
    requires id !in plan.delete
    ensures id !in Touched(Creating(plan.create))
    ensures id !in Touched(Updating(plan.update))
    ensures id !in Touched(Deleting(plan.delete))
  {
  }

  /** Entries the syncer does not own are exactly the same before and after, whatever fails. */
  lemma UnownedUntouched(
    desired: seq<Desired>, store: seq<Entry>, opts: Options, drawn: nat, hook: Hook, net: Network, x: Entry)
    requires Settled(store, opts, drawn) && !opts.owns.Owns(x)
    ensures var plan := DiffPlan(desired, Owned(store, opts.owns), opts, drawn);
      x in Apply(hook, net, plan, store).Store() <==> x in store
  {
    var existing := Owned(store, opts.owns);
    PlanBatch(desired, existing, store, opts, drawn);
    PlanMeaning(desired, existing, opts, drawn);
    var plan := DiffPlan(desired, existing, opts, drawn);
    PlanOwnedItems(plan, Wanted(desired, opts), ByKey(existing, opts), store, opts);
    OwnedItemsFrame(plan, store, opts, hook, net, x);
  }
}
