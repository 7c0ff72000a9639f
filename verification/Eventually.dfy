/** When repeated reconciles against the real server converge, and after how many: the exact condition at the start. */
module Eventually {
  import opened Entries
  import opened Reconcile
  import opened Plans
  import opened EntryServer
  import opened Stores
  import opened Progress
  import opened Convergence
  import opened Draining
  import opened Duplicates

  /** The entry has the SPIFFE ID, parent and selectors of the record. */
  predicate CoversRecord(x: Entry, d: Desired) {
    x.spiffeID == d.spiffeID && x.parentID == d.parentID && multiset(x.selectors) == multiset(d.selectors)
  }

  /** A wanted key that no owned entry has, and whose identity an entry of somebody else covers. */
  ghost predicate Blocked(k: string, wanted: map<string, Desired>, store: seq<Entry>, opts: Options) {
    && k in wanted && IDsUnder(store, k, opts) == {}
    && exists x | x in store :: !opts.owns.Owns(x) && CoversRecord(x, wanted[k])
  }

  /** The planner sees an entry under the key, and it says what is wanted. */
  predicate Held(k: string, wanted: map<string, Desired>, store: seq<Entry>, opts: Options) {
    var known := ByKey(Owned(store, opts.owns), opts);
    k in wanted && k in known && !Drifted(wanted[k], known[k])
  }

  // ----- the creates of one cycle

  lemma {:induction false} CreatesKeep(hook: Hook, store: seq<Entry>, created: seq<Entry>, x: Entry)
    requires x in store
    ensures x in After(hook, store, Creating(created))
    decreases |created|
  {
    if created != [] {
      assert Creating(created)[1..] == Creating(created[1..]);
      CreatesKeep(hook, Item(hook, store, Create(created[0])).0, created[1..], x);
    }
  }

  /** A create that no entry of the store stands in the way of lands. */
  lemma {:induction false} CreatesLand(store: seq<Entry>, created: seq<Entry>, c: Entry)
    requires c in created && DistinctIdentities(created)
    requires forall e | e in created :: e.id !in IDs(store)
    requires forall i, j | 0 <= i < j < |created| :: created[i].id != created[j].id
    requires forall x | x in store :: !Covers(x, c)
    ensures c in After(ContractHook, store, Creating(created))
    decreases |created|
  {
    var e, rest := created[0], created[1..];
    var after := Item(ContractHook, store, Create(e)).0;
    assert Creating(created)[1..] == Creating(rest);
    if e == c {
      ContractFresh(store, c);
      CreatesKeep(ContractHook, after, rest, c);
    } else {
      RestIdentity(created, c);
      assert forall x | x in after :: x in store || x == e;
      RestFresh(store, created, after);
      CreatesLand(after, rest, c);
    }
  }

  lemma RestIdentity(created: seq<Entry>, c: Entry)
    requires DistinctIdentities(created) && c in created && created[0] != c
    ensures DistinctIdentities(created[1..]) && c in created[1..] && !Covers(created[0], c)
  {
    var j :| 0 <= j < |created| && created[j] == c;
    assert created[1..][j - 1] == c;
  }

  lemma RestFresh(store: seq<Entry>, created: seq<Entry>, after: seq<Entry>)
    requires created != []
    requires forall e | e in created :: e.id !in IDs(store)
    requires forall i, j | 0 <= i < j < |created| :: created[i].id != created[j].id
    requires forall x | x in after :: x in store || x == created[0]
    ensures forall e | e in created[1..] :: e.id !in IDs(after)
  {
    forall e | e in created[1..] ensures e.id !in IDs(after) {
      var i :| 1 <= i < |created| && created[i] == e;
      assert created[0].id != created[i].id && created[i] in created;
    }
  }

  /** A create whose identity is covered is refused. */
  lemma {:induction false} CreatesRefused(store: seq<Entry>, created: seq<Entry>, x: Entry, c: Entry)
    requires x in store && Covers(x, c) && c !in store
    ensures c !in After(ContractHook, store, Creating(created))
    decreases |created|
  {
    if created != [] {
      var e := created[0];
      assert Creating(created)[1..] == Creating(created[1..]);
      if e == c { FindIdentityFacts(store, c); }
      CreatesRefused(Item(ContractHook, store, Create(e)).0, created[1..], x, c);
    }
  }

  // ----- the updates of one cycle

  lemma {:induction false} UpdatesLand(hook: Hook, store: seq<Entry>, updated: seq<Entry>, u: Entry)
    requires UniqueIDs(store) && LetsThrough(hook)
    requires u in updated && u.id in IDs(store)
    requires forall i, j | 0 <= i < j < |updated| :: updated[i].id != updated[j].id
    ensures u in After(hook, store, Updating(updated))
    decreases |updated|
  {
    var e, rest := updated[0], updated[1..];
    var after := Item(hook, store, Update(e)).0;
    assert Updating(updated)[1..] == Updating(rest);
    ItemMembers(hook, store, Update(e));
    if e == u {
      assert u.id !in Touched(Updating(rest)) by {
        forall op | op in Updating(rest) ensures op.ID() != u.id {
          var i :| 0 <= i < |rest| && Updating(rest)[i] == op;
          assert updated[0].id != updated[i + 1].id;
        }
      }
      BatchFrame(hook, after, Updating(rest), u);
    } else {
      assert u.id in IDs(after);
      UpdatesLand(hook, after, rest, u);
    }
  }

  lemma UpdateIDsDistinct(
    plan: Plan, wanted: map<string, Desired>, known: map<string, Entry>, store: seq<Entry>, opts: Options)
    requires UniqueIDs(store) && Sound(plan, wanted, known, store, opts)
    ensures forall i, j | 0 <= i < j < |plan.update| :: plan.update[i].id != plan.update[j].id
  {
    forall i, j | 0 <= i < j < |plan.update| ensures plan.update[i].id != plan.update[j].id {
      var a, b := plan.update[i], plan.update[j];
      assert a in plan.update && b in plan.update;
      KnownApart(known, store, opts, opts.EntryKey(a), opts.EntryKey(b));
    }
  }

  // ----- what one cycle does for a wanted key

  /** The ids of updates and deletes are ids of the store. */
  lemma WrittenIDs(
    plan: Plan, wanted: map<string, Desired>, known: map<string, Entry>, store: seq<Entry>, opts: Options, id: string)
    requires Sound(plan, wanted, known, store, opts) && id !in IDs(store)
    ensures id !in Touched(Updating(plan.update)) && id !in plan.delete
  {
    forall u | u in plan.update ensures u.id != id {
      assert known[opts.EntryKey(u)] in store;
    }
    forall k | k in known ensures known[k].id != id {
      assert known[k] in store;
    }
  }

  lemma CreateSeen(
    plan: Plan, wanted: map<string, Desired>, known: map<string, Entry>, store: seq<Entry>, opts: Options, net: Network,
    c: Entry)
    requires UniqueIDs(store) && Sound(plan, wanted, known, store, opts) && OrderBlind(opts.key) && Answered(net)
    requires c in plan.create && forall x | x in store :: !Covers(x, c)
    ensures c in Apply(ContractHook, net, plan, store).Store()
  {
    var r := Apply(ContractHook, net, plan, store);
    WrittenStore(ContractHook, net.creates, Creating(plan.create), store);
    DistinctKeysIdentities(plan.create, opts);
    CreatesLand(store, plan.create, c);
    WrittenIDs(plan, wanted, known, store, opts, c.id);
    assert c.id !in Touched(Deleting(plan.delete));
    WrittenFrame(ContractHook, net.updates, Updating(plan.update), r.created.store, c);
    WrittenFrame(ContractHook, net.deletes, Deleting(plan.delete), r.updated.store, c);
  }

  /** An id of a wanted known key is not among those created or deleted. */
  lemma WantedIDStays(
    plan: Plan, wanted: map<string, Desired>, known: map<string, Entry>, store: seq<Entry>, opts: Options, k: string)
    requires UniqueIDs(store) && Sound(plan, wanted, known, store, opts) && k in wanted && k in known
    ensures known[k].id !in Touched(Creating(plan.create)) && known[k].id !in plan.delete
  {
    assert known[k].id in IDs(store);
    forall l | l in known.Keys - wanted.Keys ensures known[l].id != known[k].id {
      KnownApart(known, store, opts, k, l);
    }
  }

  lemma UpdateSeen(
    plan: Plan, wanted: map<string, Desired>, known: map<string, Entry>, store: seq<Entry>, opts: Options, net: Network,
    u: Entry)
    requires UniqueIDs(store) && Sound(plan, wanted, known, store, opts) && Answered(net)
    requires u in plan.update
    ensures u in Apply(ContractHook, net, plan, store).Store()
  {
    var r := Apply(ContractHook, net, plan, store);
    var k := opts.EntryKey(u);
    WantedIDStays(plan, wanted, known, store, opts, k);
    ApplyUnique(plan, store, opts, ContractHook, net);
    WrittenFrame(ContractHook, net.creates, Creating(plan.create), store, known[k]);
    assert u.id in IDs(r.created.store);
    WrittenStore(ContractHook, net.updates, Updating(plan.update), r.created.store);
    UpdateIDsDistinct(plan, wanted, known, store, opts);
    UpdatesLand(ContractHook, r.created.store, plan.update, u);
    assert u.id !in Touched(Deleting(plan.delete));
    WrittenFrame(ContractHook, net.deletes, Deleting(plan.delete), r.updated.store, u);
  }

  lemma SteadySeen(
    plan: Plan, wanted: map<string, Desired>, known: map<string, Entry>, store: seq<Entry>, opts: Options, net: Network,
    k: string)
    requires UniqueIDs(store) && Sound(plan, wanted, known, store, opts)
    requires k in wanted && k in known && !Drifted(wanted[k], known[k])
    ensures known[k] in Apply(ContractHook, net, plan, store).Store()
  {
    WantedIDStays(plan, wanted, known, store, opts, k);
    forall u | u in plan.update ensures u.id != known[k].id {
      KnownApart(known, store, opts, opts.EntryKey(u), k);
    }
    ApplyFrame(plan, store, ContractHook, net, known[k]);
  }

  /** Under a known wanted key, an entry with the id the planner saw says what is wanted after the cycle. */
  lemma KnownSeen(
    plan: Plan, wanted: map<string, Desired>, known: map<string, Entry>, store: seq<Entry>, opts: Options, net: Network,
    k: string)
    returns (e: Entry)
    requires UniqueIDs(store) && Sound(plan, wanted, known, store, opts) && Answered(net)
    requires k in wanted && k in known
    ensures e in Apply(ContractHook, net, plan, store).Store() && e.id == known[k].id && !Drifted(wanted[k], e)
  {
    if Drifted(wanted[k], known[k]) {
      assert k in EntryKeys(plan.update, opts);
      e :| e in plan.update && opts.EntryKey(e) == k;
      UpdateSeen(plan, wanted, known, store, opts, net, e);
    } else {
      e := known[k];
      SteadySeen(plan, wanted, known, store, opts, net, k);
    }
  }

  lemma KnownHeld(
    plan: Plan, wanted: map<string, Desired>, known: map<string, Entry>, store: seq<Entry>, opts: Options, net: Network,
    k: string)
    requires UniqueIDs(store) && Sound(plan, wanted, known, store, opts) && Answered(net) && OwnRule(opts)
    requires known == ByKey(Owned(store, opts.owns), opts) && k in wanted && k in known
    ensures Held(k, wanted, Apply(ContractHook, net, plan, store).Store(), opts)
  {
    var after := Apply(ContractHook, net, plan, store).Store();
    var e := KnownSeen(plan, wanted, known, store, opts, net, k);
    ApplyUnique(plan, store, opts, ContractHook, net);
    ApplyLine(plan, wanted, known, store, opts, ContractHook, net, k);
    LineLast(store, k, opts);
    LineLast(after, k, opts);
    KnownFacts(after, opts);
    SameID(after, ByKey(Owned(after, opts.owns), opts)[k], e);
  }

  /** What is left under a key that was not known is the one entry created for it. */
  lemma OnlyCreated(
    plan: Plan, wanted: map<string, Desired>, known: map<string, Entry>, store: seq<Entry>, opts: Options,
    hook: Hook, net: Network, k: string, x: Entry)
    requires Sound(plan, wanted, known, store, opts)
    requires forall e | e in store && opts.owns.Owns(e) :: opts.EntryKey(e) in known
    requires k !in known && x in Apply(hook, net, plan, store).Store()
    requires opts.owns.Owns(x) && opts.EntryKey(x) == k
    ensures x in plan.create && x in Apply(hook, net, plan, store).created.store
  {
    AfterCreates(plan, store, hook, net, x);
    ApplyInserts(plan, store, hook, net, x);
  }

  lemma CreatedOnce(plan: Plan, opts: Options, a: Entry, b: Entry)
    requires DistinctKeys(plan.create, opts) && a in plan.create && b in plan.create
    requires opts.EntryKey(a) == opts.EntryKey(b)
    ensures a == b
  {
  }

  /** A create collides only with an entry of somebody else. */
  lemma CollisionForeign(
    plan: Plan, wanted: map<string, Desired>, known: map<string, Entry>, store: seq<Entry>, opts: Options, c: Entry,
    x: Entry)
    requires Sound(plan, wanted, known, store, opts) && OrderBlind(opts.key) && c in plan.create
    requires known == ByKey(Owned(store, opts.owns), opts) && x in store && Covers(x, c)
    ensures !opts.owns.Owns(x) && CoversRecord(x, wanted[opts.EntryKey(c)])
  {
    KnownFacts(store, opts);
    assert opts.EntryKey(x) == opts.EntryKey(c);
  }

  lemma UnblockedClear(
    plan: Plan, wanted: map<string, Desired>, known: map<string, Entry>, store: seq<Entry>, opts: Options, c: Entry)
    requires Sound(plan, wanted, known, store, opts) && OrderBlind(opts.key) && c in plan.create
    requires known == ByKey(Owned(store, opts.owns), opts)
    requires !Blocked(opts.EntryKey(c), wanted, store, opts)
    ensures forall x | x in store :: !Covers(x, c)
  {
    KnownUnder(store, opts.EntryKey(c), opts);
    forall x | x in store ensures !Covers(x, c) {
      if Covers(x, c) { CollisionForeign(plan, wanted, known, store, opts, c, x); }
    }
  }

  lemma NewHeld(
    plan: Plan, wanted: map<string, Desired>, known: map<string, Entry>, store: seq<Entry>, opts: Options, net: Network,
    k: string)
    requires UniqueIDs(store) && Sound(plan, wanted, known, store, opts) && Answered(net) && OrderBlind(opts.key)
    requires known == ByKey(Owned(store, opts.owns), opts) && k in wanted && k !in known
    requires !Blocked(k, wanted, store, opts)
    ensures Held(k, wanted, Apply(ContractHook, net, plan, store).Store(), opts)
  {
    var after := Apply(ContractHook, net, plan, store).Store();
    assert k in EntryKeys(plan.create, opts);
    var c :| c in plan.create && opts.EntryKey(c) == k;
    UnblockedClear(plan, wanted, known, store, opts, c);
    CreateSeen(plan, wanted, known, store, opts, net, c);
    KnownFacts(store, opts);
    KnownFacts(after, opts);
    var x := ByKey(Owned(after, opts.owns), opts)[k];
    OnlyCreated(plan, wanted, known, store, opts, ContractHook, net, k, x);
    CreatedOnce(plan, opts, x, c);
  }

  /** One answered cycle: whatever is wanted and not blocked is held after it. */
  lemma CycleHolds(desired: seq<Desired>, store: seq<Entry>, opts: Options, drawn: nat, net: Network, k: string)
    requires Prepared(store, opts, drawn) && Answered(net) && OrderBlind(opts.key)
    requires k in Wanted(desired, opts) && !Blocked(k, Wanted(desired, opts), store, opts)
    ensures Held(k, Wanted(desired, opts), Cycle(ContractHook, net, desired, opts, drawn, store), opts)
  {
    var existing := Owned(store, opts.owns);
    var plan, wanted, known := DiffPlan(desired, existing, opts, drawn), Wanted(desired, opts), ByKey(existing, opts);
    PlanSound(desired, store, opts, drawn);
    if k in known {
      KnownHeld(plan, wanted, known, store, opts, net, k);
    } else {
      NewHeld(plan, wanted, known, store, opts, net, k);
    }
  }

  // ----- what stays blocked

  /** A key is known exactly when there is an entry under it. */
  lemma KnownUnder(store: seq<Entry>, k: string, opts: Options)
    ensures k in ByKey(Owned(store, opts.owns), opts) <==> IDsUnder(store, k, opts) != {}
  {
    KnownFacts(store, opts);
    if k in ByKey(Owned(store, opts.owns), opts) {
      assert ByKey(Owned(store, opts.owns), opts)[k].id in IDsUnder(store, k, opts);
    }
  }

  /** Entries of others stay. */
  lemma ForeignStays(
    plan: Plan, wanted: map<string, Desired>, known: map<string, Entry>, store: seq<Entry>, opts: Options,
    hook: Hook, net: Network, x: Entry)
    requires UniqueIDs(store) && Sound(plan, wanted, known, store, opts)
    requires x in store && !opts.owns.Owns(x)
    ensures x in Apply(hook, net, plan, store).Store()
  {
    forall k | k in known ensures known[k].id != x.id {
      if known[k].id == x.id { SameID(store, known[k], x); }
    }
    assert x.id in IDs(store);
    forall u | u in plan.update ensures u.id != x.id {
      assert opts.EntryKey(u) in known;
    }
    ApplyFrame(plan, store, hook, net, x);
  }

  lemma BlockedCreate(
    plan: Plan, wanted: map<string, Desired>, known: map<string, Entry>, store: seq<Entry>, opts: Options, net: Network,
    x: Entry, c: Entry)
    requires Sound(plan, wanted, known, store, opts) && Answered(net)
    requires c in plan.create && x in store && CoversRecord(x, wanted[opts.EntryKey(c)])
    ensures c !in Apply(ContractHook, net, plan, store).created.store
  {
    WrittenStore(ContractHook, net.creates, Creating(plan.create), store);
    assert Covers(x, c);
    assert c !in store by { assert c.id !in IDs(store); }
    CreatesRefused(store, plan.create, x, c);
  }

  /** Against the real server a blocked key stays blocked. */
  lemma CycleBlocked(desired: seq<Desired>, store: seq<Entry>, opts: Options, drawn: nat, net: Network, k: string)
    requires Prepared(store, opts, drawn) && Answered(net)
    requires Blocked(k, Wanted(desired, opts), store, opts)
    ensures Blocked(k, Wanted(desired, opts), Cycle(ContractHook, net, desired, opts, drawn, store), opts)
  {
    var existing := Owned(store, opts.owns);
    var plan, wanted, known := DiffPlan(desired, existing, opts, drawn), Wanted(desired, opts), ByKey(existing, opts);
    var after := Apply(ContractHook, net, plan, store).Store();
    PlanSound(desired, store, opts, drawn);
    KnownFacts(store, opts);
    var x :| x in store && !opts.owns.Owns(x) && CoversRecord(x, wanted[k]);
    ForeignStays(plan, wanted, known, store, opts, ContractHook, net, x);
    KnownUnder(store, k, opts);
    forall y | y in after && opts.owns.Owns(y) ensures opts.EntryKey(y) != k {
      if opts.EntryKey(y) == k {
        OnlyCreated(plan, wanted, known, store, opts, ContractHook, net, k, y);
        BlockedCreate(plan, wanted, known, store, opts, net, x, y);
      }
    }
  }

  // ----- what stays single

  /** A wanted key under which there is at most one entry has at most one after a cycle, whatever fails. */
  lemma CycleSingle(
    desired: seq<Desired>, store: seq<Entry>, opts: Options, drawn: nat, hook: Hook, net: Network, k: string)
    requires Prepared(store, opts, drawn) && k in Wanted(desired, opts)
    requires |IDsUnder(store, k, opts)| <= 1
    ensures |IDsUnder(Cycle(hook, net, desired, opts, drawn, store), k, opts)| <= 1
  {
    var existing := Owned(store, opts.owns);
    var plan, wanted, known := DiffPlan(desired, existing, opts, drawn), Wanted(desired, opts), ByKey(existing, opts);
    var after := Apply(hook, net, plan, store).Store();
    PlanSound(desired, store, opts, drawn);
    KnownFacts(store, opts);
    forall a, b | a in after && b in after && opts.owns.Owns(a) && opts.owns.Owns(b)
      && opts.EntryKey(a) == k && opts.EntryKey(b) == k
      ensures a.id == b.id
    {
      if k in known {
        SingleKnown(plan, wanted, known, store, opts, hook, net, k, a);
        SingleKnown(plan, wanted, known, store, opts, hook, net, k, b);
      } else {
        OnlyCreated(plan, wanted, known, store, opts, hook, net, k, a);
        OnlyCreated(plan, wanted, known, store, opts, hook, net, k, b);
        CreatedOnce(plan, opts, a, b);
      }
    }
    AtMostOne(after, k, opts);
  }

  lemma SingleKnown(
    plan: Plan, wanted: map<string, Desired>, known: map<string, Entry>, store: seq<Entry>, opts: Options,
    hook: Hook, net: Network, k: string, x: Entry)
    requires Sound(plan, wanted, known, store, opts) && k in known && |IDsUnder(store, k, opts)| <= 1
    requires x in Apply(hook, net, plan, store).Store() && opts.owns.Owns(x) && opts.EntryKey(x) == k
    ensures x.id == known[k].id
  {
    ApplyInserts(plan, store, hook, net, x);
    if x in store { SameUnder(store, k, opts, x, known[k]); }
  }

  lemma SameUnder(store: seq<Entry>, k: string, opts: Options, a: Entry, b: Entry)
    requires |IDsUnder(store, k, opts)| <= 1
    requires a in store && opts.owns.Owns(a) && opts.EntryKey(a) == k
    requires b in store && opts.owns.Owns(b) && opts.EntryKey(b) == k
    ensures a.id == b.id
  {
    var ids := IDsUnder(store, k, opts);
    assert a.id in ids && b.id in ids;
    if a.id != b.id {
      assert |{a.id, b.id}| == 2;
      Within({a.id, b.id}, ids);
    }
  }

  lemma {:induction false} Within(a: set<string>, b: set<string>)
    requires a <= b
    ensures |a| <= |b|
  {
    if a != {} {
      var x :| x in a;
      Within(a - {x}, b - {x});
    }
  }

  lemma AtMostOne(store: seq<Entry>, k: string, opts: Options)
    requires forall a, b | a in store && b in store && opts.owns.Owns(a) && opts.owns.Owns(b)
      && opts.EntryKey(a) == k && opts.EntryKey(b) == k :: a.id == b.id
    ensures |IDsUnder(store, k, opts)| <= 1
  {
    var ids := IDsUnder(store, k, opts);
    if ids != {} {
      var id :| id in ids;
      forall other | other in ids ensures other == id {
        var a :| a in store && opts.owns.Owns(a) && opts.EntryKey(a) == k && a.id == id;
        var b :| b in store && opts.owns.Owns(b) && opts.EntryKey(b) == k && b.id == other;
      }
      assert ids == {id};
    }
  }

  // ----- converged, key by key

  ghost predicate Tidy(desired: seq<Desired>, store: seq<Entry>, opts: Options) {
    && (forall k | k in Wanted(desired, opts) ::
      |IDsUnder(store, k, opts)| <= 1 && Held(k, Wanted(desired, opts), store, opts))
    && Unwanted(desired, store, opts) == {}
  }

  lemma TidyConverged(desired: seq<Desired>, store: seq<Entry>, opts: Options)
    requires UniqueIDs(store) && OwnRule(opts) && Tidy(desired, store, opts)
    ensures Converged(desired, store, opts)
  {
    var wanted, known := Wanted(desired, opts), ByKey(Owned(store, opts.owns), opts);
    KnownFacts(store, opts);
    forall e | e in store && opts.owns.Owns(e) ensures opts.EntryKey(e) in wanted {
      assert opts.EntryKey(e) !in wanted ==> e.id in Unwanted(desired, store, opts);
    }
    forall a, b | a in store && b in store && opts.owns.Owns(a) && opts.owns.Owns(b)
      && opts.EntryKey(a) == opts.EntryKey(b)
      ensures a.id == b.id
    {
      SameUnder(store, opts.EntryKey(a), opts, a, b);
    }
    assert wanted.Keys - known.Keys == {} && known.Keys - wanted.Keys == {} && DriftedKeys(wanted, known) == {};
    ConvergedDistance(desired, store, opts);
  }

  lemma ConvergedTidy(desired: seq<Desired>, store: seq<Entry>, opts: Options)
    requires OwnRule(opts) && Converged(desired, store, opts)
    ensures Tidy(desired, store, opts)
  {
    var wanted, known := Wanted(desired, opts), ByKey(Owned(store, opts.owns), opts);
    KnownFacts(store, opts);
    ConvergedDistance(desired, store, opts);
    ZeroGap(wanted, known);
    forall k ensures |IDsUnder(store, k, opts)| <= 1 {
      UniqueSingle(store, k, opts);
    }
  }

  lemma UniqueSingle(store: seq<Entry>, k: string, opts: Options)
    requires KeyUnique(store, opts)
    ensures |IDsUnder(store, k, opts)| <= 1
  {
    AtMostOne(store, k, opts);
  }

  // ----- many cycles

  /** Every call of a run against the real server is answered, from a prepared start. */
  ghost predicate RealRun(trace: seq<Server>, nets: seq<Network>, desired: seq<Desired>, opts: Options) {
    && CycleRun(trace, nets, ContractHook, desired, opts) && AllAnswered(nets)
    && Prepared(trace[0].store, opts, trace[0].drawn) && OrderBlind(opts.key)
  }

  lemma {:induction false} RunBlocked(
    trace: seq<Server>, nets: seq<Network>, desired: seq<Desired>, opts: Options, n: nat, k: string)
    requires RealRun(trace, nets, desired, opts) && n <= |nets|
    requires Blocked(k, Wanted(desired, opts), trace[0].store, opts)
    ensures Blocked(k, Wanted(desired, opts), trace[n].store, opts)
    decreases n
  {
    if n > 0 {
      RunBlocked(trace, nets, desired, opts, n - 1, k);
      RunPrepared(trace, nets, ContractHook, desired, opts, n - 1);
      BlockedNext(trace, nets, desired, opts, n - 1, k);
    }
  }

  lemma BlockedNext(trace: seq<Server>, nets: seq<Network>, desired: seq<Desired>, opts: Options, i: nat, k: string)
    requires RealRun(trace, nets, desired, opts) && i < |nets|
    requires Prepared(trace[i].store, opts, trace[i].drawn)
    requires Blocked(k, Wanted(desired, opts), trace[i].store, opts)
    ensures Blocked(k, Wanted(desired, opts), trace[i + 1].store, opts)
  {
    CycleBlocked(desired, trace[i].store, opts, trace[i].drawn, nets[i], k);
  }

  lemma HeldUnblocked(k: string, wanted: map<string, Desired>, store: seq<Entry>, opts: Options)
    requires Held(k, wanted, store, opts)
    ensures !Blocked(k, wanted, store, opts)
  {
    KnownUnder(store, k, opts);
  }

  lemma HeldNext(trace: seq<Server>, nets: seq<Network>, desired: seq<Desired>, opts: Options, i: nat, k: string)
    requires RealRun(trace, nets, desired, opts) && i < |nets|
    requires Prepared(trace[i].store, opts, trace[i].drawn)
    requires k in Wanted(desired, opts) && !Blocked(k, Wanted(desired, opts), trace[i].store, opts)
    ensures Held(k, Wanted(desired, opts), trace[i + 1].store, opts)
  {
    CycleHolds(desired, trace[i].store, opts, trace[i].drawn, nets[i], k);
  }

  lemma {:induction false} RunHeld(
    trace: seq<Server>, nets: seq<Network>, desired: seq<Desired>, opts: Options, n: nat, k: string)
    requires RealRun(trace, nets, desired, opts) && 1 <= n <= |nets|
    requires k in Wanted(desired, opts) && !Blocked(k, Wanted(desired, opts), trace[0].store, opts)
    ensures Held(k, Wanted(desired, opts), trace[n].store, opts)
    decreases n
  {
    if n > 1 {
      RunHeld(trace, nets, desired, opts, n - 1, k);
      HeldUnblocked(k, Wanted(desired, opts), trace[n - 1].store, opts);
    }
    RunPrepared(trace, nets, ContractHook, desired, opts, n - 1);
    HeldNext(trace, nets, desired, opts, n - 1, k);
  }

  lemma SingleNext(trace: seq<Server>, nets: seq<Network>, desired: seq<Desired>, opts: Options, i: nat, k: string)
    requires RealRun(trace, nets, desired, opts) && i < |nets|
    requires Prepared(trace[i].store, opts, trace[i].drawn)
    requires k in Wanted(desired, opts) && |IDsUnder(trace[i].store, k, opts)| <= 1
    ensures |IDsUnder(trace[i + 1].store, k, opts)| <= 1
  {
    CycleSingle(desired, trace[i].store, opts, trace[i].drawn, ContractHook, nets[i], k);
  }

  lemma {:induction false} RunSingle(
    trace: seq<Server>, nets: seq<Network>, desired: seq<Desired>, opts: Options, n: nat, k: string)
    requires RealRun(trace, nets, desired, opts) && n <= |nets|
    requires k in Wanted(desired, opts) && |IDsUnder(trace[0].store, k, opts)| <= 1
    ensures |IDsUnder(trace[n].store, k, opts)| <= 1
    decreases n
  {
    if n > 0 {
      RunSingle(trace, nets, desired, opts, n - 1, k);
      RunPrepared(trace, nets, ContractHook, desired, opts, n - 1);
      SingleNext(trace, nets, desired, opts, n - 1, k);
    }
  }

  /** Two entries under a wanted key: one of them is surplus. */
  lemma SeveralSurplus(desired: seq<Desired>, store: seq<Entry>, opts: Options, k: string) returns (x: Entry)
    requires k in Wanted(desired, opts) && |IDsUnder(store, k, opts)| > 1
    ensures IsSurplus(x, desired, store, opts) && opts.EntryKey(x) == k
  {
    var ids, known := IDsUnder(store, k, opts), ByKey(Owned(store, opts.owns), opts);
    KnownFacts(store, opts);
    KnownUnder(store, k, opts);
    if forall id | id in ids :: id == known[k].id {
      assert ids <= {known[k].id};
      Within(ids, {known[k].id});
    }
    var id :| id in ids && id != known[k].id;
    x :| x in store && opts.owns.Owns(x) && opts.EntryKey(x) == k && x.id == id;
  }

  lemma SurplusSeveral(desired: seq<Desired>, store: seq<Entry>, opts: Options, x: Entry)
    requires IsSurplus(x, desired, store, opts)
    ensures |IDsUnder(store, opts.EntryKey(x), opts)| > 1
  {
    var k := opts.EntryKey(x);
    var seen := ByKey(Owned(store, opts.owns), opts)[k];
    KnownFacts(store, opts);
    assert {x.id, seen.id} <= IDsUnder(store, k, opts) && |{x.id, seen.id}| == 2;
    Within({x.id, seen.id}, IDsUnder(store, k, opts));
  }

  lemma RunSeveral(trace: seq<Server>, nets: seq<Network>, desired: seq<Desired>, opts: Options, n: nat, k: string)
    requires RealRun(trace, nets, desired, opts) && n <= |nets|
    requires k in Wanted(desired, opts) && |IDsUnder(trace[0].store, k, opts)| > 1
    ensures |IDsUnder(trace[n].store, k, opts)| > 1
  {
    var x := SeveralSurplus(desired, trace[0].store, opts, k);
    SurplusForever(trace, nets, ContractHook, desired, opts, n, x);
    SurplusSeveral(desired, trace[n].store, opts, x);
  }

  /** What has to hold at the start for n cycles to converge. */
  ghost predicate ConvergesIn(desired: seq<Desired>, store: seq<Entry>, opts: Options, n: nat) {
    && (forall k | k in Wanted(desired, opts) ::
      |IDsUnder(store, k, opts)| <= 1 && !Blocked(k, Wanted(desired, opts), store, opts))
    && (forall k | k !in Wanted(desired, opts) :: |IDsUnder(store, k, opts)| <= n)
  }

  /**
   * Eventual convergence, exactly. Against the real server with every call answered, n >= 1 cycles
   * end converged if and only if, at the start, no wanted key holds more than one owned entry or is missing with
   * its identity covered by an entry of somebody else, and no unwanted key holds more than n.
   */
  lemma EventualConvergence(trace: seq<Server>, nets: seq<Network>, desired: seq<Desired>, opts: Options, n: nat)
    requires RealRun(trace, nets, desired, opts) && 1 <= n <= |nets|
    ensures Converged(desired, trace[n].store, opts) <==> ConvergesIn(desired, trace[0].store, opts, n)
  {
    RunPrepared(trace, nets, ContractHook, desired, opts, n);
    DrainedExactly(trace, nets, ContractHook, desired, opts, n);
    if ConvergesIn(desired, trace[0].store, opts, n) {
      RunTidy(trace, nets, desired, opts, n);
      TidyConverged(desired, trace[n].store, opts);
    }
    if Converged(desired, trace[n].store, opts) {
      ConvergedTidy(desired, trace[n].store, opts);
      TidyStart(trace, nets, desired, opts, n);
    }
  }

  lemma RunTidy(trace: seq<Server>, nets: seq<Network>, desired: seq<Desired>, opts: Options, n: nat)
    requires RealRun(trace, nets, desired, opts) && 1 <= n <= |nets|
    requires ConvergesIn(desired, trace[0].store, opts, n)
    requires Unwanted(desired, trace[n].store, opts) == {}
    ensures Tidy(desired, trace[n].store, opts)
  {
    forall k | k in Wanted(desired, opts)
      ensures |IDsUnder(trace[n].store, k, opts)| <= 1 && Held(k, Wanted(desired, opts), trace[n].store, opts)
    {
      RunSingle(trace, nets, desired, opts, n, k);
      RunHeld(trace, nets, desired, opts, n, k);
    }
  }

  lemma TidyStart(trace: seq<Server>, nets: seq<Network>, desired: seq<Desired>, opts: Options, n: nat)
    requires RealRun(trace, nets, desired, opts) && 1 <= n <= |nets|
    requires Tidy(desired, trace[n].store, opts)
    ensures forall k | k in Wanted(desired, opts) ::
      |IDsUnder(trace[0].store, k, opts)| <= 1 && !Blocked(k, Wanted(desired, opts), trace[0].store, opts)
  {
    forall k | k in Wanted(desired, opts)
      ensures |IDsUnder(trace[0].store, k, opts)| <= 1 && !Blocked(k, Wanted(desired, opts), trace[0].store, opts)
    {
      if |IDsUnder(trace[0].store, k, opts)| > 1 { RunSeveral(trace, nets, desired, opts, n, k); }
      HeldUnblocked(k, Wanted(desired, opts), trace[n].store, opts);
      if Blocked(k, Wanted(desired, opts), trace[0].store, opts) { RunBlocked(trace, nets, desired, opts, n, k); }
    }
  }
}
