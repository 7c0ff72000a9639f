/**
 * No two owned entries ever share a key, in any run of the protocol, provided that a key determines
 * its SPIFFE ID throughout; and a run that breaks this when it does not.
 */
module Uniqueness {
  import opened Wrappers
  import opened Entries
  import opened Reconcile
  import opened Plans
  import opened EntryServer
  import opened Stores
  import opened Progress
  import opened Convergence
  import opened JobHosts
  import opened Records
  import opened Protocol

  /** The SPIFFE ID that goes with a key for the whole run. */
  type Naming = string -> Option<SpiffeID>

  /** For readable parents and selectors a key tells everything; true of the key function in use. */
  ghost predicate Tells(key: KeyFunction) {
    forall p, s, q, t | Readable(p, s) && Readable(q, t) && key(p, s) == key(q, t) ::
      p == q && multiset(s) == multiset(t)
  }

  lemma KeyTells()
    ensures Tells(Key)
  {
    forall p, s, q, t | Readable(p, s) && Readable(q, t) && Key(p, s) == Key(q, t)
      ensures p == q && multiset(s) == multiset(t)
    {
      KeyCanonical(p, s, q, t);
    }
  }

  predicate CarriesName(e: Entry, naming: Naming, opts: Options) {
    e.spiffeID == naming(opts.EntryKey(e))
  }

  ghost predicate Legible(e: Entry) {
    Readable(e.parentID, e.selectors)
  }

  /** Every host that renders gives a readable record with the SPIFFE ID that its key determines. */
  ghost predicate Determined(env: Env, naming: Naming, hosts: seq<JobHost>) {
    forall h | h in hosts && Rendered(env.cfg, h).Some? ::
      var d := Rendered(env.cfg, h).value;
      Readable(d.parentID, d.selectors) && d.spiffeID == naming(env.opts.DesiredKey(d))
  }

  /** The hypothesis on one event. */
  ghost predicate Obeys(env: Env, naming: Naming, ev: Event) {
    ev.GatherOk? ==> Determined(env, naming, ev.hosts)
  }

  // ----- the inductive invariant

  predicate InListing(id: string, l: Listing) {
    id in l.pending || id in IDs(l.got)
  }

  /** The id is in every published snapshot and in every listing under way. */
  ghost predicate Covered(id: string, local: Local) {
    && (local.entries.Some? ==> id in IDs(local.entries.value))
    && (local.listing.Some? ==> InListing(id, local.listing.value))
    && (local.phase.Refreshing? ==> InListing(id, local.phase.refresh))
  }

  /** An owned entry with the key of one about to be created already has the key's SPIFFE ID. */
  ghost predicate Unopposed(c: Entry, store: seq<Entry>, naming: Naming, opts: Options) {
    forall e | e in store && opts.owns.Owns(e) && opts.EntryKey(e) == opts.EntryKey(c) :: CarriesName(e, naming, opts)
  }

  ghost predicate Good(op: Op, store: seq<Entry>, naming: Naming, opts: Options) {
    match op
    case Create(c) => Legible(c) && CarriesName(c, naming, opts) && Unopposed(c, store, naming, opts)
    case Update(u) => Legible(u) && CarriesName(u, naming, opts)
    case Delete(_) => true
  }

  ghost predicate StoreGood(store: seq<Entry>, opts: Options) {
    KeyUnique(store, opts) && forall e | e in store && opts.owns.Owns(e) :: Legible(e)
  }

  /** Each owned entry is in every listing, published or in flight, or already has its key's SPIFFE ID. */
  ghost predicate CoverInv(env: Env, naming: Naming, s: State) {
    forall e | e in s.store && env.opts.owns.Owns(e) :: CarriesName(e, naming, env.opts) || Covered(e.id, s.local)
  }

  ghost predicate OpsGood(env: Env, naming: Naming, s: State) {
    s.local.phase.Writing? ==> forall op | op in s.local.phase.ops :: Good(op, s.store, naming, env.opts)
  }

  ghost predicate Unique(env: Env, naming: Naming, s: State) {
    && StoreGood(s.store, env.opts)
    && CoverInv(env, naming, s)
    && OpsGood(env, naming, s)
    && (s.local.jobs.Some? ==> Determined(env, naming, s.local.jobs.value))
    && (s.local.phase.Loading? && s.local.phase.loaded.Some? ==> Determined(env, naming, s.local.phase.loaded.value))
  }

  // ----- loading

  lemma WantedDetermined(env: Env, naming: Naming, hosts: seq<JobHost>, k: string)
    requires Determined(env, naming, hosts) && k in Wanted(DesiredFor(env.cfg, hosts), env.opts)
    ensures var d := Wanted(DesiredFor(env.cfg, hosts), env.opts)[k];
      Readable(d.parentID, d.selectors) && d.spiffeID == naming(k)
  {
    var desired := DesiredFor(env.cfg, hosts);
    WantedKeys(desired, env.opts);
    DesiredFrom(env.cfg, hosts);
    var d := Wanted(desired, env.opts)[k];
    var h :| h in hosts && Rendered(env.cfg, h) == Some(d);
  }

  /** An owned entry that the planner could not see carries the SPIFFE ID of its key. */
  lemma UnseenCarries(env: Env, naming: Naming, s: State, e: Entry)
    requires Inv(env, s) && CoverInv(env, naming, s) && s.local.entries.Some?
    requires e in s.store && env.opts.owns.Owns(e)
    requires env.opts.EntryKey(e) !in ByKey(s.local.entries.value, env.opts)
    ensures CarriesName(e, naming, env.opts)
  {
    var entries := s.local.entries.value;
    VisibleFacts(entries, env.opts);
    forall x | x in entries ensures x.id != e.id {
      assert x.id == e.id ==> env.opts.EntryKey(x) == env.opts.EntryKey(e);
    }
  }

  lemma PlannedGood(env: Env, naming: Naming, s: State, op: Op)
    requires Inv(env, s) && Unique(env, naming, s)
    requires s.local.phase.Loading? && s.local.phase.loaded.Some? && s.local.entries.Some?
    requires op in PlanOps(PlanOf(env, s.local.phase.loaded.value, s.local.entries.value, s.local.drawn))
    ensures Good(op, s.store, naming, env.opts)
  {
    var hosts, entries := s.local.phase.loaded.value, s.local.entries.value;
    var plan := PlanOf(env, hosts, entries, s.local.drawn);
    DiffPlanned(DesiredFor(env.cfg, hosts), entries, env.opts, s.local.drawn);
    PlanOpsMembers(plan, op);
    match op
    case Create(c) =>
      WantedDetermined(env, naming, hosts, env.opts.EntryKey(c));
      forall e | e in s.store && env.opts.owns.Owns(e) && env.opts.EntryKey(e) == env.opts.EntryKey(c)
        ensures CarriesName(e, naming, env.opts)
      {
        UnseenCarries(env, naming, s, e);
      }
    case Update(u) =>
      WantedDetermined(env, naming, hosts, env.opts.EntryKey(u));
    case Delete(_) =>
  }

  lemma LoadUnique(env: Env, naming: Naming, s: State)
    requires Inv(env, s) && Unique(env, naming, s) && LoadEnabled(env, s)
    ensures Unique(env, naming, State(s.store, Loaded(env, s.local)))
  {
    if s.local.phase.loaded.Some? && s.local.entries.Some? {
      var plan := PlanOf(env, s.local.phase.loaded.value, s.local.entries.value, s.local.drawn);
      forall op | op in PlanOps(plan) ensures Good(op, s.store, naming, env.opts) {
        PlannedGood(env, naming, s, op);
      }
      forall e | e in s.store && env.opts.owns.Owns(e)
        ensures CarriesName(e, naming, env.opts) || Covered(e.id, Loaded(env, s.local))
      {
      }
    }
  }

  // ----- writing

  /** The server refuses a create whose key an owned entry already has. */
  lemma CreateRefused(store: seq<Entry>, c: Entry, e: Entry, naming: Naming, opts: Options)
    requires Tells(opts.key) && StoreGood(store, opts) && Good(Create(c), store, naming, opts)
    requires e in store && opts.owns.Owns(e) && opts.EntryKey(e) == opts.EntryKey(c)
    ensures ContractHook(store, Create(c)).Some?
  {
    assert Covers(e, c);
    FindIdentityFacts(store, c);
  }

  lemma CreateGood(store: seq<Entry>, c: Entry, keyOf: map<string, string>, naming: Naming, opts: Options)
    requires Tells(opts.key) && StoreGood(store, opts) && Tracked(store, keyOf, opts)
    requires Good(Create(c), store, naming, opts) && c.id !in IDs(store)
    ensures StoreGood(Item(ContractHook, store, Create(c)).0, opts)
    ensures forall x | x in Item(ContractHook, store, Create(c)).0 :: x in store || x == c
  {
    ItemMembers(ContractHook, store, Create(c));
    if ContractHook(store, Create(c)).None? {
      forall e | e in store && opts.owns.Owns(e) ensures opts.EntryKey(e) != opts.EntryKey(c) {
        if opts.EntryKey(e) == opts.EntryKey(c) { CreateRefused(store, c, e, naming, opts); }
      }
    }
  }

  lemma UpdateGood(store: seq<Entry>, u: Entry, keyOf: map<string, string>, naming: Naming, opts: Options)
    requires StoreGood(store, opts) && Tracked(store, keyOf, opts)
    requires Good(Update(u), store, naming, opts)
    requires opts.owns.Owns(u) && u.id in keyOf && keyOf[u.id] == opts.EntryKey(u)
    ensures StoreGood(Item(ContractHook, store, Update(u)).0, opts)
    ensures forall x | x in Item(ContractHook, store, Update(u)).0 :: x in store || x == u
    ensures u in Item(ContractHook, store, Update(u)).0 ==> u.id in IDs(store)
  {
    ItemMembers(ContractHook, store, Update(u));
    var after := Item(ContractHook, store, Update(u)).0;
    if u.id in IDs(store) {
      var was :| was in store && was.id == u.id;
      forall a, b | a in after && b in after && opts.owns.Owns(a) && opts.owns.Owns(b)
        && opts.EntryKey(a) == opts.EntryKey(b)
        ensures a.id == b.id
      {
        var a0, b0 := if a == u then was else a, if b == u then was else b;
        assert a0 in store && b0 in store;
      }
    } else {
      assert after == store;
    }
  }

  /** What an executed item puts into the store carries the SPIFFE ID of its key, and keys stay unique. */
  lemma ItemGood(
    store: seq<Entry>, op: Op, keyOf: map<string, string>, wanted: set<string>, naming: Naming, opts: Options)
    requires Tells(opts.key) && StoreGood(store, opts) && Tracked(store, keyOf, opts)
    requires Justified(op, keyOf, wanted, opts) && Good(op, store, naming, opts)
    requires op.Create? ==> op.entry.id !in IDs(store)
    ensures StoreGood(Item(ContractHook, store, op).0, opts)
    ensures forall x | x in Item(ContractHook, store, op).0 :: x in store || CarriesName(x, naming, opts)
  {
    match op
    case Create(c) => CreateGood(store, c, keyOf, naming, opts);
    case Update(u) => UpdateGood(store, u, keyOf, naming, opts);
    case Delete(id) => ItemMembers(ContractHook, store, op);
  }

  lemma ExecuteUnique(env: Env, naming: Naming, s: State)
    requires Tells(env.opts.key) && Inv(env, s) && Unique(env, naming, s) && Busy(s.local)
    ensures Unique(env, naming, Next(env, Execute, s))
  {
    var ops := s.local.phase.ops;
    assert ops[0] in ops;
    ItemGood(s.store, ops[0], s.local.keyOf, WantedBy(env, s.local.phase.hosts), naming, env.opts);
    var t := Next(env, Execute, s);
    forall op | op in t.local.phase.ops ensures Good(op, t.store, naming, env.opts) {
      assert op in ops;
    }
    forall e | e in t.store && env.opts.owns.Owns(e)
      ensures CarriesName(e, naming, env.opts) || Covered(e.id, t.local)
    {
    }
  }

  // ----- listing

  lemma InIDs(store: seq<Entry>, e: Entry)
    requires e in store
    ensures e.id in IDs(store)
  {
  }

  /** An id a listing covers is still covered after a page, if its entry is still there. */
  lemma PagedCovers(l: Listing, page: seq<Entry>, store: seq<Entry>, owns: Ownership, e: Entry)
    requires UniqueIDs(store) && e in store && owns.Owns(e)
    requires IsPage(page, store) && InListing(e.id, l)
    ensures InListing(e.id, Paged(l, page, owns))
  {
    OwnedMembers(page, owns);
    if e.id in IDs(l.got) {
      var x :| x in l.got && x.id == e.id;
      InIDs(Paged(l, page, owns).got, x);
    } else if e.id in IDs(page) {
      var x :| x in page && x.id == e.id;
      SameID(store, x, e);
      InIDs(Paged(l, page, owns).got, e);
    }
  }

  /** A complete listing has read every covered entry that is still there. */
  lemma CompleteCovers(l: Listing, store: seq<Entry>, e: Entry)
    requires e in store && InListing(e.id, l) && Complete(l, store)
    ensures e.id in IDs(l.got)
  {
    InIDs(store, e);
  }

  lemma ListingUnique(env: Env, naming: Naming, ev: Event, s: State)
    requires Inv(env, s) && Unique(env, naming, s) && Enabled(env, ev, s)
    requires ev.ListStart? || ev.ListPage? || ev.ListPublish? || ev.ListFail?
    ensures Unique(env, naming, Next(env, ev, s))
  {
    forall e | e in s.store && env.opts.owns.Owns(e) && !CarriesName(e, naming, env.opts)
      ensures Covered(e.id, NextLocal(env, ev, s))
    {
      InIDs(s.store, e);
      match ev
      case ListPage(page) => PagedCovers(s.local.listing.value, page, s.store, env.opts.owns, e);
      case ListPublish => CompleteCovers(s.local.listing.value, s.store, e);
      case _ =>
    }
  }

  lemma RefreshUnique(env: Env, naming: Naming, ev: Event, s: State)
    requires Inv(env, s) && Unique(env, naming, s) && Enabled(env, ev, s)
    requires ev.RefreshStart? || ev.RefreshPage? || ev.RefreshPublish? || ev.RefreshFail?
    ensures Unique(env, naming, Next(env, ev, s))
  {
    forall e | e in s.store && env.opts.owns.Owns(e) && !CarriesName(e, naming, env.opts)
      ensures Covered(e.id, NextLocal(env, ev, s))
    {
      InIDs(s.store, e);
      match ev
      case RefreshPage(page) => PagedCovers(s.local.phase.refresh, page, s.store, env.opts.owns, e);
      case RefreshPublish => CompleteCovers(s.local.phase.refresh, s.store, e);
      case _ =>
    }
  }

  // ----- every step

  lemma StepUnique(env: Env, naming: Naming, ev: Event, s: State)
    requires Tells(env.opts.key) && Inv(env, s) && Unique(env, naming, s)
    requires Enabled(env, ev, s) && Obeys(env, naming, ev)
    ensures Unique(env, naming, Next(env, ev, s))
  {
    match ev
    case LoadEntries =>
      LoadUnique(env, naming, s);
    case Execute =>
      ExecuteUnique(env, naming, s);
    case ListStart =>
      ListingUnique(env, naming, ev, s);
    case ListPage(_) =>
      ListingUnique(env, naming, ev, s);
    case ListPublish =>
      ListingUnique(env, naming, ev, s);
    case ListFail =>
      ListingUnique(env, naming, ev, s);
    case RefreshStart =>
      RefreshUnique(env, naming, ev, s);
    case RefreshPage(_) =>
      RefreshUnique(env, naming, ev, s);
    case RefreshPublish =>
      RefreshUnique(env, naming, ev, s);
    case RefreshFail =>
      RefreshUnique(env, naming, ev, s);
    case _ =>
  }

  /** The invariant holds throughout a run that starts from readable owned entries with distinct keys. */
  lemma {:induction false} RunUnique(env: Env, naming: Naming, events: seq<Event>, states: seq<State>, i: nat)
    requires Run(env, events, states) && Tells(env.opts.key)
    requires StoreGood(states[0].store, env.opts)
    requires forall ev | ev in events :: Obeys(env, naming, ev)
    requires i < |states|
    ensures Unique(env, naming, states[i])
  {
    if i > 0 {
      RunUnique(env, naming, events, states, i - 1);
      RunInv(env, events, states, i - 1);
      assert Step(env, events[i - 1], states[i - 1], states[i]);
      StepUnique(env, naming, events[i - 1], states[i - 1]);
    }
  }

  /**
   * Over every interleaving of gathers, non-atomic listings, reconciles, refreshes and other tools' writes,
   * with any pattern of lost items and with listings arbitrarily stale when they are published, no
   * two owned entries ever share a key.
   */
  lemma NoDuplicateKeys(env: Env, naming: Naming, events: seq<Event>, states: seq<State>, i: nat, a: Entry, b: Entry)
    requires Run(env, events, states) && Tells(env.opts.key)
    requires StoreGood(states[0].store, env.opts)
    requires forall ev | ev in events :: Obeys(env, naming, ev)
    requires i < |states| && a in states[i].store && b in states[i].store
    requires env.opts.owns.Owns(a) && env.opts.owns.Owns(b)
    ensures env.opts.EntryKey(a) == env.opts.EntryKey(b) ==> a == b
  {
    RunUnique(env, naming, events, states, i);
    RunInv(env, events, states, i);
    if a.id == b.id { SameID(states[i].store, a, b); }
  }
}
