/**
 * The syncer's three loops as a transition system: gathers, listings that take several steps and are
 * published whenever they finish, reconciles whose items reach the server one by one or not at all, and
 * other tools writing entries of their own in between.
 */
module Protocol {
  import opened Wrappers
  import opened Text
  import opened Entries
  import opened Reconcile
  import opened Plans
  import opened EntryServer
  import opened Stores
  import opened Progress
  import opened JobHosts
  import opened Records

  /** A listing under way: the ids it still has to come across, and the owned entries it has read. */
  datatype Listing = Listing(pending: set<string>, got: seq<Entry>)

  /**
   * Where the reconcile loop is. It loads the two snapshots one after the other; Writing keeps the job
   * snapshot it loaded and the items still to send.
   */
  datatype Phase =
    | Idle
    | Loading(loaded: Option<seq<JobHost>>)
    | Writing(hosts: seq<JobHost>, ops: seq<Op>)
    | Refreshing(refresh: Listing)

  /** One syncer. keyOf is a history variable: the key of every id that it has owned or drawn. */
  datatype Local = Local(
    jobs: Option<seq<JobHost>>,
    entries: Option<seq<Entry>>,
    listing: Option<Listing>,
    phase: Phase,
    drawn: nat,
    keyOf: map<string, string>)

  datatype Event =
    | GatherOk(hosts: seq<JobHost>)
    | GatherFail
    | ListStart
    | ListPage(page: seq<Entry>)
    | ListPublish
    | ListFail
    | LoadJobs
    | LoadEntries
    | Execute
    | Lose
    | RefreshStart
    | RefreshPage(refreshed: seq<Entry>)
    | RefreshPublish
    | RefreshFail
    | Outside(written: seq<Entry>)

  datatype Env = Env(cfg: Config, opts: Options)

  datatype State = State(store: seq<Entry>, local: Local)

  // ----- steps

  function Started(store: seq<Entry>): Listing {
    Listing(IDs(store), [])
  }

  function Paged(l: Listing, page: seq<Entry>, owns: Ownership): Listing {
    Listing(l.pending - IDs(page), l.got + Owned(page, owns))
  }

  /** A page holds entries the server has now. */
  predicate IsPage(page: seq<Entry>, store: seq<Entry>) {
    forall e | e in page :: e in store
  }

  /** A listing may end once every entry that was there throughout has been read. */
  predicate Complete(l: Listing, store: seq<Entry>) {
    l.pending !! IDs(store)
  }

  /** The plan of a reconcile that loads these snapshots. */
  function PlanOf(env: Env, hosts: seq<JobHost>, entries: seq<Entry>, drawn: nat): Plan {
    DiffPlan(DesiredFor(env.cfg, hosts), entries, env.opts, drawn)
  }

  /** The keys of newly drawn ids join the history. */
  function Record(keyOf: map<string, string>, created: seq<Entry>, opts: Options): map<string, string>
    decreases |created|
  {
    if created == [] then keyOf
    else Record(keyOf[created[0].id := opts.EntryKey(created[0])], created[1..], opts)
  }

  /** New ids were never used before. */
  ghost predicate Fresh(created: seq<Entry>, store: seq<Entry>, keyOf: map<string, string>) {
    && (forall c | c in created :: c.id !in keyOf && c.id !in IDs(store))
    && (forall i, j | 0 <= i < j < |created| :: created[i].id != created[j].id)
  }

  /** Another tool's write: owned entries stay as they are and their ids are not taken. */
  ghost predicate Legal(store: seq<Entry>, written: seq<Entry>, keyOf: map<string, string>, owns: Ownership) {
    && UniqueIDs(written)
    && (forall e: Entry | owns.Owns(e) :: e in written <==> e in store)
    && (forall id | id in IDs(written) && id !in IDs(store) :: id !in keyOf)
  }

  /** The second load and the planning that follows it, for the job snapshot that the first load found. */
  function Loaded(env: Env, local: Local): Local
    requires local.phase.Loading?
  {
    var jobs := local.phase.loaded;
    if jobs.None? || local.entries.None? then local.(phase := Idle)
    else
      var plan := PlanOf(env, jobs.value, local.entries.value, local.drawn);
      local.(
        phase := if plan.Empty() || env.cfg.dryRun then Idle else Writing(jobs.value, PlanOps(plan)),
        drawn := local.drawn + |plan.create|,
        keyOf := Record(local.keyOf, plan.create, env.opts))
  }

  ghost predicate LoadEnabled(env: Env, s: State) {
    var local := s.local;
    && local.phase.Loading?
    && (local.phase.loaded.Some? && local.entries.Some? ==>
      Fresh(PlanOf(env, local.phase.loaded.value, local.entries.value, local.drawn).create, s.store, local.keyOf))
  }

  predicate Busy(local: Local) {
    local.phase.Writing? && local.phase.ops != []
  }

  ghost predicate Enabled(env: Env, ev: Event, s: State) {
    var local := s.local;
    match ev
    case GatherOk(_) => true
    case GatherFail => true
    case ListStart => local.listing.None?
    case ListPage(page) => local.listing.Some? && IsPage(page, s.store)
    case ListPublish => local.listing.Some? && Complete(local.listing.value, s.store)
    case ListFail => local.listing.Some?
    case LoadJobs => local.phase.Idle?
    case LoadEntries => LoadEnabled(env, s)
    case Execute => Busy(local)
    case Lose => Busy(local)
    case RefreshStart => local.phase.Writing? && local.phase.ops == []
    case RefreshPage(page) => local.phase.Refreshing? && IsPage(page, s.store)
    case RefreshPublish => local.phase.Refreshing? && Complete(local.phase.refresh, s.store)
    case RefreshFail => local.phase.Refreshing?
    case Outside(written) => Legal(s.store, written, local.keyOf, env.opts.owns)
  }

  /** The store after the item in hand has reached the server, under the real server's rules. */
  function Executed(s: State): seq<Entry>
    requires Busy(s.local)
  {
    Item(ContractHook, s.store, s.local.phase.ops[0]).0
  }

  /** What the event does to the store. */
  ghost function NextStore(env: Env, ev: Event, s: State): seq<Entry>
    requires Enabled(env, ev, s)
  {
    match ev
    case Execute => Executed(s)
    case Outside(written) => written
    case _ => s.store
  }

  /** What the event does to the syncer. */
  ghost function NextLocal(env: Env, ev: Event, s: State): Local
    requires Enabled(env, ev, s)
  {
    var local := s.local;
    match ev
    case GatherOk(hosts) => local.(jobs := Some(hosts))
    case GatherFail => local
    case ListStart => local.(listing := Some(Started(s.store)))
    case ListPage(page) => local.(listing := Some(Paged(local.listing.value, page, env.opts.owns)))
    case ListPublish => local.(entries := Some(local.listing.value.got), listing := None)
    case ListFail => local.(listing := None)
    case LoadJobs => local.(phase := Loading(local.jobs))
    case LoadEntries => Loaded(env, local)
    case Execute => local.(phase := local.phase.(ops := local.phase.ops[1..]))
    case Lose => local.(phase := local.phase.(ops := local.phase.ops[1..]))
    case RefreshStart => local.(phase := Refreshing(Started(s.store)))
    case RefreshPage(page) => local.(phase := Refreshing(Paged(local.phase.refresh, page, env.opts.owns)))
    case RefreshPublish => local.(entries := Some(local.phase.refresh.got), phase := Idle)
    case RefreshFail => local.(phase := Idle)
    case Outside(_) => local
  }

  ghost function Next(env: Env, ev: Event, s: State): State
    requires Enabled(env, ev, s)
  {
    State(NextStore(env, ev, s), NextLocal(env, ev, s))
  }

  // ----- runs

  /** The syncer has just started on a store with unique ids; the history holds what it owns there. */
  ghost predicate Init(env: Env, s: State) {
    && s.local.(keyOf := map[], drawn := 0) == Local(None, None, None, Idle, 0, map[])
    && Tracked(s.store, s.local.keyOf, env.opts)
    && s.local.keyOf.Keys <= IDs(s.store)
  }

  ghost predicate Step(env: Env, ev: Event, s: State, t: State) {
    Enabled(env, ev, s) && t == Next(env, ev, s)
  }

  ghost predicate Path(env: Env, events: seq<Event>, states: seq<State>) {
    && |states| == |events| + 1
    && forall i | 0 <= i < |events| :: Step(env, events[i], states[i], states[i + 1])
  }

  ghost predicate Run(env: Env, events: seq<Event>, states: seq<State>) {
    OwnRule(env.opts) && Path(env, events, states) && Init(env, states[0])
  }

  // ----- the structural invariant

  /** The history is right about the store: it lists exactly the owned entries there, with their keys. */
  ghost predicate Tracked(store: seq<Entry>, keyOf: map<string, string>, opts: Options) {
    && UniqueIDs(store)
    && (forall e | e in store :: opts.owns.Owns(e) <==> e.id in keyOf)
    && (forall e | e in store && e.id in keyOf :: keyOf[e.id] == opts.EntryKey(e))
    && (forall id | id in keyOf :: HasPrefix(id, opts.className + "."))
  }

  /** Entries read at any time are owned and have the keys the history gives them. */
  ghost predicate Agrees(read: seq<Entry>, keyOf: map<string, string>, opts: Options) {
    forall e | e in read :: opts.owns.Owns(e) && e.id in keyOf && keyOf[e.id] == opts.EntryKey(e)
  }

  /** Why an item may be sent: creates and updates keep to the history, deletes have an unwanted key. */
  ghost predicate Justified(op: Op, keyOf: map<string, string>, wanted: set<string>, opts: Options) {
    match op
    case Create(e) => opts.owns.Owns(e) && e.id in keyOf && keyOf[e.id] == opts.EntryKey(e)
    case Update(e) => opts.owns.Owns(e) && e.id in keyOf && keyOf[e.id] == opts.EntryKey(e)
    case Delete(id) => id in keyOf && keyOf[id] !in wanted
  }

  /** Two creates of one apply differ in id and key. */
  predicate Separate(a: Op, b: Op, opts: Options) {
    a.Create? && b.Create? ==> a.entry.id != b.entry.id && opts.EntryKey(a.entry) != opts.EntryKey(b.entry)
  }

  ghost predicate Pending(ops: seq<Op>, keyOf: map<string, string>, wanted: set<string>, opts: Options)
    decreases |ops|
  {
    ops == [] ||
    (&& Justified(ops[0], keyOf, wanted, opts)
     && (forall other | other in ops[1..] :: Separate(ops[0], other, opts))
     && Pending(ops[1..], keyOf, wanted, opts))
  }

  /** The ids of creates still to be sent are not on the server. */
  ghost predicate Unsent(ops: seq<Op>, store: seq<Entry>) {
    forall op | op in ops && op.Create? :: op.entry.id !in IDs(store)
  }

  /** The keys that the loaded job snapshot implies. */
  function WantedBy(env: Env, hosts: seq<JobHost>): set<string> {
    DesiredKeys(DesiredFor(env.cfg, hosts), env.opts)
  }

  ghost predicate ListingAgrees(l: Listing, keyOf: map<string, string>, opts: Options) {
    Agrees(l.got, keyOf, opts)
  }

  ghost predicate PhaseInv(env: Env, s: State) {
    match s.local.phase
    case Idle => true
    case Loading(_) => true
    case Writing(hosts, ops) =>
      Pending(ops, s.local.keyOf, WantedBy(env, hosts), env.opts) && Unsent(ops, s.store)
    case Refreshing(l) => ListingAgrees(l, s.local.keyOf, env.opts)
  }

  ghost predicate Inv(env: Env, s: State) {
    && Tracked(s.store, s.local.keyOf, env.opts)
    && (s.local.entries.Some? ==> Agrees(s.local.entries.value, s.local.keyOf, env.opts))
    && (s.local.listing.Some? ==> ListingAgrees(s.local.listing.value, s.local.keyOf, env.opts))
    && PhaseInv(env, s)
  }

  // ----- history

  /** The history is only ever extended. */
  ghost predicate Extends(keyOf: map<string, string>, keyOf': map<string, string>) {
    forall id | id in keyOf :: id in keyOf' && keyOf'[id] == keyOf[id]
  }

  lemma {:induction false} RecordFacts(
    keyOf: map<string, string>, created: seq<Entry>, store: seq<Entry>, opts: Options)
    requires Fresh(created, store, keyOf)
    ensures var keyOf' := Record(keyOf, created, opts);
      && Extends(keyOf, keyOf')
      && (forall c | c in created :: c.id in keyOf' && keyOf'[c.id] == opts.EntryKey(c))
      && (forall id | id in keyOf' :: id in keyOf || exists c | c in created :: c.id == id)
    decreases |created|
  {
    if created != [] {
      var c, rest := created[0], created[1..];
      assert created == [c] + rest;
      RecordFacts(keyOf[c.id := opts.EntryKey(c)], rest, store, opts);
    }
  }

  lemma AgreesExtends(read: seq<Entry>, keyOf: map<string, string>, keyOf': map<string, string>, opts: Options)
    requires Agrees(read, keyOf, opts) && Extends(keyOf, keyOf')
    ensures Agrees(read, keyOf', opts)
  {
  }

  /** Owned entries of a page agree with the history. */
  lemma PageAgrees(page: seq<Entry>, store: seq<Entry>, keyOf: map<string, string>, opts: Options)
    requires Tracked(store, keyOf, opts) && IsPage(page, store)
    ensures Agrees(Owned(page, opts.owns), keyOf, opts)
  {
    OwnedMembers(page, opts.owns);
  }

  lemma PagedAgrees(l: Listing, page: seq<Entry>, store: seq<Entry>, keyOf: map<string, string>, opts: Options)
    requires Tracked(store, keyOf, opts) && IsPage(page, store) && ListingAgrees(l, keyOf, opts)
    ensures ListingAgrees(Paged(l, page, opts.owns), keyOf, opts)
  {
    PageAgrees(page, store, keyOf, opts);
  }

  // ----- loading

  /** The planner's index of entries that agree with the history. */
  lemma KnownAgrees(entries: seq<Entry>, keyOf: map<string, string>, opts: Options, k: string)
    requires Agrees(entries, keyOf, opts) && k in ByKey(entries, opts)
    ensures var e := ByKey(entries, opts)[k];
      e in entries && opts.owns.Owns(e) && opts.EntryKey(e) == k && e.id in keyOf && keyOf[e.id] == k
  {
    VisibleFacts(entries, opts);
    assert ByKey(entries, opts)[k] in Visible(entries, opts);
  }

  /** What Load needs to know of its plan. */
  ghost predicate Planned(plan: Plan, desired: seq<Desired>, entries: seq<Entry>, opts: Options) {
    && Faithful(plan, Wanted(desired, opts), ByKey(entries, opts), opts)
    && Wanted(desired, opts).Keys == DesiredKeys(desired, opts)
    && (forall c | c in plan.create :: HasPrefix(c.id, opts.className + "."))
  }

  lemma DiffPlanned(desired: seq<Desired>, entries: seq<Entry>, opts: Options, drawn: nat)
    ensures Planned(DiffPlan(desired, entries, opts, drawn), desired, entries, opts)
  {
    PlanMeaning(desired, entries, opts, drawn);
    WantedKeys(desired, opts);
    var firsts, known := Firsts(desired, {}, opts), ByKey(entries, opts);
    var created := Creates(firsts, known, opts, drawn);
    forall c | c in created ensures HasPrefix(c.id, opts.className + ".") {
      var i :| 0 <= i < |created| && created[i] == c;
      CreateIDs(firsts, known, opts, drawn, i);
    }
  }

  lemma CreateJustified(
    plan: Plan, desired: seq<Desired>, entries: seq<Entry>, keyOf: map<string, string>, opts: Options, c: Entry)
    requires Planned(plan, desired, entries, opts) && OwnRule(opts) && c in plan.create
    requires c.id in keyOf && keyOf[c.id] == opts.EntryKey(c)
    ensures Justified(Create(c), keyOf, DesiredKeys(desired, opts), opts)
  {
  }

  lemma UpdateJustified(
    plan: Plan, desired: seq<Desired>, entries: seq<Entry>, keyOf: map<string, string>, opts: Options, u: Entry)
    requires Planned(plan, desired, entries, opts) && OwnRule(opts) && Agrees(entries, keyOf, opts) && u in plan.update
    ensures Justified(Update(u), keyOf, DesiredKeys(desired, opts), opts)
  {
    KnownAgrees(entries, keyOf, opts, opts.EntryKey(u));
  }

  lemma DeleteJustified(
    plan: Plan, desired: seq<Desired>, entries: seq<Entry>, keyOf: map<string, string>, opts: Options, id: string)
    requires Planned(plan, desired, entries, opts) && Agrees(entries, keyOf, opts) && id in plan.delete
    ensures Justified(Delete(id), keyOf, DesiredKeys(desired, opts), opts)
  {
    var known := ByKey(entries, opts);
    var k :| k in known.Keys - Wanted(desired, opts).Keys && known[k].id == id;
    KnownAgrees(entries, keyOf, opts, k);
  }

  lemma {:induction false} PendingFrom(ops: seq<Op>, keyOf: map<string, string>, wanted: set<string>, opts: Options)
    requires forall op | op in ops :: Justified(op, keyOf, wanted, opts)
    requires forall i, j | 0 <= i < j < |ops| :: Separate(ops[i], ops[j], opts)
    ensures Pending(ops, keyOf, wanted, opts)
    decreases |ops|
  {
    if ops != [] {
      assert ops[0] in ops;
      assert forall op | op in ops[1..] :: op in ops;
      PendingFrom(ops[1..], keyOf, wanted, opts);
    }
  }

  /** The items of a plan are those of its three parts. */
  lemma PlanOpsMembers(plan: Plan, op: Op)
    requires op in PlanOps(plan)
    ensures match op
      case Create(c) => c in plan.create
      case Update(u) => u in plan.update
      case Delete(id) => id in plan.delete
  {
  }

  lemma PlanOpsSeparate(plan: Plan, opts: Options)
    requires DistinctKeys(plan.create, opts)
    requires forall i, j | 0 <= i < j < |plan.create| :: plan.create[i].id != plan.create[j].id
    ensures forall i, j | 0 <= i < j < |PlanOps(plan)| :: Separate(PlanOps(plan)[i], PlanOps(plan)[j], opts)
  {
    var ops := PlanOps(plan);
    PartKinds(plan);
    forall i, j | 0 <= i < j < |ops| ensures Separate(ops[i], ops[j], opts) {
      if j >= |plan.create| {
        assert ops[j] in Updating(plan.update) + Deleting(plan.delete);
      }
    }
  }

  lemma PlanPending(
    plan: Plan, desired: seq<Desired>, entries: seq<Entry>, store: seq<Entry>, keyOf: map<string, string>,
    opts: Options)
    requires Planned(plan, desired, entries, opts) && OwnRule(opts)
    requires Agrees(entries, keyOf, opts) && Fresh(plan.create, store, keyOf)
    ensures Pending(PlanOps(plan), Record(keyOf, plan.create, opts), DesiredKeys(desired, opts), opts)
    ensures Unsent(PlanOps(plan), store)
  {
    var keyOf' := Record(keyOf, plan.create, opts);
    RecordFacts(keyOf, plan.create, store, opts);
    AgreesExtends(entries, keyOf, keyOf', opts);
    forall op | op in PlanOps(plan)
      ensures Justified(op, keyOf', DesiredKeys(desired, opts), opts)
      ensures op.Create? ==> op.entry.id !in IDs(store)
    {
      PlanOpsMembers(plan, op);
      match op
      case Create(c) => CreateJustified(plan, desired, entries, keyOf', opts, c);
      case Update(u) => UpdateJustified(plan, desired, entries, keyOf', opts, u);
      case Delete(id) => DeleteJustified(plan, desired, entries, keyOf', opts, id);
    }
    PlanOpsSeparate(plan, opts);
    PendingFrom(PlanOps(plan), keyOf', DesiredKeys(desired, opts), opts);
  }

  lemma RecordTracked(
    plan: Plan, desired: seq<Desired>, entries: seq<Entry>, store: seq<Entry>, keyOf: map<string, string>,
    opts: Options)
    requires Planned(plan, desired, entries, opts)
    requires Tracked(store, keyOf, opts) && Fresh(plan.create, store, keyOf)
    ensures Tracked(store, Record(keyOf, plan.create, opts), opts)
  {
    RecordFacts(keyOf, plan.create, store, opts);
    var keyOf' := Record(keyOf, plan.create, opts);
    forall e | e in store ensures e.id in keyOf' <==> e.id in keyOf {
      assert e.id in IDs(store);
    }
  }

  /** Everything a load establishes, for the plan it makes. */
  lemma LoadFacts(
    env: Env, hosts: seq<JobHost>, entries: seq<Entry>, drawn: nat, store: seq<Entry>, keyOf: map<string, string>)
    returns (keyOf': map<string, string>)
    requires OwnRule(env.opts) && Tracked(store, keyOf, env.opts) && Agrees(entries, keyOf, env.opts)
    requires Fresh(PlanOf(env, hosts, entries, drawn).create, store, keyOf)
    ensures var plan := PlanOf(env, hosts, entries, drawn);
      && keyOf' == Record(keyOf, plan.create, env.opts)
      && Tracked(store, keyOf', env.opts) && Extends(keyOf, keyOf')
      && Pending(PlanOps(plan), keyOf', WantedBy(env, hosts), env.opts) && Unsent(PlanOps(plan), store)
  {
    var desired, plan := DesiredFor(env.cfg, hosts), PlanOf(env, hosts, entries, drawn);
    keyOf' := Record(keyOf, plan.create, env.opts);
    DiffPlanned(desired, entries, env.opts, drawn);
    PlanPending(plan, desired, entries, store, keyOf, env.opts);
    RecordTracked(plan, desired, entries, store, keyOf, env.opts);
    RecordFacts(keyOf, plan.create, store, env.opts);
  }

  lemma LoadKeeps(env: Env, s: State)
    requires OwnRule(env.opts) && Inv(env, s) && LoadEnabled(env, s)
    ensures Inv(env, State(s.store, Loaded(env, s.local)))
    ensures Extends(s.local.keyOf, Loaded(env, s.local).keyOf)
  {
    if s.local.phase.loaded.Some? && s.local.entries.Some? {
      var _ := LoadFacts(env, s.local.phase.loaded.value, s.local.entries.value, s.local.drawn, s.store, s.local.keyOf);
    }
  }

  // ----- writing

  /** What an executed item changes, for a justified item. */
  lemma ExecuteTracked(store: seq<Entry>, op: Op, keyOf: map<string, string>, wanted: set<string>, opts: Options)
    requires Tracked(store, keyOf, opts) && Justified(op, keyOf, wanted, opts)
    requires op.Create? ==> op.entry.id !in IDs(store)
    ensures var after := Item(ContractHook, store, op).0;
      && Tracked(after, keyOf, opts)
      && IDs(after) <= IDs(store) + (if op.Create? then {op.entry.id} else {})
  {
    ItemMembers(ContractHook, store, op);
  }

  lemma ExecuteKeeps(env: Env, s: State)
    requires Inv(env, s) && Busy(s.local)
    ensures Inv(env, Next(env, Execute, s))
  {
    var ops := s.local.phase.ops;
    var op := ops[0];
    assert op in ops;
    ExecuteTracked(s.store, op, s.local.keyOf, WantedBy(env, s.local.phase.hosts), env.opts);
    var after := Executed(s);
    forall other | other in ops[1..] && other.Create? ensures other.entry.id !in IDs(after) {
      assert Separate(op, other, env.opts);
    }
  }

  /** Another tool's legal write keeps the invariant. */
  lemma LegalKeeps(env: Env, s: State, written: seq<Entry>)
    requires Inv(env, s) && OwnRule(env.opts) && Legal(s.store, written, s.local.keyOf, env.opts.owns)
    ensures Inv(env, State(written, s.local))
  {
    var keyOf := s.local.keyOf;
    forall e | e in written && e.id in keyOf ensures env.opts.owns.Owns(e) {
      assert e.id in IDs(written);
      LegalOwned(env, s, written, e);
    }
    if s.local.phase.Writing? {
      forall op | op in s.local.phase.ops && op.Create? ensures op.entry.id !in IDs(written) {
        PendingAt(s.local.phase.ops, keyOf, WantedBy(env, s.local.phase.hosts), env.opts, op);
      }
    }
  }

  lemma {:induction false} PendingAt(
    ops: seq<Op>, keyOf: map<string, string>, wanted: set<string>, opts: Options, op: Op)
    requires Pending(ops, keyOf, wanted, opts) && op in ops
    ensures Justified(op, keyOf, wanted, opts)
    decreases |ops|
  {
    if op != ops[0] {
      PendingAt(ops[1..], keyOf, wanted, opts, op);
    }
  }

  /** An id in the history stays with the owned entry that holds it. */
  lemma LegalOwned(env: Env, s: State, written: seq<Entry>, e: Entry)
    requires Inv(env, s) && Legal(s.store, written, s.local.keyOf, env.opts.owns)
    requires e in written && e.id in s.local.keyOf
    ensures env.opts.owns.Owns(e)
  {
    assert e.id in IDs(written);
    assert e.id in IDs(s.store);
    var x :| x in s.store && x.id == e.id;
    assert env.opts.owns.Owns(x);
    assert x in written;
    SameID(written, x, e);
  }

  // ----- every step

  /** Every step keeps the invariant and only extends the history. */
  lemma StepKeeps(env: Env, ev: Event, s: State)
    requires OwnRule(env.opts) && Inv(env, s) && Enabled(env, ev, s)
    ensures Inv(env, Next(env, ev, s))
    ensures Extends(s.local.keyOf, Next(env, ev, s).local.keyOf)
  {
    match ev
    case ListPage(page) =>
      PagedAgrees(s.local.listing.value, page, s.store, s.local.keyOf, env.opts);
    case LoadEntries =>
      LoadKeeps(env, s);
    case Execute =>
      ExecuteKeeps(env, s);
    case RefreshPage(page) =>
      PagedAgrees(s.local.phase.refresh, page, s.store, s.local.keyOf, env.opts);
    case Outside(written) =>
      LegalKeeps(env, s, written);
    case _ =>
  }

  lemma {:induction false} RunInv(env: Env, events: seq<Event>, states: seq<State>, i: nat)
    requires Run(env, events, states) && i < |states|
    ensures Inv(env, states[i])
  {
    if i > 0 {
      RunInv(env, events, states, i - 1);
      assert Step(env, events[i - 1], states[i - 1], states[i]);
      StepKeeps(env, events[i - 1], states[i - 1]);
    }
  }

  lemma {:induction false} HistoryGrows(env: Env, events: seq<Event>, states: seq<State>, i: nat, j: nat)
    requires Run(env, events, states) && i <= j < |states|
    ensures Extends(states[i].local.keyOf, states[j].local.keyOf)
    decreases j - i
  {
    if i < j {
      RunInv(env, events, states, i);
      assert Step(env, events[i], states[i], states[i + 1]);
      StepKeeps(env, events[i], states[i]);
      HistoryGrows(env, events, states, i + 1, j);
    }
  }

  /**
   * In every run the key of an owned id never changes: an owned entry and a later one with its id
   * have the same key, and the later one is owned too.
   */
  lemma KeyNeverChanges(env: Env, events: seq<Event>, states: seq<State>, i: nat, j: nat, e: Entry, f: Entry)
    requires Run(env, events, states) && i <= j < |states|
    requires e in states[i].store && env.opts.owns.Owns(e)
    requires f in states[j].store && f.id == e.id
    ensures env.opts.owns.Owns(f) && env.opts.EntryKey(f) == env.opts.EntryKey(e)
  {
    RunInv(env, events, states, i);
    RunInv(env, events, states, j);
    HistoryGrows(env, events, states, i, j);
  }

  lemma OthersRemoveNothing(env: Env, ev: Event, s: State, e: Entry)
    requires Enabled(env, ev, s) && !ev.Execute? && e in s.store && env.opts.owns.Owns(e)
    ensures e in NextStore(env, ev, s)
  {
  }

  lemma RemovedByDelete(store: seq<Entry>, op: Op, e: Entry)
    requires UniqueIDs(store) && (op.Create? ==> op.entry.id !in IDs(store))
    requires e in store && e.id !in IDs(Item(ContractHook, store, op).0)
    ensures op == Delete(e.id)
  {
    ItemMembers(ContractHook, store, op);
    assert e.id in IDs(store);
    assert op.ID() != e.id ==> e in Item(ContractHook, store, op).0;
  }

  /**
   * However old the entry snapshot is, a step that removes an owned entry is a delete sent by a
   * reconcile whose loaded job snapshot does not imply the key of that entry.
   */
  lemma NoWantedDelete(env: Env, events: seq<Event>, states: seq<State>, i: nat, e: Entry)
    requires Run(env, events, states) && i < |events|
    requires e in states[i].store && env.opts.owns.Owns(e) && e.id !in IDs(states[i + 1].store)
    ensures events[i].Execute? && states[i].local.phase.ops[0] == Delete(e.id)
    ensures env.opts.EntryKey(e) !in WantedBy(env, states[i].local.phase.hosts)
  {
    var s := states[i];
    assert Step(env, events[i], s, states[i + 1]);
    RunInv(env, events, states, i);
    if !events[i].Execute? {
      OthersRemoveNothing(env, events[i], s, e);
    }
    var ops := s.local.phase.ops;
    assert ops[0] in ops;
    RemovedByDelete(s.store, ops[0], e);
  }

  // ----- startup and outages

  /** The last successful gather among the first n events. */
  function LastGather(events: seq<Event>, n: nat): Option<seq<JobHost>>
    requires n <= |events|
  {
    if n == 0 then None
    else if events[n - 1].GatherOk? then Some(events[n - 1].hosts)
    else LastGather(events, n - 1)
  }

  /** The job snapshot is always the last good gather, through any failures. */
  lemma {:induction false} JobsAreLastGather(env: Env, events: seq<Event>, states: seq<State>, i: nat)
    requires Run(env, events, states) && i < |states|
    ensures states[i].local.jobs == LastGather(events, i)
  {
    if i > 0 {
      JobsAreLastGather(env, events, states, i - 1);
      assert Step(env, events[i - 1], states[i - 1], states[i]);
    }
  }

  predicate Publishes(ev: Event) {
    ev.ListPublish? || ev.RefreshPublish?
  }

  /** Nothing but a finished listing changes the entry snapshot, and none clears it. */
  lemma EntriesChange(env: Env, ev: Event, s: State, t: State)
    requires Step(env, ev, s, t)
    ensures t.local.entries != s.local.entries ==> Publishes(ev)
    ensures Publishes(ev) ==> t.local.entries.Some?
    ensures s.local.entries.Some? ==> t.local.entries.Some?
  {
  }

  /** A reconcile past its guard has both snapshots; one that has loaded a job snapshot has that. */
  ghost predicate HasBoth(s: State) {
    match s.local.phase
    case Idle => true
    case Loading(loaded) => loaded.Some? ==> s.local.jobs.Some?
    case _ => s.local.jobs.Some? && s.local.entries.Some?
  }

  lemma {:induction false} RunHasBoth(env: Env, events: seq<Event>, states: seq<State>, i: nat)
    requires Run(env, events, states) && i < |states|
    ensures HasBoth(states[i])
    ensures states[i].local.jobs.Some? ==> exists g | 0 <= g < i :: events[g].GatherOk?
    ensures states[i].local.entries.Some? ==> exists p | 0 <= p < i :: Publishes(events[p])
  {
    if i > 0 {
      RunHasBoth(env, events, states, i - 1);
      assert Step(env, events[i - 1], states[i - 1], states[i]);
      EntriesChange(env, events[i - 1], states[i - 1], states[i]);
    }
  }

  /** The syncer writes at this step. */
  ghost predicate Writes(s: State, t: State, ev: Event) {
    t.store != s.store && !ev.Outside?
  }

  /**
   * Startup safety: before a write there was a successful gather and a successful listing, and
   * with dry run set there is no write at all.
   */
  lemma NoEarlyWrite(env: Env, events: seq<Event>, states: seq<State>, i: nat)
    requires Run(env, events, states) && i < |events|
    requires Writes(states[i], states[i + 1], events[i])
    ensures events[i].Execute? && !env.cfg.dryRun
    ensures exists g | 0 <= g < i :: events[g].GatherOk?
    ensures exists p | 0 <= p < i :: Publishes(events[p])
  {
    assert Step(env, events[i], states[i], states[i + 1]);
    RunHasBoth(env, events, states, i);
    if env.cfg.dryRun { DryRunOnlyPlans(env, events, states, i); }
  }

  lemma {:induction false} DryRunOnlyPlans(env: Env, events: seq<Event>, states: seq<State>, i: nat)
    requires Run(env, events, states) && i < |states| && env.cfg.dryRun
    ensures states[i].local.phase.Idle? || states[i].local.phase.Loading?
  {
    if i > 0 {
      DryRunOnlyPlans(env, events, states, i - 1);
      assert Step(env, events[i - 1], states[i - 1], states[i]);
    }
  }

  /** The job snapshot that a reconcile has loaded. */
  function InHand(local: Local): Option<seq<JobHost>> {
    match local.phase
    case Loading(loaded) => loaded
    case Writing(hosts, _) => Some(hosts)
    case _ => None
  }

  /** The job snapshot a reconcile is working from is the last good gather of the moment it was loaded. */
  lemma {:induction false} LoadedIsLastGather(env: Env, events: seq<Event>, states: seq<State>, i: nat)
    requires Run(env, events, states) && i < |states| && InHand(states[i].local).Some?
    ensures exists m | 0 <= m < i :: events[m].LoadJobs? && LastGather(events, m) == InHand(states[i].local)
  {
    if i > 0 {
      var s, t := states[i - 1], states[i];
      assert Step(env, events[i - 1], s, t);
      JobsAreLastGather(env, events, states, i - 1);
      if !events[i - 1].LoadJobs? {
        assert InHand(s.local) == InHand(t.local);
        LoadedIsLastGather(env, events, states, i - 1);
      }
    }
  }
}
