/**
 * Why a key has to determine its SPIFFE ID: otherwise a stale listing leads to two owned entries with one key.
 * Together with Uniqueness this gives the exact condition.
 */
module Staleness {
  import opened Wrappers
  import opened Entries
  import opened Reconcile
  import opened EntryServer
  import opened Progress
  import opened Convergence
  import opened JobHosts
  import opened Records
  import opened Protocol
  import opened Uniqueness

  /** The hosts that squeue may report. */
  type Hosts = JobHost -> bool

  /** Hosts whose records share a key have one SPIFFE ID. */
  ghost predicate Consistent(env: Env, world: Hosts) {
    forall a, b | world(a) && world(b) && Rendered(env.cfg, a).Some? && Rendered(env.cfg, b).Some?
      && env.opts.DesiredKey(Rendered(env.cfg, a).value) == env.opts.DesiredKey(Rendered(env.cfg, b).value) ::
      Rendered(env.cfg, a).value.spiffeID == Rendered(env.cfg, b).value.spiffeID
  }

  ghost predicate ReadableHosts(env: Env, world: Hosts) {
    forall h | world(h) && Rendered(env.cfg, h).Some? ::
      Readable(Rendered(env.cfg, h).value.parentID, Rendered(env.cfg, h).value.selectors)
  }

  ghost predicate GathersFrom(world: Hosts, events: seq<Event>) {
    forall ev | ev in events && ev.GatherOk? :: forall h | h in ev.hosts :: world(h)
  }

  /** The entry that the first plan for one host creates. */
  function Made(env: Env, h: JobHost, drawn: nat): Entry
    requires Rendered(env.cfg, h).Some?
  {
    NewEntry(Rendered(env.cfg, h).value, env.opts, drawn)
  }

  lemma MadeFacts(env: Env, h: JobHost, drawn: nat)
    requires OwnRule(env.opts) && Rendered(env.cfg, h).Some?
    ensures var e, d := Made(env, h, drawn), Rendered(env.cfg, h).value;
      && env.opts.owns.Owns(e) && env.opts.EntryKey(e) == env.opts.DesiredKey(d)
      && e.spiffeID == d.spiffeID && e.id == env.opts.className + "." + env.opts.newID(drawn)
  {
  }

  /** With an empty entry snapshot, a reconcile of one host plans one create. */
  lemma PlanForOne(env: Env, h: JobHost, drawn: nat)
    requires Rendered(env.cfg, h).Some?
    ensures var plan := PlanOf(env, [h], [], drawn);
      plan.create == [Made(env, h, drawn)] && PlanOps(plan) == [Create(Made(env, h, drawn))]
  {
    var d := Rendered(env.cfg, h).value;
    assert [h][1..] == [];
    assert DesiredFor(env.cfg, [h]) == [d];
    assert [d][1..] == [];
    assert Firsts([d], {}, env.opts) == [d];
    assert Creates([d], map[], env.opts, drawn) == [Made(env, h, drawn)];
    assert Updates([d], map[], env.opts) == [];
  }

  /** A syncer that has gathered this host, has an empty entry snapshot, and creates an entry for it. */
  lemma CreateOne(env: Env, h: JobHost, s: State) returns (picked: State, loaded: State, done: State)
    requires OwnRule(env.opts) && !env.cfg.dryRun && Rendered(env.cfg, h).Some?
    requires s.local.jobs == Some([h]) && s.local.entries == Some([]) && s.local.phase.Idle?
    requires var c := Made(env, h, s.local.drawn);
      && c.id !in s.local.keyOf && c.id !in IDs(s.store)
      && forall x | x in s.store :: !Covers(x, c)
    ensures Step(env, LoadJobs, s, picked) && Step(env, LoadEntries, picked, loaded) && Step(env, Execute, loaded, done)
    ensures loaded.store == s.store
    ensures var c := Made(env, h, s.local.drawn);
      done == State(s.store + [c], s.local.(
        phase := Writing([h], []), drawn := s.local.drawn + 1, keyOf := s.local.keyOf[c.id := env.opts.EntryKey(c)]))
  {
    var c := Made(env, h, s.local.drawn);
    PlanForOne(env, h, s.local.drawn);
    assert [c][1..] == [];
    var keyOf := s.local.keyOf[c.id := env.opts.EntryKey(c)];
    assert Record(s.local.keyOf, [c], env.opts) == keyOf;
    picked := State(s.store, s.local.(phase := Loading(Some([h]))));
    loaded := State(s.store, s.local.(phase := Writing([h], [Create(c)]), drawn := s.local.drawn + 1, keyOf := keyOf));
    ContractFresh(s.store, c);
    done := State(s.store + [c], loaded.local.(phase := Writing([h], [])));
  }

  /** One more step at the end of a path. */
  lemma Grow(env: Env, events: seq<Event>, states: seq<State>, ev: Event, t: State)
    returns (events': seq<Event>, states': seq<State>)
    requires Path(env, events, states) && Step(env, ev, states[|events|], t)
    ensures events' == events + [ev] && states' == states + [t]
    ensures Path(env, events', states') && states'[|events'|] == t && states'[0] == states[0]
  {
    events', states' := events + [ev], states + [t];
    forall i | 0 <= i < |events'| ensures Step(env, events'[i], states'[i], states'[i + 1]) {
      if i < |events| { assert Step(env, events[i], states[i], states[i + 1]); }
    }
  }

  /** A syncer whose entry snapshot is empty, with another listing of the empty server under way. */
  lemma EmptyStart(env: Env, a: JobHost) returns (events: seq<Event>, states: seq<State>)
    requires OwnRule(env.opts)
    ensures Run(env, events, states) && states[0].store == []
    ensures forall ev | ev in events :: !ev.Outside? && (ev.GatherOk? ==> ev.hosts == [a])
    ensures states[|events|] ==
      State([], Local(Some([a]), Some([]), Some(Listing({}, [])), Idle, 0, map[]))
  {
    var none: seq<Entry> := [];
    assert IDs(none) == {};
    var s0 := State([], Local(None, None, None, Idle, 0, map[]));
    var s1 := State([], s0.local.(jobs := Some([a])));
    var s2 := State([], s1.local.(listing := Some(Listing({}, []))));
    var s3 := State([], s2.local.(listing := None, entries := Some([])));
    var s4 := State([], s3.local.(listing := Some(Listing({}, []))));
    events, states := Grow(env, [], [s0], GatherOk([a]), s1);
    events, states := Grow(env, events, states, ListStart, s2);
    events, states := Grow(env, events, states, ListPublish, s3);
    events, states := Grow(env, events, states, ListStart, s4);
  }

  lemma ReadOne(env: Env, e: Entry)
    requires env.opts.owns.Owns(e)
    ensures Started([e]) == Listing({e.id}, [])
    ensures Paged(Listing({e.id}, []), [e], env.opts.owns) == Listing({}, [e])
  {
    assert IDs([e]) == {e.id};
    assert Owned([e], env.opts.owns) == [e] by { assert [e][1..] == []; }
    assert {e.id} - {e.id} == {};
  }

  lemma RefreshSteps(env: Env, e: Entry, s: State) returns (s1: State, s2: State)
    requires env.opts.owns.Owns(e) && s.store == [e] && s.local.phase.Writing? && s.local.phase.ops == []
    ensures Step(env, RefreshStart, s, s1) && Step(env, RefreshPage([e]), s1, s2)
    ensures Step(env, RefreshPublish, s2, State([e], s.local.(entries := Some([e]), phase := Idle)))
  {
    ReadOne(env, e);
    s1 := State([e], s.local.(phase := Refreshing(Listing({e.id}, []))));
    s2 := State([e], s.local.(phase := Refreshing(Listing({}, [e]))));
  }

  /** After a write the refresh publishes the new entry. */
  lemma Refresh(env: Env, e: Entry, events: seq<Event>, states: seq<State>)
    returns (events': seq<Event>, states': seq<State>)
    requires Path(env, events, states) && env.opts.owns.Owns(e)
    requires var s := states[|events|];
      s.store == [e] && s.local.phase.Writing? && s.local.phase.ops == []
    ensures events' == events + [RefreshStart, RefreshPage([e]), RefreshPublish]
    ensures Path(env, events', states') && states'[0] == states[0]
    ensures states'[|events'|] == State([e], states[|events|].local.(entries := Some([e]), phase := Idle))
  {
    var s1, s2 := RefreshSteps(env, e, states[|events|]);
    var s3 := State([e], states[|events|].local.(entries := Some([e]), phase := Idle));
    events', states' := Grow(env, events, states, RefreshStart, s1);
    events', states' := Grow(env, events', states', RefreshPage([e]), s2);
    events', states' := Grow(env, events', states', RefreshPublish, s3);
  }

  /** A listing begun when the server was empty is published over whatever is there, and jobs are gathered. */
  lemma Overwrite(env: Env, b: JobHost, events: seq<Event>, states: seq<State>)
    returns (events': seq<Event>, states': seq<State>)
    requires Path(env, events, states)
    requires states[|events|].local.listing == Some(Listing({}, []))
    ensures events' == events + [ListPublish, GatherOk([b])]
    ensures Path(env, events', states') && states'[0] == states[0]
    ensures var s := states[|events|];
      states'[|events'|] == State(s.store, s.local.(jobs := Some([b]), entries := Some([]), listing := None))
  {
    var s := states[|events|];
    var s1 := State(s.store, s.local.(entries := Some([]), listing := None));
    var s2 := State(s.store, s1.local.(jobs := Some([b])));
    events', states' := Grow(env, events, states, ListPublish, s1);
    events', states' := Grow(env, events', states', GatherOk([b]), s2);
  }

  /** CreateOne at the end of a path. */
  lemma CreateNext(env: Env, h: JobHost, events: seq<Event>, states: seq<State>)
    returns (events': seq<Event>, states': seq<State>)
    requires OwnRule(env.opts) && !env.cfg.dryRun && Rendered(env.cfg, h).Some?
    requires Path(env, events, states)
    requires var s := states[|events|];
      var c := Made(env, h, s.local.drawn);
      && s.local.jobs == Some([h]) && s.local.entries == Some([]) && s.local.phase.Idle?
      && c.id !in s.local.keyOf && c.id !in IDs(s.store)
      && forall x | x in s.store :: !Covers(x, c)
    ensures events' == events + [LoadJobs, LoadEntries, Execute]
    ensures Path(env, events', states') && states'[0] == states[0]
    ensures states'[|events| + 2].store == states[|events|].store
    ensures var s := states[|events|];
      var c := Made(env, h, s.local.drawn);
      states'[|events'|] == State(s.store + [c], s.local.(
        phase := Writing([h], []), drawn := s.local.drawn + 1, keyOf := s.local.keyOf[c.id := env.opts.EntryKey(c)]))
  {
    var picked, loaded, done := CreateOne(env, h, states[|events|]);
    events', states' := Grow(env, events, states, LoadJobs, picked);
    events', states' := Grow(env, events', states', LoadEntries, loaded);
    events', states' := Grow(env, events', states', Execute, done);
  }

  /**
   * While a listing of the empty server is still under way, the first host's entry is created and the
   * refresh publishes it; then the stale listing is published over that.
   */
  lemma StaleSnapshot(env: Env, a: JobHost, b: JobHost) returns (events: seq<Event>, states: seq<State>)
    requires OwnRule(env.opts) && !env.cfg.dryRun && Rendered(env.cfg, a).Some?
    ensures Run(env, events, states) && states[0].store == []
    ensures forall ev | ev in events && ev.GatherOk? :: ev.hosts == [a] || ev.hosts == [b]
    ensures var first := Made(env, a, 0);
      states[|events|] ==
        State([first], Local(Some([b]), Some([]), None, Idle, 1, map[first.id := env.opts.EntryKey(first)]))
  {
    var first := Made(env, a, 0);
    MadeFacts(env, a, 0);
    events, states := EmptyStart(env, a);
    events, states := CreateNext(env, a, events, states);
    assert [] + [first] == [first];
    events, states := Refresh(env, first, events, states);
    events, states := Overwrite(env, b, events, states);
  }

  lemma DrawsDiffer(env: Env, a: JobHost, b: JobHost)
    requires Rendered(env.cfg, a).Some? && Rendered(env.cfg, b).Some? && env.opts.newID(0) != env.opts.newID(1)
    ensures Made(env, a, 0).id != Made(env, b, 1).id
  {
    var first, second := Made(env, a, 0), Made(env, b, 1);
    assert first.id[|env.opts.className| + 1..] == env.opts.newID(0);
    assert second.id[|env.opts.className| + 1..] == env.opts.newID(1);
  }

  /**
   * Then the second host's entry is created too, under the same key if the two hosts share it, because the
   * server sees another SPIFFE ID.
   */
  lemma StaleRun(env: Env, a: JobHost, b: JobHost) returns (events: seq<Event>, states: seq<State>)
    requires OwnRule(env.opts) && !env.cfg.dryRun && env.opts.newID(0) != env.opts.newID(1)
    requires Rendered(env.cfg, a).Some? && Rendered(env.cfg, b).Some?
    requires Rendered(env.cfg, a).value.spiffeID != Rendered(env.cfg, b).value.spiffeID
    ensures Run(env, events, states) && states[0].store == []
    ensures forall ev | ev in events && ev.GatherOk? :: ev.hosts == [a] || ev.hosts == [b]
    ensures states[|events|].store == [Made(env, a, 0), Made(env, b, 1)]
  {
    DrawsDiffer(env, a, b);
    events, states := StaleSnapshot(env, a, b);
    events, states := CreateNext(env, b, events, states);
  }

  // ----- the exact condition

  /** No run from an empty server that gathers from this world has two owned entries with one key. */
  ghost predicate NeverDuplicates(env: Env, world: Hosts) {
    forall events, states: seq<State> |
      Run(env, events, states) && states[0].store == [] && GathersFrom(world, events) ::
      KeyUnique(states[|events|].store, env.opts)
  }

  /** The SPIFFE ID of a host with this key, if there is one. */
  ghost function NameOf(env: Env, world: Hosts, k: string): Option<SpiffeID> {
    if exists h :: world(h) && Rendered(env.cfg, h).Some? && env.opts.DesiredKey(Rendered(env.cfg, h).value) == k then
      var h :| world(h) && Rendered(env.cfg, h).Some? && env.opts.DesiredKey(Rendered(env.cfg, h).value) == k;
      Rendered(env.cfg, h).value.spiffeID
    else None
  }

  lemma ConsistentNames(env: Env, world: Hosts, naming: Naming, events: seq<Event>)
    requires Consistent(env, world) && ReadableHosts(env, world) && GathersFrom(world, events)
    requires forall k :: naming(k) == NameOf(env, world, k)
    ensures forall ev | ev in events :: Obeys(env, naming, ev)
  {
    forall ev | ev in events && ev.GatherOk? ensures Determined(env, naming, ev.hosts) {
      forall h | h in ev.hosts && Rendered(env.cfg, h).Some?
        ensures Rendered(env.cfg, h).value.spiffeID == naming(env.opts.DesiredKey(Rendered(env.cfg, h).value))
      {
        assert world(h);
      }
    }
  }

  /**
   * The exact condition: duplicates never arise from an empty server if and only if the hosts squeue may
   * report never give one key two SPIFFE IDs.
   */
  lemma DuplicatesExactly(env: Env, world: Hosts)
    requires OwnRule(env.opts) && Tells(env.opts.key) && ReadableHosts(env, world)
    requires !env.cfg.dryRun && env.opts.newID(0) != env.opts.newID(1)
    ensures NeverDuplicates(env, world) <==> Consistent(env, world)
  {
    if Consistent(env, world) {
      var naming := k => NameOf(env, world, k);
      forall events, states: seq<State> |
        Run(env, events, states) && states[0].store == [] && GathersFrom(world, events)
        ensures KeyUnique(states[|events|].store, env.opts)
      {
        ConsistentNames(env, world, naming, events);
        RunUnique(env, naming, events, states, |events|);
      }
    }
    forall a, b | world(a) && world(b) && Rendered(env.cfg, a).Some? && Rendered(env.cfg, b).Some?
      && env.opts.DesiredKey(Rendered(env.cfg, a).value) == env.opts.DesiredKey(Rendered(env.cfg, b).value)
      && Rendered(env.cfg, a).value.spiffeID != Rendered(env.cfg, b).value.spiffeID
      ensures !NeverDuplicates(env, world)
    {
      Inconsistent(env, world, a, b);
    }
  }

  lemma Inconsistent(env: Env, world: Hosts, a: JobHost, b: JobHost)
    requires OwnRule(env.opts) && !env.cfg.dryRun && env.opts.newID(0) != env.opts.newID(1)
    requires world(a) && world(b) && Rendered(env.cfg, a).Some? && Rendered(env.cfg, b).Some?
    requires env.opts.DesiredKey(Rendered(env.cfg, a).value) == env.opts.DesiredKey(Rendered(env.cfg, b).value)
    requires Rendered(env.cfg, a).value.spiffeID != Rendered(env.cfg, b).value.spiffeID
    ensures !NeverDuplicates(env, world)
  {
    var events, states := StaleRun(env, a, b);
    DrawsDiffer(env, a, b);
    MadeFacts(env, a, 0);
    MadeFacts(env, b, 1);
    var store := states[|events|].store;
    assert store[0] in store && store[1] in store;
    assert GathersFrom(world, events);
  }
}
