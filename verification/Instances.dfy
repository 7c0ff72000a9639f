/** Two syncers on one server: when they leave each other alone, and when they do not. */
module Instances {
  import opened Wrappers
  import opened Text
  import opened Sorting
  import opened Entries
  import opened Reconcile
  import opened EntryServer
  import opened Stores
  import opened Progress
  import opened JobHosts
  import opened Records
  import opened Protocol
  import opened Staleness

  // ----- prefixes

  function Prefix(className: string): string {
    className + "."
  }

  ghost predicate Disjoint(x: Env, y: Env) {
    forall e: Entry :: !(x.opts.owns.Owns(e) && y.opts.owns.Owns(e))
  }

  ghost predicate NeitherPrefix(a: string, b: string) {
    !HasPrefix(Prefix(a), Prefix(b)) && !HasPrefix(Prefix(b), Prefix(a))
  }

  lemma TwoPrefixes(s: string, p: string, q: string)
    requires HasPrefix(s, p) && HasPrefix(s, q)
    ensures HasPrefix(p, q) || HasPrefix(q, p)
  {
    if |p| <= |q| { assert q[..|p|] == s[..|p|] == p; }
    if |q| <= |p| { assert p[..|q|] == s[..|q|] == q; }
  }

  /** Some entry is owned by both exactly when the hints agree and one prefix starts with the other. */
  lemma DisjointExactly(x: Env, y: Env)
    requires OwnRule(x.opts) && OwnRule(y.opts)
    ensures Disjoint(x, y) <==> x.opts.hint != y.opts.hint || NeitherPrefix(x.opts.className, y.opts.className)
  {
    var p, q := Prefix(x.opts.className), Prefix(y.opts.className);
    if x.opts.hint == y.opts.hint && !NeitherPrefix(x.opts.className, y.opts.className) {
      var e := Entry(if HasPrefix(p, q) then p else q, None, None, [], 0, 0, x.opts.hint);
      assert x.opts.owns.Owns(e) && y.opts.owns.Owns(e);
    }
    forall e: Entry | x.opts.owns.Owns(e) && y.opts.owns.Owns(e)
      ensures x.opts.hint == y.opts.hint && !NeitherPrefix(x.opts.className, y.opts.className)
    {
      TwoPrefixes(e.id, p, q);
    }
  }

  /** One class's prefix starts with another's exactly when the names are equal or continue after a dot. */
  lemma PrefixExactly(a: string, b: string)
    ensures HasPrefix(Prefix(b), Prefix(a)) <==> a == b || HasPrefix(b, Prefix(a))
  {
    var p, q := Prefix(a), Prefix(b);
    if HasPrefix(q, p) {
      if |p| == |q| {
        assert p[..|a|] == a && q[..|b|] == b;
      } else {
        assert b == q[..|b|];
        assert b[..|p|] == q[..|p|];
      }
    }
    if HasPrefix(b, p) { assert q[..|p|] == b[..|p|]; }
  }

  /** Different names without dots never overlap. */
  lemma DotFreeApart(a: string, b: string)
    requires a != b && '.' !in a && '.' !in b
    ensures NeitherPrefix(a, b)
  {
    PrefixExactly(a, b);
    PrefixExactly(b, a);
    NoDotNoPrefix(a, b);
    NoDotNoPrefix(b, a);
  }

  lemma NoDotNoPrefix(a: string, b: string)
    requires '.' !in b
    ensures !HasPrefix(b, Prefix(a))
  {
    assert Prefix(a)[|a|] == '.';
    assert |a| < |b| ==> b[|a|] != '.';
  }

  /** Dots are allowed in class names, and then different names may overlap. */
  lemma DottedOverlap()
    ensures !NeitherPrefix("slurm", "slurm.prod")
  {
    assert Prefix("slurm.prod")[..6] == "slurm.";
  }

  // ----- two syncers

  datatype Pair = Pair(store: seq<Entry>, first: Local, second: Local)

  datatype Move = First(ev: Event) | Second(ev: Event) | Foreign(foreign: seq<Entry>)

  function ViewFirst(p: Pair): State {
    State(p.store, p.first)
  }

  function ViewSecond(p: Pair): State {
    State(p.store, p.second)
  }

  ghost predicate MoveStep(x: Env, y: Env, m: Move, p: Pair, q: Pair) {
    match m
    case First(ev) => !ev.Outside? && Step(x, ev, ViewFirst(p), ViewFirst(q)) && q.second == p.second
    case Second(ev) => !ev.Outside? && Step(y, ev, ViewSecond(p), ViewSecond(q)) && q.first == p.first
    case Foreign(written) =>
      && Legal(p.store, written, p.first.keyOf, x.opts.owns) && Legal(p.store, written, p.second.keyOf, y.opts.owns)
      && q == p.(store := written)
  }

  ghost predicate PairRun(x: Env, y: Env, moves: seq<Move>, pairs: seq<Pair>) {
    && OwnRule(x.opts) && OwnRule(y.opts)
    && |pairs| == |moves| + 1
    && Init(x, ViewFirst(pairs[0])) && Init(y, ViewSecond(pairs[0]))
    && forall i | 0 <= i < |moves| :: MoveStep(x, y, moves[i], pairs[i], pairs[i + 1])
  }

  // ----- each is just another tool to the other

  lemma OtherPrefix(keyOf: map<string, string>, store: seq<Entry>, x: Env, y: Env, id: string)
    requires Tracked(store, keyOf, x.opts) && NeitherPrefix(x.opts.className, y.opts.className)
    requires id in keyOf
    ensures !HasPrefix(id, Prefix(y.opts.className))
  {
    if HasPrefix(id, Prefix(y.opts.className)) {
      TwoPrefixes(id, Prefix(x.opts.className), Prefix(y.opts.className));
    }
  }

  /** A justified item of one syncer is a legal write for the other. */
  lemma ItemLegal(
    x: Env, y: Env, store: seq<Entry>, op: Op, keyX: map<string, string>, keyY: map<string, string>,
    wanted: set<string>)
    requires OwnRule(x.opts) && OwnRule(y.opts) && NeitherPrefix(x.opts.className, y.opts.className)
    requires Tracked(store, keyX, x.opts) && Tracked(store, keyY, y.opts)
    requires Justified(op, keyX, wanted, x.opts)
    requires op.Create? ==> op.entry.id !in IDs(store)
    ensures Legal(store, Item(ContractHook, store, op).0, keyY, y.opts.owns)
  {
    ItemMembers(ContractHook, store, op);
    OtherPrefix(keyX, store, x, y, op.ID());
    ExecuteTracked(store, op, keyX, wanted, x.opts);
  }

  lemma StepLegal(x: Env, y: Env, ev: Event, s: State, keyY: map<string, string>)
    requires OwnRule(x.opts) && OwnRule(y.opts) && NeitherPrefix(x.opts.className, y.opts.className)
    requires Inv(x, s) && Enabled(x, ev, s) && !ev.Outside?
    requires Tracked(s.store, keyY, y.opts)
    ensures Legal(s.store, NextStore(x, ev, s), keyY, y.opts.owns)
  {
    if ev.Execute? {
      var ops := s.local.phase.ops;
      assert ops[0] in ops;
      ItemLegal(x, y, s.store, ops[0], s.local.keyOf, keyY, WantedBy(x, s.local.phase.hosts));
    }
  }

  lemma NeitherSymmetric(a: string, b: string)
    requires NeitherPrefix(a, b)
    ensures NeitherPrefix(b, a)
  {
  }

  /** Both invariants, after any moves. */
  lemma MoveKeeps(x: Env, y: Env, m: Move, p: Pair, q: Pair)
    requires OwnRule(x.opts) && OwnRule(y.opts) && NeitherPrefix(x.opts.className, y.opts.className)
    requires Inv(x, ViewFirst(p)) && Inv(y, ViewSecond(p)) && MoveStep(x, y, m, p, q)
    ensures Inv(x, ViewFirst(q)) && Inv(y, ViewSecond(q))
    ensures !m.First? ==> Legal(p.store, q.store, p.first.keyOf, x.opts.owns)
    ensures !m.Second? ==> Legal(p.store, q.store, p.second.keyOf, y.opts.owns)
  {
    match m
    case First(ev) =>
      StepKeeps(x, ev, ViewFirst(p));
      StepLegal(x, y, ev, ViewFirst(p), p.second.keyOf);
      LegalKeeps(y, ViewSecond(p), q.store);
    case Second(ev) =>
      NeitherSymmetric(x.opts.className, y.opts.className);
      StepKeeps(y, ev, ViewSecond(p));
      StepLegal(y, x, ev, ViewSecond(p), p.first.keyOf);
      LegalKeeps(x, ViewFirst(p), q.store);
    case Foreign(written) =>
      LegalKeeps(x, ViewFirst(p), written);
      LegalKeeps(y, ViewSecond(p), written);
  }

  lemma {:induction false} PairInv(x: Env, y: Env, moves: seq<Move>, pairs: seq<Pair>, i: nat)
    requires PairRun(x, y, moves, pairs) && NeitherPrefix(x.opts.className, y.opts.className) && i < |pairs|
    ensures Inv(x, ViewFirst(pairs[i])) && Inv(y, ViewSecond(pairs[i]))
  {
    if i > 0 {
      PairInv(x, y, moves, pairs, i - 1);
      assert MoveStep(x, y, moves[i - 1], pairs[i - 1], pairs[i]);
      MoveKeeps(x, y, moves[i - 1], pairs[i - 1], pairs[i]);
    }
  }

  /** The first syncer's side of a run: its own events, with everything else a write by another tool. */
  function FirstEvents(moves: seq<Move>, pairs: seq<Pair>): (events: seq<Event>)
    requires |pairs| == |moves| + 1
    ensures |events| == |moves|
  {
    seq(|moves|, i requires 0 <= i < |moves| =>
      if moves[i].First? then moves[i].ev else Outside(pairs[i + 1].store))
  }

  function FirstStates(pairs: seq<Pair>): (states: seq<State>)
    ensures |states| == |pairs|
    ensures forall i | 0 <= i < |pairs| :: states[i] == ViewFirst(pairs[i])
  {
    seq(|pairs|, i requires 0 <= i < |pairs| => ViewFirst(pairs[i]))
  }

  /**
   * Seen from one syncer, a run of both is a run of one in which the other is another tool. Hence
   * everything proved of runs of one, KeyNeverChanges, NoWantedDelete and NoDuplicateKeys included, holds beside
   * a second syncer.
   */
  lemma Projection(x: Env, y: Env, moves: seq<Move>, pairs: seq<Pair>)
    requires PairRun(x, y, moves, pairs) && NeitherPrefix(x.opts.className, y.opts.className)
    ensures Run(x, FirstEvents(moves, pairs), FirstStates(pairs))
  {
    var events, states := FirstEvents(moves, pairs), FirstStates(pairs);
    forall i | 0 <= i < |events| ensures Step(x, events[i], states[i], states[i + 1]) {
      PairInv(x, y, moves, pairs, i);
      assert MoveStep(x, y, moves[i], pairs[i], pairs[i + 1]);
      MoveKeeps(x, y, moves[i], pairs[i], pairs[i + 1]);
    }
  }

  /** The second syncer never changes an entry of the first. */
  ghost predicate Respected(x: Env, y: Env) {
    forall moves: seq<Move>, pairs: seq<Pair>, i: nat, e: Entry |
      PairRun(x, y, moves, pairs) && i < |moves| && moves[i].Second? && x.opts.owns.Owns(e) ::
      e in pairs[i + 1].store <==> e in pairs[i].store
  }

  lemma NonInterference(x: Env, y: Env)
    requires NeitherPrefix(x.opts.className, y.opts.className)
    ensures Respected(x, y)
  {
    forall moves: seq<Move>, pairs: seq<Pair>, i: nat, e: Entry |
      PairRun(x, y, moves, pairs) && i < |moves| && moves[i].Second? && x.opts.owns.Owns(e)
      ensures e in pairs[i + 1].store <==> e in pairs[i].store
    {
      PairInv(x, y, moves, pairs, i);
      assert MoveStep(x, y, moves[i], pairs[i], pairs[i + 1]);
      MoveKeeps(x, y, moves[i], pairs[i], pairs[i + 1]);
    }
  }

  /** Whatever a syncer puts into the store, by a create or an update, is its own and not the other's. */
  lemma WritesOwnOnly(x: Env, y: Env, moves: seq<Move>, pairs: seq<Pair>, i: nat, e: Entry)
    requires PairRun(x, y, moves, pairs) && NeitherPrefix(x.opts.className, y.opts.className)
    requires i < |moves| && moves[i].First?
    requires e in pairs[i + 1].store && e !in pairs[i].store
    ensures x.opts.owns.Owns(e) && !y.opts.owns.Owns(e)
  {
    var s := ViewFirst(pairs[i]);
    PairInv(x, y, moves, pairs, i);
    assert MoveStep(x, y, moves[i], pairs[i], pairs[i + 1]);
    var ops := s.local.phase.ops;
    assert ops[0] in ops;
    ItemMembers(ContractHook, s.store, ops[0]);
    OtherPrefix(s.local.keyOf, s.store, x, y, e.id);
  }

  // ----- overlapping prefixes

  /** A run of one syncer alone, with the other idle. */
  lemma Lift(x: Env, y: Env, events: seq<Event>, states: seq<State>, idle: Local)
    returns (moves: seq<Move>, pairs: seq<Pair>)
    requires OwnRule(x.opts) && Run(y, events, states)
    requires Init(x, State(states[0].store, idle))
    requires forall ev | ev in events :: !ev.Outside?
    ensures PairRun(x, y, moves, pairs) && |moves| == |events|
    ensures forall i | 0 <= i < |moves| :: moves[i].Second?
    ensures forall i | 0 <= i < |pairs| :: pairs[i].store == states[i].store
  {
    moves := seq(|events|, i requires 0 <= i < |events| => Second(events[i]));
    pairs := seq(|states|, i requires 0 <= i < |states| => Pair(states[i].store, idle, states[i].local));
    forall i | 0 <= i < |moves| ensures MoveStep(x, y, moves[i], pairs[i], pairs[i + 1]) {
      assert Step(y, events[i], states[i], states[i + 1]);
      assert events[i] in events;
    }
  }

  lemma NotRespected(x: Env, y: Env, moves: seq<Move>, pairs: seq<Pair>, i: nat, e: Entry)
    requires PairRun(x, y, moves, pairs) && i < |moves| && moves[i].Second? && x.opts.owns.Owns(e)
    requires e in pairs[i + 1].store <==> e !in pairs[i].store
    ensures !Respected(x, y)
  {
  }

  lemma GatherAndCreate(y: Env, h: JobHost) returns (events: seq<Event>, states: seq<State>)
    requires OwnRule(y.opts) && !y.cfg.dryRun && Rendered(y.cfg, h).Some?
    ensures Run(y, events, states) && |events| >= 1
    ensures forall ev | ev in events :: !ev.Outside?
    ensures states[0].store == [] && states[|events| - 1].store == [] && states[|events|].store == [Made(y, h, 0)]
  {
    events, states := EmptyStart(y, h);
    assert IDs(states[|events|].store) == {};
    events, states := CreateNext(y, h, events, states);
    assert [] + [Made(y, h, 0)] == [Made(y, h, 0)];
  }

  /** A longer prefix: the second syncer puts entries among those of the first. */
  lemma CreateInterferes(x: Env, y: Env, h: JobHost)
    requires OwnRule(x.opts) && OwnRule(y.opts) && x.opts.hint == y.opts.hint
    requires HasPrefix(Prefix(y.opts.className), Prefix(x.opts.className))
    requires !y.cfg.dryRun && Rendered(y.cfg, h).Some?
    ensures !Respected(x, y)
  {
    var e := Made(y, h, 0);
    MadeFacts(y, h, 0);
    assert x.opts.owns.Owns(e);
    var events, states := GatherAndCreate(y, h);
    var moves, pairs := Lift(x, y, events, states, Local(None, None, None, Idle, 0, map[]));
    NotRespected(x, y, moves, pairs, |events| - 1, e);
  }

  /** The plan of a syncer without jobs that knows of one entry: delete it. */
  lemma PlanToDelete(y: Env, e: Entry)
    requires y.opts.owns.Owns(e)
    ensures var plan := PlanOf(y, [], [e], 0);
      plan.create == [] && PlanOps(plan) == [Delete(e.id)] && !plan.Empty()
  {
    assert [e][1..] == [];
    assert ByKey([e], y.opts) == map[y.opts.EntryKey(e) := e];
    assert Visible([e], y.opts) == [e];
    assert Surplus([e], {}, {y.opts.EntryKey(e)}, y.opts) == [e.id];
    assert map[y.opts.EntryKey(e) := e].Keys == {y.opts.EntryKey(e)};
    assert DesiredKeys([], y.opts) == {};
    assert Deletes([e], [], y.opts) == [e.id];
    assert [e.id][1..] == [];
    assert SortStrings([e.id]) == [e.id];
  }

  /** A syncer without jobs that has listed the one entry of the server. */
  lemma ListedOne(y: Env, e: Entry) returns (events: seq<Event>, states: seq<State>)
    requires OwnRule(y.opts) && y.opts.owns.Owns(e)
    ensures Run(y, events, states) && states[0].store == [e]
    ensures forall ev | ev in events :: !ev.Outside?
    ensures states[|events|] ==
      State([e], Local(Some([]), Some([e]), None, Idle, 0, map[e.id := y.opts.EntryKey(e)]))
  {
    assert IDs([e]) == {e.id};
    assert Owned([e], y.opts.owns) == [e] by { assert [e][1..] == []; }
    var s0 := State([e], Local(None, None, None, Idle, 0, map[e.id := y.opts.EntryKey(e)]));
    var s1 := State([e], s0.local.(jobs := Some([])));
    var s2 := State([e], s1.local.(listing := Some(Listing({e.id}, []))));
    var s3 := State([e], s2.local.(listing := Some(Listing({}, [e]))));
    var s4 := State([e], s3.local.(entries := Some([e]), listing := None));
    assert Paged(s2.local.listing.value, [e], y.opts.owns) == Listing({}, [e]);
    events, states := Grow(y, [], [s0], GatherOk([]), s1);
    events, states := Grow(y, events, states, ListStart, s2);
    events, states := Grow(y, events, states, ListPage([e]), s3);
    events, states := Grow(y, events, states, ListPublish, s4);
  }

  /** It deletes that entry. */
  lemma DeleteOne(y: Env, e: Entry, s: State) returns (picked: State, loaded: State, done: State)
    requires OwnRule(y.opts) && y.opts.owns.Owns(e) && !y.cfg.dryRun
    requires s == State([e], Local(Some([]), Some([e]), None, Idle, 0, map[e.id := y.opts.EntryKey(e)]))
    ensures Step(y, LoadJobs, s, picked) && Step(y, LoadEntries, picked, loaded) && Step(y, Execute, loaded, done)
    ensures loaded.store == [e] && done.store == []
  {
    PlanToDelete(y, e);
    assert RemoveAt([e], 0) == [] && Item(ContractHook, [e], Delete(e.id)).0 == [];
    assert [Delete(e.id)][1..] == [];
    picked := State([e], s.local.(phase := Loading(Some([]))));
    loaded := State([e], s.local.(phase := Writing([], [Delete(e.id)])));
    done := State([], s.local.(phase := Writing([], [])));
  }

  lemma ListAndDelete(y: Env, e: Entry) returns (events: seq<Event>, states: seq<State>)
    requires OwnRule(y.opts) && y.opts.owns.Owns(e) && !y.cfg.dryRun
    ensures Run(y, events, states) && |events| >= 1
    ensures forall ev | ev in events :: !ev.Outside?
    ensures states[0].store == [e] && states[|events| - 1].store == [e] && states[|events|].store == []
  {
    events, states := ListedOne(y, e);
    var picked, loaded, done := DeleteOne(y, e, states[|events|]);
    events, states := Grow(y, events, states, LoadJobs, picked);
    events, states := Grow(y, events, states, LoadEntries, loaded);
    events, states := Grow(y, events, states, Execute, done);
  }

  /** A shorter prefix: the second syncer deletes what the first owns. */
  lemma DeleteInterferes(x: Env, y: Env)
    requires OwnRule(x.opts) && OwnRule(y.opts) && x.opts.hint == y.opts.hint
    requires HasPrefix(Prefix(x.opts.className), Prefix(y.opts.className))
    requires !y.cfg.dryRun
    ensures !Respected(x, y)
  {
    var e := Entry(Prefix(x.opts.className), None, None, [], 0, 0, x.opts.hint);
    assert x.opts.owns.Owns(e) && y.opts.owns.Owns(e);
    var events, states := ListAndDelete(y, e);
    assert IDs([e]) == {e.id};
    var moves, pairs := Lift(x, y, events, states, Local(None, None, None, Idle, 0, map[e.id := x.opts.EntryKey(e)]));
    NotRespected(x, y, moves, pairs, |events| - 1, e);
  }

  /**
   * The exact condition. Of two syncers with one hint, the second never changes an entry of the first, in
   * any run, if and only if neither prefix starts with the other.
   */
  lemma RespectedExactly(x: Env, y: Env, h: JobHost)
    requires OwnRule(x.opts) && OwnRule(y.opts) && x.opts.hint == y.opts.hint
    requires !y.cfg.dryRun && Rendered(y.cfg, h).Some?
    ensures Respected(x, y) <==> NeitherPrefix(x.opts.className, y.opts.className)
  {
    if NeitherPrefix(x.opts.className, y.opts.className) {
      NonInterference(x, y);
    } else if HasPrefix(Prefix(y.opts.className), Prefix(x.opts.className)) {
      CreateInterferes(x, y, h);
    } else {
      DeleteInterferes(x, y);
    }
  }
}
