/** What a published entry snapshot says about the server, in every run: nothing unseen, nothing lasting left out. */
module Listings {
  import opened Wrappers
  import opened Entries
  import opened EntryServer
  import opened Stores
  import opened Progress
  import opened Protocol

  /** The two places a listing runs: the list loop, and the end of an apply. */
  datatype Place = InLoop | AfterApply

  /** The listing under way there. */
  function Reading(local: Local, at: Place): Option<Listing> {
    match at
    case InLoop => local.listing
    case AfterApply => if local.phase.Refreshing? then Some(local.phase.refresh) else None
  }

  predicate Starts(ev: Event, at: Place) {
    if at.InLoop? then ev.ListStart? else ev.RefreshStart?
  }

  predicate PublishesAt(ev: Event, at: Place) {
    if at.InLoop? then ev.ListPublish? else ev.RefreshPublish?
  }

  predicate Fails(ev: Event, at: Place) {
    if at.InLoop? then ev.ListFail? else ev.RefreshFail?
  }

  /** A listing that starts with event s goes on up to event i: none starts, fails or is published in between. */
  ghost predicate Underway(events: seq<Event>, at: Place, s: nat, i: nat) {
    && s < i <= |events| && Starts(events[s], at)
    && forall j | s < j < i :: !Starts(events[j], at) && !Fails(events[j], at) && !PublishesAt(events[j], at)
  }

  /** The entry was on the server at some time from state s to state i. */
  ghost predicate WasThere(states: seq<State>, s: nat, i: nat, e: Entry) {
    exists m | s <= m <= i && m < |states| :: e in states[m].store
  }

  /** The entry was on the server all the time from state s to state i. */
  ghost predicate Lasted(states: seq<State>, s: nat, i: nat, e: Entry) {
    forall m | s <= m <= i && m < |states| :: e in states[m].store
  }

  /** What a listing has read by state i: entries that were there, and of those that lasted all but the pending ones. */
  ghost predicate ReadRight(env: Env, states: seq<State>, s: nat, i: nat, l: Listing) {
    && (forall e | e in l.got :: env.opts.owns.Owns(e) && WasThere(states, s, i, e))
    && (forall e | env.opts.owns.Owns(e) && Lasted(states, s, i, e) :: e.id in l.pending || e in l.got)
  }

  lemma ReadNothing(env: Env, states: seq<State>, s: nat, i: nat)
    requires s < i < |states|
    ensures ReadRight(env, states, s, i, Started(states[s].store))
  {
    forall e | Lasted(states, s, i, e) ensures e.id in IDs(states[s].store) {
      assert e in states[s].store;
    }
  }

  /** Time passes. */
  lemma ReadLater(env: Env, states: seq<State>, s: nat, i: nat, l: Listing)
    requires ReadRight(env, states, s, i, l) && i + 1 < |states|
    ensures ReadRight(env, states, s, i + 1, l)
  {
    forall e | WasThere(states, s, i, e) ensures WasThere(states, s, i + 1, e) {
      var m :| s <= m <= i && m < |states| && e in states[m].store;
      assert s <= m <= i + 1;
    }
    forall e | Lasted(states, s, i + 1, e) ensures Lasted(states, s, i, e) {
    }
  }

  /** One page more, of entries that are there now. */
  lemma ReadPage(env: Env, states: seq<State>, s: nat, i: nat, l: Listing, page: seq<Entry>)
    requires ReadRight(env, states, s, i, l) && s <= i < |states|
    requires IsPage(page, states[i].store) && UniqueIDs(states[i].store)
    ensures ReadRight(env, states, s, i, Paged(l, page, env.opts.owns))
  {
    var owns := env.opts.owns;
    OwnedMembers(page, owns);
    forall e | e in page ensures WasThere(states, s, i, e) {
      assert e in states[i].store;
    }
    forall e | owns.Owns(e) && Lasted(states, s, i, e) && e.id in IDs(page) ensures e in Owned(page, owns) {
      var x :| x in page && x.id == e.id;
      assert e in states[i].store;
      SameID(states[i].store, x, e);
    }
  }

  /** The page that an event adds to the listing there, if it adds one. */
  function PageAdded(ev: Event, at: Place): Option<seq<Entry>> {
    match (ev, at)
    case (ListPage(page), InLoop) => Some(page)
    case (RefreshPage(page), AfterApply) => Some(page)
    case _ => None
  }

  /** A listing that goes on over a step: it is as it was, or one page longer. */
  lemma ReadingStep(env: Env, ev: Event, s: State, t: State, at: Place)
    requires Step(env, ev, s, t) && Reading(t.local, at).Some? && !Starts(ev, at)
    ensures !Fails(ev, at) && !PublishesAt(ev, at) && Reading(s.local, at).Some?
    ensures PageAdded(ev, at).None? ==> Reading(t.local, at) == Reading(s.local, at)
    ensures PageAdded(ev, at).Some? ==>
      && IsPage(PageAdded(ev, at).value, s.store)
      && Reading(t.local, at).value == Paged(Reading(s.local, at).value, PageAdded(ev, at).value, env.opts.owns)
  {
    if at.InLoop? { LoopStep(env, ev, s, t); } else { RefreshStep(env, ev, s, t); }
  }

  lemma LoopStep(env: Env, ev: Event, s: State, t: State)
    requires Step(env, ev, s, t) && t.local.listing.Some? && !ev.ListStart?
    ensures !ev.ListFail? && !ev.ListPublish? && s.local.listing.Some?
    ensures !ev.ListPage? ==> t.local.listing == s.local.listing
    ensures ev.ListPage? ==>
      IsPage(ev.page, s.store) && t.local.listing.value == Paged(s.local.listing.value, ev.page, env.opts.owns)
  {
  }

  lemma RefreshStep(env: Env, ev: Event, s: State, t: State)
    requires Step(env, ev, s, t) && t.local.phase.Refreshing? && !ev.RefreshStart?
    ensures !ev.RefreshFail? && !ev.RefreshPublish? && s.local.phase.Refreshing?
    ensures !ev.RefreshPage? ==> t.local.phase == s.local.phase
    ensures ev.RefreshPage? ==>
      && IsPage(ev.refreshed, s.store)
      && t.local.phase.refresh == Paged(s.local.phase.refresh, ev.refreshed, env.opts.owns)
  {
  }

  lemma StartStep(env: Env, ev: Event, s: State, t: State, at: Place)
    requires Step(env, ev, s, t) && Starts(ev, at)
    ensures Reading(t.local, at) == Some(Started(s.store))
  {
  }

  /** One step of a listing that goes on. */
  lemma ReadStep(env: Env, events: seq<Event>, states: seq<State>, at: Place, s: nat, i: nat)
    requires Run(env, events, states) && s <= i < |events| && !Starts(events[i], at)
    requires Reading(states[i + 1].local, at).Some?
    requires Reading(states[i].local, at).Some? ==> ReadRight(env, states, s, i, Reading(states[i].local, at).value)
    ensures ReadRight(env, states, s, i + 1, Reading(states[i + 1].local, at).value)
  {
    assert Step(env, events[i], states[i], states[i + 1]);
    ReadingStep(env, events[i], states[i], states[i + 1], at);
    var l, page := Reading(states[i].local, at).value, PageAdded(events[i], at);
    if page.Some? {
      RunInv(env, events, states, i);
      ReadPage(env, states, s, i, l, page.value);
      ReadLater(env, states, s, i, Paged(l, page.value, env.opts.owns));
    } else {
      ReadLater(env, states, s, i, l);
    }
  }

  lemma {:induction false} ReadingRight(env: Env, events: seq<Event>, states: seq<State>, at: Place, i: nat)
    returns (s: nat)
    requires Run(env, events, states) && i < |states| && Reading(states[i].local, at).Some?
    ensures Underway(events, at, s, i)
    ensures ReadRight(env, states, s, i, Reading(states[i].local, at).value)
  {
    assert i > 0;
    assert Step(env, events[i - 1], states[i - 1], states[i]);
    if Starts(events[i - 1], at) {
      s := i - 1;
      StartStep(env, events[i - 1], states[i - 1], states[i], at);
      ReadNothing(env, states, s, i);
    } else {
      ReadingStep(env, events[i - 1], states[i - 1], states[i], at);
      s := ReadingRight(env, events, states, at, i - 1);
      ReadStep(env, events, states, at, s, i - 1);
    }
  }

  /**
   * Every published snapshot, of the list loop or after an apply, in every run: each of its entries is owned and was on
   * the server at some time since its listing started, and each owned entry that was there all that time is in it.
   */
  lemma PublishedRight(env: Env, events: seq<Event>, states: seq<State>, at: Place, i: nat)
    returns (s: nat)
    requires Run(env, events, states) && i < |events| && PublishesAt(events[i], at)
    ensures Underway(events, at, s, i)
    ensures states[i + 1].local.entries.Some?
    ensures forall e | e in states[i + 1].local.entries.value :: env.opts.owns.Owns(e) && WasThere(states, s, i, e)
    ensures forall e | env.opts.owns.Owns(e) && Lasted(states, s, i, e) :: e in states[i + 1].local.entries.value
  {
    assert Step(env, events[i], states[i], states[i + 1]);
    s := ReadingRight(env, events, states, at, i);
    var l := Reading(states[i].local, at).value;
    forall e | env.opts.owns.Owns(e) && Lasted(states, s, i, e) ensures e in l.got {
      assert e in states[i].store;
      assert e.id in IDs(states[i].store);
    }
  }
}
