/** What the counts and errors of the three writes say about the server, with every call answered. */
module Counts {
  import opened Entries
  import opened EntryServer
  import opened EntryClient
  import opened Stores
  import opened Progress

  /** How many of these entries have their id in the set. */
  function Present(entries: seq<Entry>, ids: set<string>): nat {
    if entries == [] then 0 else (if entries[0].id in ids then 1 else 0) + Present(entries[1..], ids)
  }

  lemma OnePass(hook: Hook, rpc: Transport, ops: seq<Op>, store: seq<Entry>)
    requires forall n: nat :: rpc(n).Delivered?
    ensures Written(hook, rpc, ops, store) == TallyOps(hook, ops, Tally(store, 0, 0))
  {
    BatchingTransparent(hook, rpc, ops, BATCH_SIZE, 0, Tally(store, 0, 0));
  }

  /** Whatever the server answers: OK counts, and anything but OK and AlreadyExists is an error. */
  lemma CreatesJudged(hook: Hook, rpc: Transport, creates: seq<Entry>, store: seq<Entry>)
    requires forall n: nat :: rpc(n).Delivered?
    ensures var t, replies := Written(hook, rpc, Creating(creates), store), Replies(hook, store, Creating(creates));
      && t.store == After(hook, store, Creating(creates))
      && t.count == Within(replies, {OK}) && t.errors == Beyond(replies, {OK, AlreadyExists})
  {
    OnePass(hook, rpc, Creating(creates), store);
    TallyAnswered(hook, Creating(creates), CreateKind, Tally(store, 0, 0));
  }

  /** Whatever the server answers: OK counts, and anything but OK and NotFound is an error. */
  lemma UpdatesJudged(hook: Hook, rpc: Transport, updates: seq<Entry>, store: seq<Entry>)
    requires forall n: nat :: rpc(n).Delivered?
    ensures var t, replies := Written(hook, rpc, Updating(updates), store), Replies(hook, store, Updating(updates));
      && t.store == After(hook, store, Updating(updates))
      && t.count == Within(replies, {OK}) && t.errors == Beyond(replies, {OK, NotFound})
  {
    OnePass(hook, rpc, Updating(updates), store);
    TallyAnswered(hook, Updating(updates), UpdateKind, Tally(store, 0, 0));
  }

  lemma {:induction false} BesideRest(replies: seq<Reply>, codes: set<Code>)
    ensures Within(replies, codes) + Beyond(replies, codes) == |replies|
  {
    if replies != [] { BesideRest(replies[1..], codes); }
  }

  /** Whatever the server answers: anything but OK and NotFound is an error, and all the rest counts. */
  lemma DeletesJudged(hook: Hook, rpc: Transport, ids: seq<string>, store: seq<Entry>)
    requires forall n: nat :: rpc(n).Delivered?
    ensures var t, replies := Written(hook, rpc, Deleting(ids), store), Replies(hook, store, Deleting(ids));
      && t.store == After(hook, store, Deleting(ids))
      && t.errors == Beyond(replies, {OK, NotFound}) && t.count == |ids| - t.errors
  {
    OnePass(hook, rpc, Deleting(ids), store);
    TallyAnswered(hook, Deleting(ids), DeleteKind, Tally(store, 0, 0));
    BesideRest(Replies(hook, store, Deleting(ids)), {OK, NotFound});
  }

  /** A hook that keeps a create from taking effect does not call it OK, so OK stands for one entry more. */
  lemma {:induction false} CreatesGrow(hook: Hook, creates: seq<Entry>, store: seq<Entry>)
    requires Truthful(hook)
    ensures |After(hook, store, Creating(creates))| == |store| + Within(Replies(hook, store, Creating(creates)), {OK})
    decreases |creates|
  {
    if creates != [] {
      var ops := Creating(creates);
      var after := Item(hook, store, ops[0]).0;
      assert ops[1..] == Creating(creates[1..]);
      assert Honest(hook, store, ops[0]);
      CreatesGrow(hook, creates[1..], after);
      assert Replies(hook, store, ops)[1..] == Replies(hook, after, ops[1..]);
    }
  }

  /**
   * The count is exactly the number of entries the store has grown by, and there are as many errors as there
   * are replies with a status other than OK and AlreadyExists, whichever of these the server gives.
   */
  lemma CreatesCounted(hook: Hook, rpc: Transport, creates: seq<Entry>, store: seq<Entry>)
    requires Truthful(hook) && forall n: nat :: rpc(n).Delivered?
    ensures var t := Written(hook, rpc, Creating(creates), store);
      && t.errors == Beyond(Replies(hook, store, Creating(creates)), {OK, AlreadyExists})
      && |t.store| == |store| + t.count
  {
    CreatesJudged(hook, rpc, creates, store);
    CreatesGrow(hook, creates, store);
  }

  lemma {:induction false} ContractCodes(creates: seq<Entry>, store: seq<Entry>)
    ensures Beyond(Replies(ContractHook, store, Creating(creates)), {OK, AlreadyExists}) == 0
    decreases |creates|
  {
    if creates != [] {
      var ops := Creating(creates);
      var after := Item(ContractHook, store, ops[0]).0;
      assert ops[1..] == Creating(creates[1..]);
      ContractCodes(creates[1..], after);
      assert Replies(ContractHook, store, ops)[1..] == Replies(ContractHook, after, ops[1..]);
    }
  }

  /** A server that refuses creates only for the reasons the contract names causes no error. */
  lemma ContractCreatesCounted(rpc: Transport, creates: seq<Entry>, store: seq<Entry>)
    requires forall n: nat :: rpc(n).Delivered?
    ensures var t := Written(ContractHook, rpc, Creating(creates), store);
      t.errors == 0 && |t.store| == |store| + t.count
  {
    CreatesCounted(ContractHook, rpc, creates, store);
    ContractCodes(creates, store);
  }

  lemma UpdateItem(hook: Hook, u: Entry, t: Tally)
    requires UniqueIDs(t.store) && hook(t.store, Update(u)).None?
    ensures var t' := TallyItem(hook, Update(u), t);
      && UniqueIDs(t'.store) && IDs(t'.store) == IDs(t.store) && |t'.store| == |t.store|
      && t'.errors == t.errors && t'.count == t.count + if u.id in IDs(t.store) then 1 else 0
  {
    ItemMembers(hook, t.store, Update(u));
    FindFacts(t.store, u.id);
  }

  lemma {:induction false} UpdatesTally(hook: Hook, updates: seq<Entry>, t: Tally)
    requires UniqueIDs(t.store) && LetsThrough(hook)
    ensures var t' := TallyOps(hook, Updating(updates), t);
      && t'.errors == t.errors && |t'.store| == |t.store| && IDs(t'.store) == IDs(t.store)
      && t'.count == t.count + Present(updates, IDs(t.store))
    decreases |updates|
  {
    if updates != [] {
      var ops := Updating(updates);
      assert ops[1..] == Updating(updates[1..]);
      UpdateItem(hook, updates[0], t);
      UpdatesTally(hook, updates[1..], TallyItem(hook, ops[0], t));
    }
  }

  /** An update of an entry that has vanished is passed over; the count is the number of those that had not. */
  lemma UpdatesCounted(hook: Hook, rpc: Transport, updates: seq<Entry>, store: seq<Entry>)
    requires UniqueIDs(store) && LetsThrough(hook) && forall n: nat :: rpc(n).Delivered?
    ensures var t := Written(hook, rpc, Updating(updates), store);
      t.errors == 0 && t.count == Present(updates, IDs(store)) && IDs(t.store) == IDs(store) && |t.store| == |store|
  {
    OnePass(hook, rpc, Updating(updates), store);
    UpdatesTally(hook, updates, Tally(store, 0, 0));
  }

  lemma DeleteItem(hook: Hook, id: string, t: Tally)
    requires UniqueIDs(t.store) && hook(t.store, Delete(id)).None?
    ensures var t' := TallyItem(hook, Delete(id), t);
      && UniqueIDs(t'.store) && IDs(t'.store) == IDs(t.store) - {id}
      && t'.errors == t.errors && t'.count == t.count + 1
  {
    ItemMembers(hook, t.store, Delete(id));
  }

  function AllIDs(ids: seq<string>): set<string> {
    set id | id in ids
  }

  lemma AllIDsCons(ids: seq<string>)
    requires ids != []
    ensures AllIDs(ids) == {ids[0]} + AllIDs(ids[1..])
  {
    assert ids == [ids[0]] + ids[1..];
  }

  lemma {:induction false} DeletesTally(hook: Hook, ids: seq<string>, t: Tally)
    requires UniqueIDs(t.store) && LetsThrough(hook)
    ensures var t' := TallyOps(hook, Deleting(ids), t);
      && t'.errors == t.errors && t'.count == t.count + |ids|
      && IDs(t'.store) == IDs(t.store) - AllIDs(ids)
    decreases |ids|
  {
    if ids != [] {
      var ops := Deleting(ids);
      assert ops[1..] == Deleting(ids[1..]);
      DeleteItem(hook, ids[0], t);
      DeletesTally(hook, ids[1..], TallyItem(hook, ops[0], t));
      AllIDsCons(ids);
    }
  }

  /**
   * A delete reaches its end state either way: every id counts, whether or not it was there, nothing
   * is an error, and exactly the named ids are gone.
   */
  lemma DeletesCounted(hook: Hook, rpc: Transport, ids: seq<string>, store: seq<Entry>)
    requires UniqueIDs(store) && LetsThrough(hook) && forall n: nat :: rpc(n).Delivered?
    ensures var t := Written(hook, rpc, Deleting(ids), store);
      t.errors == 0 && t.count == |ids| && IDs(t.store) == IDs(store) - AllIDs(ids)
  {
    OnePass(hook, rpc, Deleting(ids), store);
    DeletesTally(hook, ids, Tally(store, 0, 0));
  }
}
