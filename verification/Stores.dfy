/** What single items and batches do to a store, stated by membership. */
module Stores {
  import opened Entries
  import opened EntryServer
  import opened EntryClient

  lemma {:induction false} FindFacts(store: seq<Entry>, id: string)
    ensures Find(store, id) < |store| <==> id in IDs(store)
  {
    if store != [] {
      assert store == [store[0]] + store[1..];
      if store[0].id != id {
        FindFacts(store[1..], id);
      } else {
        assert store[0] in store;
      }
    }
  }

  lemma SameID(store: seq<Entry>, a: Entry, b: Entry)
    requires UniqueIDs(store) && a in store && b in store && a.id == b.id
    ensures a == b
  {
  }

  /** Appending an entry with a new id. */
  lemma CreateMembers(store: seq<Entry>, e: Entry)
    requires UniqueIDs(store) && e.id !in IDs(store)
    ensures UniqueIDs(store + [e])
    ensures forall x :: x in store + [e] <==> x in store || x == e
    ensures IDs(store + [e]) == IDs(store) + {e.id}
  {
    forall i | 0 <= i < |store| ensures store[i].id != e.id {
      assert store[i] in store;
    }
  }

  lemma UpdateMembers(store: seq<Entry>, i: nat, e: Entry)
    requires UniqueIDs(store) && i < |store| && store[i].id == e.id
    ensures UniqueIDs(store[i := e])
    ensures forall x :: x in store[i := e] <==> (x in store && x.id != e.id) || x == e
    ensures IDs(store[i := e]) == IDs(store)
  {
    var after := store[i := e];
    assert after[i] == e;
    forall x ensures x in after <==> (x in store && x.id != e.id) || x == e {
      if x in store && x.id != e.id {
        var j :| 0 <= j < |store| && store[j] == x;
        assert after[j] == x;
      }
    }
    forall id ensures id in IDs(after) <==> id in IDs(store) {
      if id == e.id {
        assert store[i] in store;
      }
    }
  }

  lemma RemoveAtMembers(store: seq<Entry>, i: nat, x: Entry)
    requires UniqueIDs(store) && i < |store|
    ensures x in RemoveAt(store, i) <==> x in store && x.id != store[i].id
  {
    assert store == store[..i] + [store[i]] + store[i + 1..];
    if x in store[..i] {
      var j :| 0 <= j < i && store[j] == x;
    }
    if x in store[i + 1..] {
      var j :| i + 1 <= j < |store| && store[j] == x;
    }
  }

  lemma RemoveMembers(store: seq<Entry>, i: nat)
    requires UniqueIDs(store) && i < |store|
    ensures UniqueIDs(RemoveAt(store, i))
    ensures forall x :: x in RemoveAt(store, i) <==> x in store && x.id != store[i].id
    ensures IDs(RemoveAt(store, i)) == IDs(store) - {store[i].id}
  {
    forall x ensures x in RemoveAt(store, i) <==> x in store && x.id != store[i].id {
      RemoveAtMembers(store, i, x);
    }
  }

  /** What an item does when it is let through, and that it does nothing to entries with other ids. */
  lemma ItemMembers(hook: Hook, store: seq<Entry>, op: Op)
    requires UniqueIDs(store)
    requires op.Create? ==> op.entry.id !in IDs(store)
    ensures var after := Item(hook, store, op).0;
      && UniqueIDs(after)
      && (forall x: Entry | x.id != op.ID() :: x in after <==> x in store)
      && (hook(store, op).Some? ==> after == store)
      && (hook(store, op).None? ==>
        && (op.Create? ==>
          (forall x :: x in after <==> x in store || x == op.entry) && IDs(after) == IDs(store) + {op.entry.id})
        && (op.Update? && op.entry.id in IDs(store) ==>
          (forall x :: x in after <==> (x in store && x.id != op.entry.id) || x == op.entry)
          && IDs(after) == IDs(store))
        && (op.Delete? && op.target in IDs(store) ==>
          (forall x :: x in after <==> x in store && x.id != op.target) && IDs(after) == IDs(store) - {op.target})
        && (!op.Create? && op.ID() !in IDs(store) ==> after == store))
    ensures hook(store, op).None? ==>
      Item(hook, store, op).1.code == if op.Create? || op.ID() in IDs(store) then OK else NotFound
  {
    if hook(store, op).None? {
      FindFacts(store, op.ID());
      var i := Find(store, op.ID());
      match op
      case Create(e) => CreateMembers(store, e);
      case Update(e) => if i < |store| { UpdateMembers(store, i, e); }
      case Delete(_) => if i < |store| { RemoveMembers(store, i); }
    }
  }

  /** The ids a batch may touch. */
  function Touched(ops: seq<Op>): set<string> {
    set op | op in ops :: op.ID()
  }

  lemma {:induction false} FindBefore(store: seq<Entry>, id: string, x: Entry)
    requires x.id != id
    ensures var i := Find(store, id);
      i < |store| ==> (x in RemoveAt(store, i) <==> x in store)
  {
    var i := Find(store, id);
    if i < |store| {
      assert store == store[..i] + [store[i]] + store[i + 1..];
    }
  }

  /** Under any hook, an item changes nothing about entries with other ids. */
  lemma ItemFrame(hook: Hook, store: seq<Entry>, op: Op, x: Entry)
    requires x.id != op.ID()
    ensures x in Item(hook, store, op).0 <==> x in store
  {
    if hook(store, op).None? {
      var i := Find(store, op.ID());
      FindBefore(store, op.ID(), x);
      if op.Update? && i < |store| {
        var after := store[i := op.entry];
        assert store == store[..i] + [store[i]] + store[i + 1..];
        assert after == store[..i] + [op.entry] + store[i + 1..];
      }
    }
  }

  /** Whatever fails and however often, a batched write never touches entries with other ids. */
  lemma {:induction false} BatchFrame(hook: Hook, store: seq<Entry>, ops: seq<Op>, x: Entry)
    requires x.id !in Touched(ops)
    ensures x in After(hook, store, ops) <==> x in store
    decreases |ops|
  {
    if ops != [] {
      assert ops[0] in ops;
      ItemFrame(hook, store, ops[0], x);
      assert forall op | op in ops[1..] :: op in ops;
      BatchFrame(hook, Item(hook, store, ops[0]).0, ops[1..], x);
    }
  }

  lemma {:induction false} ReachedWithin(rpc: Transport, chunks: seq<seq<Op>>, i: nat)
    ensures forall op | op in Concat(Reached(rpc, chunks, i)) :: op in Concat(chunks)
  {
    if chunks != [] {
      ReachedWithin(rpc, chunks[1..], i + 1);
      var later := Reached(rpc, chunks[1..], i + 1);
      if !rpc(i).Unreachable? {
        assert ([chunks[0]] + later)[1..] == later;
      } else {
        assert [] + later == later;
      }
    }
  }

  lemma WrittenFrame(hook: Hook, rpc: Transport, ops: seq<Op>, store: seq<Entry>, x: Entry)
    requires x.id !in Touched(ops)
    ensures x in Written(hook, rpc, ops, store).store <==> x in store
  {
    ChunksPartition(ops, BATCH_SIZE);
    var chunks := Chunks(ops, BATCH_SIZE);
    BatchingStore(hook, rpc, chunks, 0, Tally(store, 0, 0));
    ReachedWithin(rpc, chunks, 0);
    BatchFrame(hook, store, Concat(Reached(rpc, chunks, 0)), x);
  }

  // ----- unique ids

  /** The ids that these items would create. */
  function CreatedIDs(ops: seq<Op>): set<string> {
    set op | op in ops && op.Create? :: op.entry.id
  }

  function NewID(op: Op): set<string> {
    if op.Create? then {op.entry.id} else {}
  }

  /** No create takes an id that is taken already or by an earlier one. */
  ghost predicate FreshOps(ops: seq<Op>, taken: set<string>)
    decreases |ops|
  {
    ops == [] || (NewID(ops[0]) !! taken && FreshOps(ops[1..], taken + NewID(ops[0])))
  }

  lemma {:induction false} FreshOpsShrink(ops: seq<Op>, taken: set<string>, fewer: set<string>)
    requires FreshOps(ops, taken) && fewer <= taken
    ensures FreshOps(ops, fewer)
    decreases |ops|
  {
    if ops != [] { FreshOpsShrink(ops[1..], taken + NewID(ops[0]), fewer + NewID(ops[0])); }
  }

  lemma CreatedCons(ops: seq<Op>)
    requires ops != []
    ensures CreatedIDs(ops) == CreatedIDs(ops[1..]) + NewID(ops[0])
  {
    assert ops == [ops[0]] + ops[1..];
  }

  lemma {:induction false} FreshOpsSplit(xs: seq<Op>, ys: seq<Op>, taken: set<string>)
    ensures FreshOps(xs + ys, taken) <==> FreshOps(xs, taken) && FreshOps(ys, taken + CreatedIDs(xs))
    decreases |xs|
  {
    if xs == [] {
      assert xs + ys == ys;
      assert taken + CreatedIDs(xs) == taken;
    } else {
      assert (xs + ys)[1..] == xs[1..] + ys;
      CreatedCons(xs);
      assert taken + CreatedIDs(xs) == taken + NewID(xs[0]) + CreatedIDs(xs[1..]);
      FreshOpsSplit(xs[1..], ys, taken + NewID(xs[0]));
    }
  }

  lemma ItemUnique(hook: Hook, store: seq<Entry>, op: Op)
    requires UniqueIDs(store) && NewID(op) !! IDs(store)
    ensures UniqueIDs(Item(hook, store, op).0)
    ensures IDs(Item(hook, store, op).0) <= IDs(store) + NewID(op)
  {
    ItemMembers(hook, store, op);
  }

  /** Fresh items keep the ids unique, and add none but their own. */
  lemma {:induction false} UniqueBatch(hook: Hook, store: seq<Entry>, ops: seq<Op>)
    requires UniqueIDs(store) && FreshOps(ops, IDs(store))
    ensures UniqueIDs(After(hook, store, ops))
    ensures IDs(After(hook, store, ops)) <= IDs(store) + CreatedIDs(ops)
    decreases |ops|
  {
    if ops != [] {
      var op, after := ops[0], Item(hook, store, ops[0]).0;
      ItemUnique(hook, store, op);
      CreatedCons(ops);
      FreshOpsShrink(ops[1..], IDs(store) + NewID(op), IDs(after));
      UniqueBatch(hook, after, ops[1..]);
    }
  }

  /** Leaving out the calls that never arrive leaves the rest fresh. */
  lemma {:induction false} FreshReached(rpc: Transport, chunks: seq<seq<Op>>, i: nat, taken: set<string>)
    requires FreshOps(Concat(chunks), taken)
    ensures FreshOps(Concat(Reached(rpc, chunks, i)), taken)
    decreases |chunks|
  {
    if chunks != [] {
      var first, later := chunks[0], Reached(rpc, chunks[1..], i + 1);
      FreshOpsSplit(first, Concat(chunks[1..]), taken);
      FreshReached(rpc, chunks[1..], i + 1, taken + CreatedIDs(first));
      if rpc(i).Unreachable? {
        assert [] + later == later;
        FreshOpsShrink(Concat(later), taken + CreatedIDs(first), taken);
      } else {
        assert ([first] + later)[1..] == later;
        FreshOpsSplit(first, Concat(later), taken);
      }
    }
  }

  /** A whole write, whatever it meets, keeps the ids unique and adds none but those of its creates. */
  lemma WrittenUnique(hook: Hook, rpc: Transport, ops: seq<Op>, store: seq<Entry>)
    requires UniqueIDs(store) && FreshOps(ops, IDs(store))
    ensures var after := Written(hook, rpc, ops, store).store;
      UniqueIDs(after) && IDs(after) <= IDs(store) + CreatedIDs(ops)
  {
    ChunksPartition(ops, BATCH_SIZE);
    var chunks := Chunks(ops, BATCH_SIZE);
    BatchingStore(hook, rpc, chunks, 0, Tally(store, 0, 0));
    ReachedWithin(rpc, chunks, 0);
    FreshReached(rpc, chunks, 0, IDs(store));
    UniqueBatch(hook, store, Concat(Reached(rpc, chunks, 0)));
  }

  lemma {:induction false} FreshOthers(ops: seq<Op>, taken: set<string>)
    requires forall op | op in ops :: !op.Create?
    ensures FreshOps(ops, taken) && CreatedIDs(ops) == {}
    decreases |ops|
  {
    if ops != [] {
      assert ops[0] in ops;
      assert taken + NewID(ops[0]) == taken;
      FreshOthers(ops[1..], taken);
    }
  }

  lemma RestApart(created: seq<Entry>, taken: set<string>)
    requires created != [] && forall e | e in created :: e.id !in taken
    requires forall i, j | 0 <= i < j < |created| :: created[i].id != created[j].id
    ensures forall x | x in created[1..] :: x.id !in taken + {created[0].id}
    ensures created[0].id !in taken
  {
    assert created[0] in created;
    forall x | x in created[1..] ensures x.id !in taken + {created[0].id} {
      var i :| 1 <= i < |created| && created[i] == x;
      assert created[0].id != created[i].id && x in created;
    }
  }

  lemma IDsCons(e: Entry, rest: seq<Entry>)
    ensures IDs([e] + rest) == {e.id} + IDs(rest)
  {
  }

  lemma {:induction false} FreshCreates(created: seq<Entry>, taken: set<string>)
    requires forall e | e in created :: e.id !in taken
    requires forall i, j | 0 <= i < j < |created| :: created[i].id != created[j].id
    ensures FreshOps(Creating(created), taken) && CreatedIDs(Creating(created)) == IDs(created)
    decreases |created|
  {
    if created != [] {
      var e, rest := created[0], created[1..];
      assert Creating(created)[1..] == Creating(rest);
      CreatedCons(Creating(created));
      RestApart(created, taken);
      FreshCreates(rest, taken + {e.id});
      IDsCons(e, rest);
      assert created == [e] + rest;
    }
  }
}
