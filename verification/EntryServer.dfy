/** The Entry API server: its store, its item and batch semantics, and paged listing. */
module EntryServer {
  import opened Wrappers
  import opened Decimal
  import opened Entries

  datatype Code = OK | AlreadyExists | NotFound | Other(number: int)

  /** The per-item result of a batch call. */
  datatype Reply = Reply(code: Code, entry: Option<Entry>)

  /** One item of a batch call. */
  datatype Op = Create(entry: Entry) | Update(entry: Entry) | Delete(target: string) {
    function ID(): string {
      if Delete? then target else entry.id
    }
  }

  /**
   * Overrides the outcome of one item without touching the store, or lets it through. The
   * in-memory server's three hooks see the item only; seeing the store as well lets a hook
   * state the real server's rules.
   */
  type Hook = (seq<Entry>, Op) -> Option<Reply>

  // ----- the store

  function IDs(store: seq<Entry>): set<string> {
    set e | e in store :: e.id
  }

  ghost predicate UniqueIDs(store: seq<Entry>) {
    forall i, j | 0 <= i < j < |store| :: store[i].id != store[j].id
  }

  /** The position of the first entry with this id, or the length of the store. */
  function Find(store: seq<Entry>, id: string): (i: nat)
    ensures i <= |store|
    ensures i < |store| ==> store[i].id == id
  {
    if store == [] || store[0].id == id then 0 else 1 + Find(store[1..], id)
  }

  function RemoveAt(store: seq<Entry>, i: nat): seq<Entry>
    requires i < |store|
  {
    store[..i] + store[i + 1..]
  }

  /** What one item does to the store, and its result. */
  function Item(hook: Hook, store: seq<Entry>, op: Op): (seq<Entry>, Reply) {
    match hook(store, op)
    case Some(reply) => (store, reply)
    case None =>
      var i := Find(store, op.ID());
      match op
      case Create(e) => (store + [e], Reply(OK, Some(e)))
      case Update(e) =>
        if i < |store| then (store[i := e], Reply(OK, Some(e))) else (store, Reply(NotFound, None))
      case Delete(_) =>
        if i < |store| then (RemoveAt(store, i), Reply(OK, None)) else (store, Reply(NotFound, None))
  }

  lemma {:induction false} FindFirst(store: seq<Entry>, id: string, i: nat)
    requires i <= |store| && (forall j | 0 <= j < i :: store[j].id != id) && (i < |store| ==> store[i].id == id)
    ensures Find(store, id) == i
  {
    if i > 0 { FindFirst(store[1..], id, i - 1); }
  }

  /**
   * One item, position by position; i is where the first entry with its id is, or the length of the store. What the
   * hook answers is the result, and the store stays as it is.
   */
  lemma ItemExactly(hook: Hook, store: seq<Entry>, op: Op, i: nat)
    requires i <= |store|
    requires forall j | 0 <= j < i :: store[j].id != if op.Delete? then op.target else op.entry.id
    requires i < |store| ==> store[i].id == if op.Delete? then op.target else op.entry.id
    ensures hook(store, op).Some? ==> Item(hook, store, op) == (store, hook(store, op).value)
    ensures hook(store, op).None? && op.Create? ==>
      Item(hook, store, op) == (store + [op.entry], Reply(OK, Some(op.entry)))
    ensures hook(store, op).None? && !op.Create? && i == |store| ==>
      Item(hook, store, op) == (store, Reply(NotFound, None))
    ensures hook(store, op).None? && op.Update? && i < |store| ==>
      Item(hook, store, op) == (store[..i] + [op.entry] + store[i + 1..], Reply(OK, Some(op.entry)))
    ensures hook(store, op).None? && op.Delete? && i < |store| ==>
      Item(hook, store, op) == (store[..i] + store[i + 1..], Reply(OK, None))
  {
    FindFirst(store, op.ID(), i);
    if op.Update? && i < |store| { assert store[i := op.entry] == store[..i] + [op.entry] + store[i + 1..]; }
  }

  /** The store after a batch. */
  function After(hook: Hook, store: seq<Entry>, ops: seq<Op>): seq<Entry>
    decreases |ops|
  {
    if ops == [] then store else After(hook, Item(hook, store, ops[0]).0, ops[1..])
  }

  /** The results of a batch, one for each item. */
  function Replies(hook: Hook, store: seq<Entry>, ops: seq<Op>): (r: seq<Reply>)
    ensures |r| == |ops|
    decreases |ops|
  {
    if ops == [] then []
    else
      var (store', reply) := Item(hook, store, ops[0]);
      [reply] + Replies(hook, store', ops[1..])
  }

  /** One item moved from the batch still to do to the results. */
  lemma BatchStep(hook: Hook, store: seq<Entry>, ops: seq<Op>, i: nat, replies: seq<Reply>)
    requires i < |ops|
    ensures var (store', reply) := Item(hook, store, ops[i]);
      && After(hook, store, ops[i..]) == After(hook, store', ops[i + 1..])
      && replies + Replies(hook, store, ops[i..]) == replies + [reply] + Replies(hook, store', ops[i + 1..])
  {
    assert ops[i..][1..] == ops[i + 1..];
  }

  function Creating(entries: seq<Entry>): (r: seq<Op>)
    ensures |r| == |entries|
    ensures forall i | 0 <= i < |r| :: r[i] == Create(entries[i])
  {
    seq(|entries|, i requires 0 <= i < |entries| => Create(entries[i]))
  }

  function Updating(entries: seq<Entry>): (r: seq<Op>)
    ensures |r| == |entries|
    ensures forall i | 0 <= i < |r| :: r[i] == Update(entries[i])
  {
    seq(|entries|, i requires 0 <= i < |entries| => Update(entries[i]))
  }

  function Deleting(ids: seq<string>): (r: seq<Op>)
    ensures |r| == |ids|
    ensures forall i | 0 <= i < |r| :: r[i] == Delete(ids[i])
  {
    seq(|ids|, i requires 0 <= i < |ids| => Delete(ids[i]))
  }

  // ----- the real server's rules

  /** The same SPIFFE ID, parent and selectors. */
  predicate SameIdentity(a: Entry, b: Entry) {
    a.spiffeID == b.spiffeID && a.parentID == b.parentID && multiset(a.selectors) == multiset(b.selectors)
  }

  /** The first entry with the identity of e, or the length of the store. */
  function FindIdentity(store: seq<Entry>, e: Entry): (i: nat)
    ensures i <= |store|
  {
    if store == [] || SameIdentity(store[0], e) then 0 else 1 + FindIdentity(store[1..], e)
  }

  /**
   * A create is refused when the identity is already covered, and then the covering entry comes
   * back, or when the id is taken, and then nothing does.
   */
  function ContractHook(store: seq<Entry>, op: Op): Option<Reply> {
    match op
    case Create(e) =>
      var i := FindIdentity(store, e);
      if i < |store| then Some(Reply(AlreadyExists, Some(store[i])))
      else if Find(store, e.id) < |store| then Some(Reply(AlreadyExists, None))
      else None
    case _ => None
  }

  /** A hook that stands in the way of creates at most; the real server's rules are like that. */
  ghost predicate LetsThrough(hook: Hook) {
    forall store, op: Op | !op.Create? :: hook(store, op).None?
  }

  // ----- paged listing

  datatype Page = Page(entries: seq<Entry>, nextToken: string)

  datatype ListError = Unavailable | BadToken

  /** The entries a hint filter lets through. */
  function Filtered(store: seq<Entry>, byHint: Option<string>): seq<Entry> {
    if store == [] then []
    else if byHint.Some? && store[0].hint != byHint.value then Filtered(store[1..], byHint)
    else [store[0]] + Filtered(store[1..], byHint)
  }

  /** Entry by entry, in store order: one is left out exactly when there is a filter and its hint is another. */
  lemma {:induction false} FilteredExactly(a: seq<Entry>, e: Entry, b: seq<Entry>, byHint: Option<string>)
    ensures Filtered(a + [e] + b, byHint) ==
      Filtered(a, byHint) + (if byHint == None || byHint == Some(e.hint) then [e] else []) + Filtered(b, byHint)
  {
    if a == [] {
      assert [] + [e] + b == [e] + b;
      assert ([e] + b)[1..] == b;
    } else {
      assert (a + [e] + b)[1..] == a[1..] + [e] + b;
      FilteredExactly(a[1..], e, b, byHint);
    }
  }

  /** strconv.Atoi on the tokens this server issues; anything else is refused. */
  function TokenStart(token: string): Option<nat> {
    if token == "" then Some(0)
    else if AllDigits(token) then Some(Value(token))
    else None
  }

  /** The page of all that starts at start; a page size of zero or less asks for everything. */
  function PageAt(all: seq<Entry>, start: nat, pageSize: int): Result<Page, ListError> {
    var size := if pageSize <= 0 then |all| else pageSize;
    if start > |all| then Failure(BadToken)
    else if start + size < |all| then Success(Page(all[start..start + size], Numeral(start + size)))
    else Success(Page(all[start..], ""))
  }

  /** A page is a slice; the next token leads to where it ends, and is missing only at the end. */
  lemma PageFacts(all: seq<Entry>, start: nat, pageSize: int)
    requires start <= |all|
    ensures PageAt(all, start, pageSize).Success?
    ensures var page := PageAt(all, start, pageSize).value;
      var next := start + |page.entries|;
      && next <= |all| && page.entries == all[start..next]
      && (page.nextToken == "" ==> next == |all|)
      && (page.nextToken != "" ==> start < next && TokenStart(page.nextToken) == Some(next))
  {
    var size := if pageSize <= 0 then |all| else pageSize;
    NumeralValue(start + size);
  }

  /** Pages are full but for the last one, and without a page size there is only one. */
  lemma PageFull(all: seq<Entry>, start: nat, pageSize: int)
    requires start <= |all|
    ensures var rest := |all| - start;
      |PageAt(all, start, pageSize).value.entries| == if 0 < pageSize < rest then pageSize else rest
  {
  }

  class FakeEntryServer {
    var pageSize: int
    var listErr: bool
    var hook: Hook
    var store: seq<Entry>

    constructor (pageSize: int, hook: Hook)
      ensures store == [] && this.pageSize == pageSize && this.hook == hook && !listErr
    {
      this.pageSize := pageSize;
      this.hook := hook;
      listErr := false;
      store := [];
    }

    method Seed(entries: seq<Entry>)
      modifies this`store
      ensures store == old(store) + entries
    {
      store := store + entries;
    }

    /** One page: which entries it holds, and whether and where another page follows. */
    method ListEntries(byHint: Option<string>, token: string) returns (r: Result<Page, ListError>)
      ensures r ==
        if listErr then Failure(Unavailable)
        else
          match TokenStart(token)
          case None => Failure(BadToken)
          case Some(start) => PageAt(Filtered(store, byHint), start, pageSize)
    {
      if listErr {
        return Failure(Unavailable);
      }
      var matching: seq<Entry> := [];
      var i := 0;
      while i < |store|
        invariant 0 <= i <= |store|
        invariant matching + Filtered(store[i..], byHint) == Filtered(store, byHint)
      {
        assert store[i..][1..] == store[i + 1..];
        if !(byHint.Some? && store[i].hint != byHint.value) {
          matching := matching + [store[i]];
        }
        i := i + 1;
      }
      assert matching + [] == matching;
      var parsed := TokenStart(token);
      if parsed.None? {
        return Failure(BadToken);
      }
      var start := parsed.value;
      if start > |matching| {
        return Failure(BadToken);
      }
      var size := if pageSize <= 0 then |matching| else pageSize;
      var end := if start + size < |matching| then start + size else |matching|;
      var next := if end < |matching| then Numeral(end) else "";
      return Success(Page(matching[start..end], next));
    }

    method BatchCreateEntry(entries: seq<Entry>) returns (replies: seq<Reply>)
      modifies this`store
      ensures store == After(hook, old(store), Creating(entries))
      ensures replies == Replies(hook, old(store), Creating(entries))
    {
      replies := [];
      ghost var ops := Creating(entries);
      var i := 0;
      while i < |entries|
        invariant 0 <= i <= |entries|
        invariant After(hook, store, ops[i..]) == After(hook, old(store), ops)
        invariant replies + Replies(hook, store, ops[i..]) == Replies(hook, old(store), ops)
      {
        BatchStep(hook, store, ops, i, replies);
        var reply := CreateOne(entries[i]);
        replies := replies + [reply];
        i := i + 1;
      }
      assert replies + [] == replies;
    }

    method CreateOne(e: Entry) returns (reply: Reply)
      modifies this`store
      ensures (store, reply) == Item(hook, old(store), Create(e))
    {
      var hooked := hook(store, Create(e));
      if hooked.Some? {
        return hooked.value;
      }
      store := store + [e];
      return Reply(OK, Some(e));
    }

    method BatchUpdateEntry(entries: seq<Entry>) returns (replies: seq<Reply>)
      modifies this`store
      ensures store == After(hook, old(store), Updating(entries))
      ensures replies == Replies(hook, old(store), Updating(entries))
    {
      replies := [];
      ghost var ops := Updating(entries);
      var i := 0;
      while i < |entries|
        invariant 0 <= i <= |entries|
        invariant After(hook, store, ops[i..]) == After(hook, old(store), ops)
        invariant replies + Replies(hook, store, ops[i..]) == Replies(hook, old(store), ops)
      {
        BatchStep(hook, store, ops, i, replies);
        var reply := UpdateOne(entries[i]);
        replies := replies + [reply];
        i := i + 1;
      }
      assert replies + [] == replies;
    }

    method UpdateOne(e: Entry) returns (reply: Reply)
      modifies this`store
      ensures (store, reply) == Item(hook, old(store), Update(e))
    {
      var hooked := hook(store, Update(e));
      if hooked.Some? {
        return hooked.value;
      }
      var i := Search(e.id);
      if i == |store| {
        return Reply(NotFound, None);
      }
      store := store[i := e];
      return Reply(OK, Some(e));
    }

    method BatchDeleteEntry(ids: seq<string>) returns (replies: seq<Reply>)
      modifies this`store
      ensures store == After(hook, old(store), Deleting(ids))
      ensures replies == Replies(hook, old(store), Deleting(ids))
    {
      replies := [];
      ghost var ops := Deleting(ids);
      var i := 0;
      while i < |ids|
        invariant 0 <= i <= |ids|
        invariant After(hook, store, ops[i..]) == After(hook, old(store), ops)
        invariant replies + Replies(hook, store, ops[i..]) == Replies(hook, old(store), ops)
      {
        BatchStep(hook, store, ops, i, replies);
        var reply := DeleteOne(ids[i]);
        replies := replies + [reply];
        i := i + 1;
      }
      assert replies + [] == replies;
    }

    method DeleteOne(id: string) returns (reply: Reply)
      modifies this`store
      ensures (store, reply) == Item(hook, old(store), Delete(id))
    {
      var hooked := hook(store, Delete(id));
      if hooked.Some? {
        return hooked.value;
      }
      var i := Search(id);
      if i == |store| {
        return Reply(NotFound, None);
      }
      store := RemoveAt(store, i);
      return Reply(OK, None);
    }

    /** The scan that update and delete make for an id. */
    method Search(id: string) returns (i: nat)
      ensures i == Find(store, id)
    {
      i := 0;
      while i < |store| && store[i].id != id
        invariant 0 <= i <= |store|
        invariant Find(store, id) == i + Find(store[i..], id)
      {
        assert store[i..][1..] == store[i + 1..];
        i := i + 1;
      }
    }
  }
}
