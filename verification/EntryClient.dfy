/** The ownership-aware Entry API client: paged listing and batched writes. */
module EntryClient {
  import opened Wrappers
  import opened Entries
  import opened EntryServer

  const BATCH_SIZE: nat := 100

  /** What becomes of one call: answered, executed with the answer lost, or never executed. */
  datatype Delivery = Delivered | ReplyLost | Unreachable

  /** The fate of each successive call. */
  type Transport = nat -> Delivery

  datatype Kind = CreateKind | UpdateKind | DeleteKind

  function KindOf(op: Op): Kind {
    match op
    case Create(_) => CreateKind
    case Update(_) => UpdateKind
    case Delete(_) => DeleteKind
  }

  /** How a per-item status is taken: counted, passed over, or reported as an error. */
  datatype Verdict = Counted | Benign | Faulty

  function Judge(kind: Kind, code: Code): Verdict {
    match (kind, code)
    case (_, OK) => Counted
    case (CreateKind, AlreadyExists) => Benign
    case (UpdateKind, NotFound) => Benign
    case (DeleteKind, NotFound) => Counted
    case _ => Faulty
  }

  // ----- the specification of a batched write

  /** Successive slices of at most size elements. */
  function Chunks<T>(s: seq<T>, size: nat): (r: seq<seq<T>>)
    requires size > 0
    decreases |s|
  {
    if s == [] then []
    else if |s| <= size then [s]
    else [s[..size]] + Chunks(s[size..], size)
  }

  function Concat<T>(chunks: seq<seq<T>>): seq<T> {
    if chunks == [] then [] else chunks[0] + Concat(chunks[1..])
  }

  /** The store with what the client has counted and the errors it has collected. */
  datatype Tally = Tally(store: seq<Entry>, count: nat, errors: nat)

  function TallyItem(hook: Hook, op: Op, t: Tally): Tally {
    var (store', reply) := Item(hook, t.store, op);
    var verdict := Judge(KindOf(op), reply.code);
    Tally(
      store',
      t.count + if verdict.Counted? then 1 else 0,
      t.errors + if verdict.Faulty? then 1 else 0)
  }

  /** One item after another. */
  function TallyOps(hook: Hook, ops: seq<Op>, t: Tally): Tally
    decreases |ops|
  {
    if ops == [] then t else TallyOps(hook, ops[1..], TallyItem(hook, ops[0], t))
  }

  /** One call. */
  function TallyCall(hook: Hook, delivery: Delivery, ops: seq<Op>, t: Tally): Tally {
    match delivery
    case Delivered => TallyOps(hook, ops, t)
    case ReplyLost => t.(store := After(hook, t.store, ops), errors := t.errors + 1)
    case Unreachable => t.(errors := t.errors + 1)
  }

  /** One call per chunk, each made whatever became of the earlier ones. */
  function TallyChunks(hook: Hook, rpc: Transport, chunks: seq<seq<Op>>, i: nat, t: Tally): Tally
    decreases |chunks|
  {
    if chunks == [] then t
    else TallyChunks(hook, rpc, chunks[1..], i + 1, TallyCall(hook, rpc(i), chunks[0], t))
  }

  /** A whole batched write. */
  function Written(hook: Hook, rpc: Transport, ops: seq<Op>, store: seq<Entry>): Tally {
    TallyChunks(hook, rpc, Chunks(ops, BATCH_SIZE), 0, Tally(store, 0, 0))
  }

  function CountVerdict(kind: Kind, replies: seq<Reply>, verdict: Verdict): nat {
    if replies == [] then 0
    else (if Judge(kind, replies[0].code) == verdict then 1 else 0) + CountVerdict(kind, replies[1..], verdict)
  }

  /** Counting the replies of a call is tallying its items. */
  lemma {:induction false} TallyReplies(hook: Hook, ops: seq<Op>, kind: Kind, t: Tally)
    requires forall op | op in ops :: KindOf(op) == kind
    ensures var replies := Replies(hook, t.store, ops);
      TallyOps(hook, ops, t) == Tally(
        After(hook, t.store, ops),
        t.count + CountVerdict(kind, replies, Counted),
        t.errors + CountVerdict(kind, replies, Faulty))
    decreases |ops|
  {
    if ops != [] {
      assert ops[0] in ops;
      var (store', reply) := Item(hook, t.store, ops[0]);
      var verdict := Judge(kind, reply.code);
      var replies := Replies(hook, t.store, ops);
      assert replies[1..] == Replies(hook, store', ops[1..]);
      TallyReplies(hook, ops[1..], kind, TallyItem(hook, ops[0], t));
    }
  }

  /** One loop step: the next chunk is the next slice. */
  lemma ChunkStep(hook: Hook, rpc: Transport, ops: seq<Op>, start: nat, size: nat, i: nat, t: Tally)
    requires start < |ops| && size > 0
    ensures var end := if start + size < |ops| then start + size else |ops|;
      TallyChunks(hook, rpc, Chunks(ops[start..], size), i, t)
      == TallyChunks(hook, rpc, Chunks(ops[end..], size), i + 1, TallyCall(hook, rpc(i), ops[start..end], t))
  {
    var end := if start + size < |ops| then start + size else |ops|;
    var s := ops[start..];
    var chunks := Chunks(s, size);
    if |s| <= size {
      assert s == ops[start..end];
      assert ops[end..] == [];
      assert chunks[1..] == [];
    } else {
      assert s[..size] == ops[start..end];
      assert s[size..] == ops[end..];
      assert chunks[1..] == Chunks(ops[end..], size);
    }
  }

  // ----- the same write, call by call

  /** How many calls a write of n items takes, at a hundred items a call. */
  function Calls(n: nat): nat {
    (n + 99) / 100
  }

  /** How many of total items the first n calls take. */
  function Sent(total: nat, n: nat): (k: nat)
    ensures k <= total
  {
    if 100 * n < total then 100 * n else total
  }

  /** The items of call i: the hundred behind those of the earlier calls, or what is left of them. */
  function CallItems(ops: seq<Op>, i: nat): seq<Op> {
    ops[Sent(|ops|, i)..Sent(|ops|, i + 1)]
  }

  /** The store that call i finds: every earlier call that got through has had its effect, answered or not. */
  function StoreAt(hook: Hook, rpc: Transport, ops: seq<Op>, store: seq<Entry>, i: nat): seq<Entry> {
    if i == 0 then store
    else
      var before := StoreAt(hook, rpc, ops, store, i - 1);
      if rpc(i - 1).Unreachable? then before else After(hook, before, CallItems(ops, i - 1))
  }

  /** The results that the first n calls bring back; a call that is not answered brings none. */
  function Answers(hook: Hook, rpc: Transport, ops: seq<Op>, store: seq<Entry>, n: nat): seq<Reply> {
    if n == 0 then []
    else
      Answers(hook, rpc, ops, store, n - 1) +
      if rpc(n - 1).Delivered? then Replies(hook, StoreAt(hook, rpc, ops, store, n - 1), CallItems(ops, n - 1)) else []
  }

  /** How many results carry one of these statuses. */
  function Within(replies: seq<Reply>, codes: set<Code>): nat {
    if replies == [] then 0 else (if replies[0].code in codes then 1 else 0) + Within(replies[1..], codes)
  }

  /** How many results carry any other status. */
  function Beyond(replies: seq<Reply>, codes: set<Code>): nat {
    if replies == [] then 0 else (if replies[0].code in codes then 0 else 1) + Beyond(replies[1..], codes)
  }

  /** The number of calls that were not answered. */
  function Failures(rpc: Transport, n: nat, i: nat): nat {
    if n == 0 then 0 else (if rpc(i).Delivered? then 0 else 1) + Failures(rpc, n - 1, i + 1)
  }

  /** The statuses that count for a kind of item. */
  function CountedCodes(kind: Kind): set<Code> {
    if kind == DeleteKind then {OK, NotFound} else {OK}
  }

  /** The statuses that are no error for a kind of item. */
  function FineCodes(kind: Kind): set<Code> {
    if kind == CreateKind then {OK, AlreadyExists} else {OK, NotFound}
  }

  lemma {:induction false} VerdictCodes(kind: Kind, replies: seq<Reply>)
    ensures CountVerdict(kind, replies, Counted) == Within(replies, CountedCodes(kind))
    ensures CountVerdict(kind, replies, Faulty) == Beyond(replies, FineCodes(kind))
  {
    if replies != [] { VerdictCodes(kind, replies[1..]); }
  }

  lemma {:induction false} CodesAppend(a: seq<Reply>, b: seq<Reply>, codes: set<Code>)
    ensures Within(a + b, codes) == Within(a, codes) + Within(b, codes)
    ensures Beyond(a + b, codes) == Beyond(a, codes) + Beyond(b, codes)
  {
    if a == [] {
      assert a + b == b;
    } else {
      assert (a + b)[1..] == a[1..] + b;
      CodesAppend(a[1..], b, codes);
    }
  }

  lemma {:induction false} FailuresSnoc(rpc: Transport, n: nat, i: nat)
    ensures Failures(rpc, n + 1, i) == Failures(rpc, n, i) + if rpc(i + n).Delivered? then 0 else 1
  {
    if n > 0 { FailuresSnoc(rpc, n - 1, i + 1); }
  }

  /** A store, with the count and the errors that these results and so many failed calls make. */
  function Judged(kind: Kind, store: seq<Entry>, answers: seq<Reply>, failures: nat): Tally {
    Tally(store, Within(answers, CountedCodes(kind)), failures + Beyond(answers, FineCodes(kind)))
  }

  /** Store, count and errors after the first n calls. */
  function TallyAt(hook: Hook, rpc: Transport, ops: seq<Op>, kind: Kind, store: seq<Entry>, n: nat): Tally {
    Judged(
      kind, StoreAt(hook, rpc, ops, store, n), Answers(hook, rpc, ops, store, n), Failures(rpc, n, 0))
  }

  /** An answered call, judged by the statuses it brings back. */
  lemma TallyAnswered(hook: Hook, ops: seq<Op>, kind: Kind, t: Tally)
    requires forall op | op in ops :: KindOf(op) == kind
    ensures var replies := Replies(hook, t.store, ops);
      TallyOps(hook, ops, t) == Tally(
        After(hook, t.store, ops),
        t.count + Within(replies, CountedCodes(kind)),
        t.errors + Beyond(replies, FineCodes(kind)))
  {
    TallyReplies(hook, ops, kind, t);
    VerdictCodes(kind, Replies(hook, t.store, ops));
  }

  lemma TallyMore(hook: Hook, ops: seq<Op>, kind: Kind, store: seq<Entry>, answers: seq<Reply>, failures: nat)
    requires forall op | op in ops :: KindOf(op) == kind
    ensures TallyOps(hook, ops, Judged(kind, store, answers, failures))
         == Judged(kind, After(hook, store, ops), answers + Replies(hook, store, ops), failures)
  {
    TallyAnswered(hook, ops, kind, Judged(kind, store, answers, failures));
    CodesAppend(answers, Replies(hook, store, ops), CountedCodes(kind));
    CodesAppend(answers, Replies(hook, store, ops), FineCodes(kind));
  }

  /** What a call adds to the tally of the calls before it. */
  lemma CallJudged(
    hook: Hook, delivery: Delivery, ops: seq<Op>, kind: Kind, store: seq<Entry>, answers: seq<Reply>, failures: nat)
    requires forall op | op in ops :: KindOf(op) == kind
    ensures TallyCall(hook, delivery, ops, Judged(kind, store, answers, failures)) ==
      Judged(
        kind,
        if delivery.Unreachable? then store else After(hook, store, ops),
        if delivery.Delivered? then answers + Replies(hook, store, ops) else answers,
        failures + if delivery.Delivered? then 0 else 1)
  {
    if delivery.Delivered? { TallyMore(hook, ops, kind, store, answers, failures); }
  }

  lemma AnswersNext(hook: Hook, rpc: Transport, ops: seq<Op>, store: seq<Entry>, n: nat)
    ensures var answers := Answers(hook, rpc, ops, store, n);
      Answers(hook, rpc, ops, store, n + 1) ==
        if rpc(n).Delivered? then answers + Replies(hook, StoreAt(hook, rpc, ops, store, n), CallItems(ops, n))
        else answers
    ensures StoreAt(hook, rpc, ops, store, n + 1) ==
      if rpc(n).Unreachable? then StoreAt(hook, rpc, ops, store, n)
      else After(hook, StoreAt(hook, rpc, ops, store, n), CallItems(ops, n))
  {
  }

  lemma TallyNext(hook: Hook, rpc: Transport, ops: seq<Op>, kind: Kind, store: seq<Entry>, n: nat)
    requires forall op | op in ops :: KindOf(op) == kind
    ensures TallyAt(hook, rpc, ops, kind, store, n + 1)
         == TallyCall(hook, rpc(n), CallItems(ops, n), TallyAt(hook, rpc, ops, kind, store, n))
  {
    FailuresSnoc(rpc, n, 0);
    AnswersNext(hook, rpc, ops, store, n);
    CallJudged(
      hook, rpc(n), CallItems(ops, n), kind, StoreAt(hook, rpc, ops, store, n), Answers(hook, rpc, ops, store, n),
      Failures(rpc, n, 0));
  }

  lemma CallStep(hook: Hook, rpc: Transport, ops: seq<Op>, n: nat, t: Tally)
    requires 100 * n < |ops|
    ensures TallyChunks(hook, rpc, Chunks(ops[Sent(|ops|, n)..], 100), n, t)
      == TallyChunks(
           hook, rpc, Chunks(ops[Sent(|ops|, n + 1)..], 100), n + 1, TallyCall(hook, rpc(n), CallItems(ops, n), t))
  {
    ChunkStep(hook, rpc, ops, 100 * n, 100, n, t);
  }

  /** The write finished from the tally of its first n calls. */
  function FinishedFrom(hook: Hook, rpc: Transport, ops: seq<Op>, kind: Kind, store: seq<Entry>, n: nat): Tally {
    TallyChunks(hook, rpc, Chunks(ops[Sent(|ops|, n)..], 100), n, TallyAt(hook, rpc, ops, kind, store, n))
  }

  lemma FinishedStep(hook: Hook, rpc: Transport, ops: seq<Op>, kind: Kind, store: seq<Entry>, n: nat)
    requires forall op | op in ops :: KindOf(op) == kind
    requires 100 * n < |ops|
    ensures FinishedFrom(hook, rpc, ops, kind, store, n) == FinishedFrom(hook, rpc, ops, kind, store, n + 1)
  {
    CallStep(hook, rpc, ops, n, TallyAt(hook, rpc, ops, kind, store, n));
    TallyNext(hook, rpc, ops, kind, store, n);
  }

  lemma {:induction false} FinishedAll(
    hook: Hook, rpc: Transport, ops: seq<Op>, kind: Kind, store: seq<Entry>, n: nat)
    requires forall op | op in ops :: KindOf(op) == kind
    requires n <= Calls(|ops|)
    ensures FinishedFrom(hook, rpc, ops, kind, store, 0) == FinishedFrom(hook, rpc, ops, kind, store, n)
  {
    if n > 0 {
      FinishedAll(hook, rpc, ops, kind, store, n - 1);
      FinishedStep(hook, rpc, ops, kind, store, n - 1);
    }
  }

  /**
   * A whole batched write, in terms of its calls: at most a hundred items each, in order, each made whatever
   * became of the earlier ones. The count is the number of results that count for the kind of item, and there is one
   * error for each call without an answer and one for each result with a status that is not fine for it.
   */
  lemma WrittenCalls(hook: Hook, rpc: Transport, ops: seq<Op>, kind: Kind, store: seq<Entry>)
    requires forall op | op in ops :: KindOf(op) == kind
    ensures Written(hook, rpc, ops, store) == TallyAt(hook, rpc, ops, kind, store, Calls(|ops|))
  {
    var n := Calls(|ops|);
    FinishedAll(hook, rpc, ops, kind, store, n);
    assert ops[Sent(|ops|, 0)..] == ops;
    assert ops[Sent(|ops|, n)..] == [];
  }

  // ----- the client

  class Client {
    const api: FakeEntryServer
    const hint: string
    const prefix: string

    constructor (api: FakeEntryServer, hint: string, className: string)
      ensures this.api == api && this.hint == hint && this.prefix == className + "."
    {
      this.api := api;
      this.hint := hint;
      this.prefix := className + ".";
    }

    function Rule(): Ownership {
      Marked(prefix, hint)
    }

    /** Ownership takes both the id prefix and the hint. */
    predicate Owns(e: Entry) {
      Rule().Owns(e)
    }

    /** Every owned entry once, in store order, whatever the page size and with or without the hint filter. */
    method ListManaged() returns (r: Result<seq<Entry>, ListError>)
      ensures r == if api.listErr then Failure(Unavailable) else Success(Owned(api.store, Rule()))
    {
      var byHint := if hint != "" then Some(hint) else None;
      ghost var all := Filtered(api.store, byHint);
      HintFilterImmaterial(api.store, byHint, Rule());
      var token := "";
      var out: seq<Entry> := [];
      ghost var start := 0;
      assert all[0..] == all;
      while true
        invariant 0 <= start <= |all|
        invariant TokenStart(token) == Some(start)
        invariant out + Owned(all[start..], Rule()) == Owned(all, Rule())
        decreases |all| - start
      {
        PageFacts(all, start, api.pageSize);
        var response := api.ListEntries(byHint, token);
        if response.Failure? {
          return Failure(response.error);
        }
        var page := response.value;
        PageStep(all, start, page, api.pageSize, out, Rule());
        out := AppendOwned(page.entries, out);
        if page.nextToken == "" {
          return Success(out);
        }
        start := start + |page.entries|;
        token := page.nextToken;
      }
    }

    /** The client-side filter over one page. */
    method AppendOwned(entries: seq<Entry>, before: seq<Entry>) returns (out: seq<Entry>)
      ensures out == before + Owned(entries, Rule())
    {
      out := before;
      var i := 0;
      while i < |entries|
        invariant 0 <= i <= |entries|
        invariant out + Owned(entries[i..], Rule()) == before + Owned(entries, Rule())
      {
        assert entries[i..][1..] == entries[i + 1..];
        if Owns(entries[i]) {
          out := out + [entries[i]];
        }
        i := i + 1;
      }
    }

    /** Returns the number created and the number of errors; a nil error stands for none. */
    method Create(entries: seq<Entry>, rpc: Transport) returns (created: nat, errors: nat)
      modifies api`store
      ensures Tally(api.store, created, errors) == Written(api.hook, rpc, Creating(entries), old(api.store))
      ensures api.store == StoreAt(api.hook, rpc, Creating(entries), old(api.store), Calls(|entries|))
      ensures var answers := Answers(api.hook, rpc, Creating(entries), old(api.store), Calls(|entries|));
        && created == Within(answers, {OK})
        && errors == Failures(rpc, Calls(|entries|), 0) + Beyond(answers, {OK, AlreadyExists})
    {
      created, errors := 0, 0;
      ghost var ops := Creating(entries);
      var start, i := 0, 0;
      while start < |entries|
        invariant 0 <= start <= |entries| && i >= 0
        invariant TallyChunks(api.hook, rpc, Chunks(ops[start..], BATCH_SIZE), i, Tally(api.store, created, errors))
               == Written(api.hook, rpc, ops, old(api.store))
      {
        var end := if start + BATCH_SIZE < |entries| then start + BATCH_SIZE else |entries|;
        assert Creating(entries[start..end]) == ops[start..end];
        ChunkStep(api.hook, rpc, ops, start, BATCH_SIZE, i, Tally(api.store, created, errors));
        created, errors := CreateChunk(entries[start..end], rpc(i), created, errors);
        start, i := end, i + 1;
      }
      WrittenCalls(api.hook, rpc, ops, CreateKind, old(api.store));
    }

    method CreateChunk(
      chunk: seq<Entry>, delivery: Delivery, created0: nat, errors0: nat) returns (created: nat, errors: nat)
      modifies api`store
      ensures Tally(api.store, created, errors)
           == TallyCall(api.hook, delivery, Creating(chunk), Tally(old(api.store), created0, errors0))
    {
      TallyReplies(api.hook, Creating(chunk), CreateKind, Tally(api.store, created0, errors0));
      created, errors := created0, errors0;
      if delivery.Unreachable? {
        errors := errors + 1;
      } else {
        var replies := api.BatchCreateEntry(chunk);
        if delivery.ReplyLost? {
          errors := errors + 1;
        } else {
          var counted, faulty := JudgeReplies(CreateKind, replies);
          created, errors := created + counted, errors + faulty;
        }
      }
    }

    method Update(entries: seq<Entry>, rpc: Transport) returns (updated: nat, errors: nat)
      modifies api`store
      ensures Tally(api.store, updated, errors) == Written(api.hook, rpc, Updating(entries), old(api.store))
      ensures api.store == StoreAt(api.hook, rpc, Updating(entries), old(api.store), Calls(|entries|))
      ensures var answers := Answers(api.hook, rpc, Updating(entries), old(api.store), Calls(|entries|));
        && updated == Within(answers, {OK})
        && errors == Failures(rpc, Calls(|entries|), 0) + Beyond(answers, {OK, NotFound})
    {
      updated, errors := 0, 0;
      ghost var ops := Updating(entries);
      var start, i := 0, 0;
      while start < |entries|
        invariant 0 <= start <= |entries| && i >= 0
        invariant TallyChunks(api.hook, rpc, Chunks(ops[start..], BATCH_SIZE), i, Tally(api.store, updated, errors))
               == Written(api.hook, rpc, ops, old(api.store))
      {
        var end := if start + BATCH_SIZE < |entries| then start + BATCH_SIZE else |entries|;
        assert Updating(entries[start..end]) == ops[start..end];
        ChunkStep(api.hook, rpc, ops, start, BATCH_SIZE, i, Tally(api.store, updated, errors));
        updated, errors := UpdateChunk(entries[start..end], rpc(i), updated, errors);
        start, i := end, i + 1;
      }
      WrittenCalls(api.hook, rpc, ops, UpdateKind, old(api.store));
    }

    method UpdateChunk(
      chunk: seq<Entry>, delivery: Delivery, updated0: nat, errors0: nat) returns (updated: nat, errors: nat)
      modifies api`store
      ensures Tally(api.store, updated, errors)
           == TallyCall(api.hook, delivery, Updating(chunk), Tally(old(api.store), updated0, errors0))
    {
      TallyReplies(api.hook, Updating(chunk), UpdateKind, Tally(api.store, updated0, errors0));
      updated, errors := updated0, errors0;
      if delivery.Unreachable? {
        errors := errors + 1;
      } else {
        var replies := api.BatchUpdateEntry(chunk);
        if delivery.ReplyLost? {
          errors := errors + 1;
        } else {
          var counted, faulty := JudgeReplies(UpdateKind, replies);
          updated, errors := updated + counted, errors + faulty;
        }
      }
    }

    method Delete(ids: seq<string>, rpc: Transport) returns (deleted: nat, errors: nat)
      modifies api`store
      ensures Tally(api.store, deleted, errors) == Written(api.hook, rpc, Deleting(ids), old(api.store))
      ensures api.store == StoreAt(api.hook, rpc, Deleting(ids), old(api.store), Calls(|ids|))
      ensures var answers := Answers(api.hook, rpc, Deleting(ids), old(api.store), Calls(|ids|));
        && deleted == Within(answers, {OK, NotFound})
        && errors == Failures(rpc, Calls(|ids|), 0) + Beyond(answers, {OK, NotFound})
    {
      deleted, errors := 0, 0;
      ghost var ops := Deleting(ids);
      var start, i := 0, 0;
      while start < |ids|
        invariant 0 <= start <= |ids| && i >= 0
        invariant TallyChunks(api.hook, rpc, Chunks(ops[start..], BATCH_SIZE), i, Tally(api.store, deleted, errors))
               == Written(api.hook, rpc, ops, old(api.store))
      {
        var end := if start + BATCH_SIZE < |ids| then start + BATCH_SIZE else |ids|;
        assert Deleting(ids[start..end]) == ops[start..end];
        ChunkStep(api.hook, rpc, ops, start, BATCH_SIZE, i, Tally(api.store, deleted, errors));
        deleted, errors := DeleteChunk(ids[start..end], rpc(i), deleted, errors);
        start, i := end, i + 1;
      }
      WrittenCalls(api.hook, rpc, ops, DeleteKind, old(api.store));
    }

    method DeleteChunk(
      chunk: seq<string>, delivery: Delivery, deleted0: nat, errors0: nat) returns (deleted: nat, errors: nat)
      modifies api`store
      ensures Tally(api.store, deleted, errors)
           == TallyCall(api.hook, delivery, Deleting(chunk), Tally(old(api.store), deleted0, errors0))
    {
      TallyReplies(api.hook, Deleting(chunk), DeleteKind, Tally(api.store, deleted0, errors0));
      deleted, errors := deleted0, errors0;
      if delivery.Unreachable? {
        errors := errors + 1;
      } else {
        var replies := api.BatchDeleteEntry(chunk);
        if delivery.ReplyLost? {
          errors := errors + 1;
        } else {
          var counted, faulty := JudgeReplies(DeleteKind, replies);
          deleted, errors := deleted + counted, errors + faulty;
        }
      }
    }

    /** The switch on the status of each result. */
    method JudgeReplies(kind: Kind, replies: seq<Reply>) returns (counted: nat, faulty: nat)
      ensures counted == CountVerdict(kind, replies, Counted)
      ensures faulty == CountVerdict(kind, replies, Faulty)
    {
      counted, faulty := 0, 0;
      var i := 0;
      while i < |replies|
        invariant 0 <= i <= |replies|
        invariant counted + CountVerdict(kind, replies[i..], Counted) == CountVerdict(kind, replies, Counted)
        invariant faulty + CountVerdict(kind, replies[i..], Faulty) == CountVerdict(kind, replies, Faulty)
      {
        assert replies[i..][1..] == replies[i + 1..];
        match Judge(kind, replies[i].code) {
          case Counted => counted := counted + 1;
          case Faulty => faulty := faulty + 1;
          case Benign =>
        }
        i := i + 1;
      }
    }
  }

  // ----- paging

  lemma {:induction false} OwnedAppend(a: seq<Entry>, b: seq<Entry>, owns: Ownership)
    ensures Owned(a + b, owns) == Owned(a, owns) + Owned(b, owns)
  {
    if a == [] {
      assert a + b == b;
    } else {
      assert (a + b)[1..] == a[1..] + b;
      OwnedAppend(a[1..], b, owns);
    }
  }

  lemma PageStep(all: seq<Entry>, start: nat, page: Page, pageSize: int, out: seq<Entry>, owns: Ownership)
    requires start <= |all| && PageAt(all, start, pageSize) == Success(page)
    ensures var next := start + |page.entries|;
      && next <= |all|
      && out + Owned(all[start..], owns) == out + Owned(page.entries, owns) + Owned(all[next..], owns)
      && (page.nextToken == "" ==> out + Owned(page.entries, owns) == out + Owned(all[start..], owns))
      && (page.nextToken != "" ==> start < next && TokenStart(page.nextToken) == Some(next))
  {
    PageFacts(all, start, pageSize);
    var next := start + |page.entries|;
    assert all[start..] == all[start..next] + all[next..];
    OwnedAppend(all[start..next], all[next..], owns);
    if next == |all| { assert all[start..next] == all[start..]; }
  }

  /** The server-side filter on the hint removes no owned entry. */
  lemma {:induction false} HintFilterImmaterial(store: seq<Entry>, byHint: Option<string>, owns: Ownership)
    requires byHint.Some? ==> owns.Marked? && owns.hint == byHint.value
    ensures Owned(Filtered(store, byHint), owns) == Owned(store, owns)
  {
    if store != [] {
      var rest := Filtered(store[1..], byHint);
      HintFilterImmaterial(store[1..], byHint, owns);
      assert ([store[0]] + rest)[1..] == rest;
    }
  }

  // ----- batching

  /** Chunks are non-empty, within the size, and concatenate to the input. */
  lemma {:induction false} ChunksPartition<T>(s: seq<T>, size: nat)
    requires size > 0
    ensures Concat(Chunks(s, size)) == s
    ensures forall c | c in Chunks(s, size) :: 0 < |c| <= size
    ensures size * (|Chunks(s, size)| - 1) < |s| || s == []
    decreases |s|
  {
    if |s| > size {
      ChunksPartition(s[size..], size);
      assert Chunks(s, size)[1..] == Chunks(s[size..], size);
    } else if s != [] {
      assert Chunks(s, size) == [s];
      assert [s][1..] == [];
      assert s + [] == s;
    }
  }

  lemma {:induction false} TallyAppend(hook: Hook, xs: seq<Op>, ys: seq<Op>, t: Tally)
    ensures TallyOps(hook, xs + ys, t) == TallyOps(hook, ys, TallyOps(hook, xs, t))
    decreases |xs|
  {
    if xs == [] {
      assert xs + ys == ys;
    } else {
      assert (xs + ys)[1..] == xs[1..] + ys;
      TallyAppend(hook, xs[1..], ys, TallyItem(hook, xs[0], t));
    }
  }

  /** The chunks whose call the server executed. */
  function Reached(rpc: Transport, chunks: seq<seq<Op>>, i: nat): seq<seq<Op>> {
    if chunks == [] then []
    else (if rpc(i).Unreachable? then [] else [chunks[0]]) + Reached(rpc, chunks[1..], i + 1)
  }

  lemma {:induction false} TallyStore(hook: Hook, ops: seq<Op>, t: Tally)
    ensures TallyOps(hook, ops, t).store == After(hook, t.store, ops)
    decreases |ops|
  {
    if ops != [] {
      TallyStore(hook, ops[1..], TallyItem(hook, ops[0], t));
    }
  }

  lemma {:induction false} AfterAppend(hook: Hook, store: seq<Entry>, xs: seq<Op>, ys: seq<Op>)
    ensures After(hook, store, xs + ys) == After(hook, After(hook, store, xs), ys)
    decreases |xs|
  {
    if xs == [] {
      assert xs + ys == ys;
    } else {
      assert (xs + ys)[1..] == xs[1..] + ys;
      AfterAppend(hook, Item(hook, store, xs[0]).0, xs[1..], ys);
    }
  }

  /** Whatever calls fail, the store is that of one fold over the items of the calls that got through. */
  lemma {:induction false} BatchingStore(hook: Hook, rpc: Transport, chunks: seq<seq<Op>>, i: nat, t: Tally)
    ensures TallyChunks(hook, rpc, chunks, i, t).store == After(hook, t.store, Concat(Reached(rpc, chunks, i)))
    decreases |chunks|
  {
    if chunks != [] {
      var t' := TallyCall(hook, rpc(i), chunks[0], t);
      BatchingStore(hook, rpc, chunks[1..], i + 1, t');
      var later := Reached(rpc, chunks[1..], i + 1);
      if !rpc(i).Unreachable? {
        TallyStore(hook, chunks[0], t);
        assert ([chunks[0]] + later)[1..] == later;
        AfterAppend(hook, t.store, chunks[0], Concat(later));
      } else {
        assert [] + later == later;
      }
    }
  }

  lemma {:induction false} BatchingTally(hook: Hook, rpc: Transport, chunks: seq<seq<Op>>, i: nat, t: Tally)
    requires forall n: nat :: rpc(n).Delivered?
    ensures TallyChunks(hook, rpc, chunks, i, t) == TallyOps(hook, Concat(chunks), t)
    decreases |chunks|
  {
    if chunks != [] {
      BatchingTally(hook, rpc, chunks[1..], i + 1, TallyOps(hook, chunks[0], t));
      TallyAppend(hook, chunks[0], Concat(chunks[1..]), t);
    }
  }

  /** With every call answered, no chunk size changes store, count or errors from one pass over the items. */
  lemma BatchingTransparent(hook: Hook, rpc: Transport, ops: seq<Op>, size: nat, i: nat, t: Tally)
    requires size > 0
    requires forall n: nat :: rpc(n).Delivered?
    ensures TallyChunks(hook, rpc, Chunks(ops, size), i, t) == TallyOps(hook, ops, t)
  {
    ChunksPartition(ops, size);
    BatchingTally(hook, rpc, Chunks(ops, size), i, t);
  }

  lemma {:induction false} TallyErrors(hook: Hook, ops: seq<Op>, t: Tally, k: nat)
    ensures TallyOps(hook, ops, t.(errors := t.errors + k))
         == TallyOps(hook, ops, t).(errors := TallyOps(hook, ops, t).errors + k)
    decreases |ops|
  {
    if ops != [] {
      TallyErrors(hook, ops[1..], TallyItem(hook, ops[0], t), k);
    }
  }

  /** When failed calls have no effect, the write is one pass over the surviving chunks plus one error a failure. */
  lemma {:induction false} BatchingSurvivors(hook: Hook, rpc: Transport, chunks: seq<seq<Op>>, i: nat, t: Tally)
    requires forall n: nat :: !rpc(n).ReplyLost?
    ensures var once := TallyOps(hook, Concat(Reached(rpc, chunks, i)), t);
      TallyChunks(hook, rpc, chunks, i, t) == once.(errors := once.errors + Failures(rpc, |chunks|, i))
    decreases |chunks|
  {
    if chunks != [] {
      var later := Reached(rpc, chunks[1..], i + 1);
      var t' := TallyCall(hook, rpc(i), chunks[0], t);
      BatchingSurvivors(hook, rpc, chunks[1..], i + 1, t');
      if rpc(i).Delivered? {
        assert ([chunks[0]] + later)[1..] == later;
        TallyAppend(hook, chunks[0], Concat(later), t);
      } else {
        assert [] + later == later;
        TallyErrors(hook, Concat(later), t, 1);
      }
    }
  }
}
