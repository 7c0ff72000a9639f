# slurm-spire-syncer: a Dafny model and its proofs

The syncer keeps the registration entries of a SPIRE server in line with the jobs that Slurm runs. Three loops
do that independently: one gathers jobs from squeue, one lists the entries the syncer owns, and one reconciles
the last listing with the last gather and writes the difference. This project models that path from what
squeue says to what the server holds, and proves what the code promises about it.

`dafny verify dfyconfig.toml` checks everything.

## Layout

| file | about |
|---|---|
| `Wrappers`, `Text`, `Sorting`, `Decimal` | results, and the parts of Go's strings, sort, strconv and fmt that the rest relies on |
| `HostList`, `HostListSplit` | the hostlist expander and the laws of its splitter |
| `HostListOutcome`, `HostListErrors` | what it does with every text: how many names, which error, or no return |
| `HostListSyntax`, `HostListWritten` | syntax trees with the printer, round trip and range laws; lists as they are written, blanks included |
| `JobHosts`, `Squeue` | job hosts, and filtering and flattening decoded squeue records |
| `Entries` | entries, ownership, and the canonical key |
| `Reconcile`, `Plans` | `Diff` as loops and as a specification, and what a plan contains, key by key |
| `EntryServer`, `EntryClient`, `Stores`, `Counts` | the in-memory server, the paging and batching client, their effect on a store by membership, and what the counts mean |
| `Progress`, `Convergence` | one reconcile from an accurate listing: distance, failures, convergence, the fixed point |
| `Draining`, `Duplicates`, `Eventually` | repeated reconciles when owned entries share keys, and when they converge |
| `Outcome` | when a reconcile reports an error, call by call |
| `Records`, `Pipeline` | rendering job hosts into desired records, and the first plan |
| `Syncer` | the syncer's fields and the bodies of its loops |
| `Protocol`, `Uniqueness`, `Staleness`, `Refinement`, `Instances` | the interleaved loops as a transition system: invariants over every run, the exact conditions, and two instances on one server |
| `Listings` | what a published snapshot says about the server, over every run |
| `Delivery` | end to end: from squeue records to what the server holds, and from any accurate state of a run |

## How to read it

Code that changes state is modelled by classes and methods with the loops of the source (`Syncer`, `Client`,
`FakeEntryServer`, the hostlist and reconcile loops). Each is proved equal to a recursive specification
function, and the laws are lemmas about those functions. A batched write is `Written` (a fold over the chunks
under a given fate for each call), a whole apply is `Apply`, a plan is `DiffPlan`, an expansion is
`ExpandedList`.

What such a function means is stated a second time without it, from the inputs and in literal characters, statuses
and numbers: `HostListOutcome.OutcomeExactly` and `HostListWritten.WrittenRoundTrip` for expansions,
`Squeue.Reports` for gathers, `Records.Describes` for records, `Plans.PlanGrows` for plans,
`EntryClient.WrittenCalls` and `Outcome.ApplyOutcome` for writes, `EntryServer.ItemExactly` and
`Convergence.ContractCreate` for the server.

A `Hook` decides, item by item, whether the server lets an item through; `ContractHook` states the real
server's rules for creates, which the in-memory server lacks. A `Transport` says for every call whether it is
answered, executed with the answer lost, or never executed. The key function is a parameter of `Options`;
`Entries.Key` is the one in use, and a theorem that needs a property of it says so.

In `Protocol` an event is one step of one loop. A listing starts, reads pages of whatever the server holds at
that moment, and is published at any later time, so a stale one may overwrite a newer one. The reconcile loop
loads the two snapshots in two steps. The items of an apply take effect one at a time or not at all. Other
tools may write in between, but not to owned entries, and they do not reuse ids.

Hypotheses that the code needs, and where they are stated:

- Ids drawn by the generator are new (`Protocol.Fresh`, `Progress.FreshIDs`).
- One-cycle convergence starts from owned entries with distinct keys (`Convergence.Settled`); `Draining`,
  `Duplicates` and `Eventually` say what happens otherwise.
- A create whose identity another entry already covers is refused on every cycle (`Convergence.NoCollision`);
  `FixedPoint` shows that this is the only obstacle.
- Uniqueness of keys over all runs needs a key to determine its SPIFFE ID (`Uniqueness.Determined`).
  `DuplicatesExactly` shows that this is the exact condition. The default `spiffeIDTemplate` renders the
  account (internal/config/config.go:52), so a job whose account changes gives its key a second SPIFFE ID.
- Two instances need prefixes of which neither starts with the other (`Instances.NeitherPrefix`), which dots
  in class names can break.
- A hostlist range whose upper bound is 2^64-1 and that passes the size guard never stops expanding; an
  expansion therefore has three outcomes: names, an error, or no return (`HostListOutcome.NeverReturns` says
  which texts).

Where code and documentation disagree, the code is followed: with an empty hint, ownership still requires an
entry's hint to be empty (internal/spireentry/client.go:88-93), while README.md:113-114 speaks of the prefix
alone.

## Model

| member | source | states |
|---|---|---|
| `Uniqueness.NoDuplicateKeys` | internal/syncer/syncer.go:107-240 | In every interleaving of gathers, multi-step listings published however late, reconciles, refreshes, lost items and other tools' writes, no two owned server entries ever share a key, given that a key determines its SPIFFE ID, that initial owned entries are readable with distinct keys, and that ids are fresh |
| `Uniqueness.RunUnique` | internal/syncer/syncer.go:130-165 | The inductive invariant, at every state of every run: owned keys are distinct, and each owned entry is in every published snapshot and every listing under way or already carries the SPIFFE ID of its key |
| `Uniqueness.StepUnique` | internal/syncer/syncer.go:141-240 | Every single step of the protocol keeps that invariant, however stale the snapshots are |
| `Uniqueness.KeyTells` | internal/reconcile/reconcile.go:138-169 | The key function in use meets the hypothesis of that theorem: for readable entries it tells parent and selectors |
| `Uniqueness.CreateRefused` | internal/spireentry/client.go:131-139 | The server refuses a create whose key an owned, settled entry already has: equal keys of readable entries mean equal parent and selectors |
| `Staleness.DuplicatesExactly` | internal/syncer/syncer.go:122-139 | The exact condition: runs from an empty server never reach two owned entries with one key if and only if the hosts squeue may report never give one key two SPIFFE IDs |
| `Staleness.StaleRun` | internal/syncer/syncer.go:130-139 | The failing run when they do: a listing begun before a create is published over the newer refresh, and a second entry is created under the same key |
| `Protocol.KeyNeverChanges` | internal/reconcile/reconcile.go:87-95 | In every run, an owned entry and any later entry with its id have the same (parent, selectors) key, and the later one is owned too |
| `Protocol.NoWantedDelete` | internal/syncer/syncer.go:141-165 | However old the entry snapshot, a step that removes an owned entry is a delete whose key the loaded job snapshot does not imply |
| `Protocol.JobsAreLastGather` | internal/syncer/syncer.go:107-116 | At every point of every run the job snapshot is the last successful gather; failures never clear it |
| `Protocol.LoadedIsLastGather` | internal/syncer/syncer.go:141-152 | The hosts a reconcile works from are the last good gather of the moment it loaded the job snapshot, whatever is gathered or listed before it loads the other one |
| `Protocol.EntriesChange` | internal/syncer/syncer.go:130-139 | The entry snapshot changes only when a listing is published, and is never cleared |
| `Protocol.NoEarlyWrite` | internal/syncer/syncer.go:141-185 | A write by the syncer comes after a successful gather and a published listing, and never with dry run set |
| `Listings.PublishedRight` | internal/syncer/syncer.go:130-139 | Every snapshot published in any run, by the list loop or after an apply: each of its entries is owned and was on the server at some time since that listing started, and every owned entry that was there all that time is in it |
| `Protocol.RunInv` | internal/syncer/syncer.go:107-240 | The structural invariant holds at every state of every run |
| `Protocol.StepKeeps` | internal/syncer/syncer.go:107-240 | Every step keeps the structural invariant: snapshots, listings and pending items agree with the history of keys, creates are unsent, deletes have unwanted keys |
| `Protocol.PlanPending` | internal/reconcile/reconcile.go:63-108 | The items of a plan made from any stale snapshot keep to the history of keys: updates keep their target's key, deletes have a key that is not wanted |
| `Refinement.ReconcileRefines` | internal/syncer/syncer.go:141-240 | What an uninterrupted reconcile does, for any pattern of lost calls and a failing or succeeding refresh, is a path of the protocol to exactly that store and snapshot |
| `Refinement.WriteSent` | internal/spireentry/client.go:140-243 | A batched write with any calls lost before or after taking effect is a sequence of single-item steps |
| `Instances.RespectedExactly` | internal/spireentry/client.go:81-93 | Of two syncers with one hint, the second never changes an entry of the first in any run, if and only if neither "class." prefix starts with the other |
| `Instances.NonInterference` | internal/spireentry/client.go:81-93 | With such prefixes no step of one syncer adds, changes or removes an entry owned by the other |
| `Instances.WritesOwnOnly` | internal/reconcile/reconcile.go:120-136 | Every entry a syncer puts on the server is owned by it and not by the other |
| `Instances.Projection` | internal/syncer/syncer.go:78-105 | Seen from one syncer, a run of two is a run of one in which the other is just another tool, so the run theorems hold beside a second instance |
| `Instances.DisjointExactly` | internal/spireentry/client.go:88-93 | Some entry could be owned by both exactly when the hints agree and one prefix starts with the other |
| `Instances.PrefixExactly` | internal/config/config.go:104-108 | One class prefix starts with another exactly when the names are equal or the longer continues after a dot |
| `Instances.DotFreeApart` | internal/config/config.go:68 | Distinct class names without dots never overlap |
| `Instances.DottedOverlap` | internal/config/config.go:64-68 | The dots that the class name pattern allows make "slurm" and "slurm.prod" overlap |
| `Instances.DeleteInterferes` | internal/reconcile/reconcile.go:98-102 | With a shorter prefix the second syncer has a run that deletes an entry of the first |
| `Instances.CreateInterferes` | internal/reconcile/reconcile.go:120-124 | With a longer prefix the second syncer has a run that creates an entry the first owns |
| `Convergence.FixedPoint` | internal/syncer/syncer.go:193-240 | Against the real server with every call answered, the next plan after the refresh is empty if and only if no existing entry covers an identity about to be created, and exactly then the server holds what is wanted |
| `Convergence.ProgressUnderFailure` | internal/syncer/syncer.go:190-240 | For any pattern of refused items and lost calls, the distance (missing keys, drifted and unwanted entries) never rises and falls by at least the sum of the three counts, by exactly that sum when every call is answered |
| `Convergence.ConvergedDistance` | internal/reconcile/reconcile.go:63-108 | Distance zero is the same as owned entries in bijection with the deduplicated desired list |
| `Convergence.MatchesExactly` | internal/reconcile/reconcile.go:110-136 | For well-shaped ids, matching means equal parent, selector multiset, SPIFFE ID, TTLs and hint |
| `Convergence.MatchedKeepIDs` | internal/reconcile/reconcile.go:92-95 | Every owned entry whose key is wanted is still there under its id after a reconcile, whatever fails |
| `Convergence.UnownedUntouched` | internal/reconcile/reconcile.go:66-72 | Entries the syncer does not own are the same before and after a reconcile, whatever fails |
| `Convergence.ContractCount` | internal/spireentry/client.go:129-182 | Against the real server with every call answered, everything planned is counted exactly when no planned identity is already covered |
| `Syncer.ReconcileTwice` | internal/syncer/syncer_test.go:205-236 | Two reconcile rounds with no list-loop round in between: from distinct owned keys and without collisions the first converges and the second changes nothing |
| `Syncer.ReconcileOnce` | internal/syncer/syncer.go:187-240 | After one such round the snapshot is accurate, the server has converged and the next plan is empty |
| `Delivery.GatherAndReconcile` | internal/syncer/syncer.go:107-240 | One round from squeue records to the server: the owned entries then correspond one to one to the distinct (identifier kind, identifier, rendered parent) triples of the jobs |
| `Delivery.ConvergedTriples` | internal/syncer/syncer.go:245-279 | A converged server holds one entry for each distinct triple, saying what the first host of the triple rendered to, and nothing else |
| `Delivery.RunConverges` | internal/syncer/syncer.go:130-240 | From any state of any run with an accurate listing, one reconcile converges and leaves nothing to do exactly when no identity about to be created is covered |
| `Progress.PlanSize` | internal/reconcile/reconcile.go:63-108 | A plan has exactly as many items as the distance it was made at, so it is empty exactly at distance zero |
| `Progress.PlanBatch` | internal/reconcile/reconcile.go:63-108 | From an accurate listing with distinct keys every item of the plan closes one unit of the distance and no two get in each other's way |
| `Progress.ItemIndex` | internal/spiretest/fake.go:162-246 | A useful item that is let through succeeds and changes the index of owned entries as planned |
| `Progress.ItemGap` | internal/reconcile/reconcile.go:74-102 | A useful item that takes effect closes exactly one unit of the distance |
| `Progress.WrittenGap` | internal/spireentry/client.go:140-243 | Over one batched write the distance falls by at least what is counted, by exactly that when all calls are answered |
| `Draining.Drain` | internal/reconcile/reconcile.go:66-102 | With a fixed desired list, after n cycles each unwanted key holds exactly its first multiplicity less n, never below zero |
| `Draining.DrainedExactly` | internal/reconcile/reconcile.go:66-102 | Nothing unwanted is left after n cycles exactly when no unwanted key held more than n entries |
| `Draining.UnwantedFalls` | internal/reconcile/reconcile.go:98-102 | Each cycle removes as many unwanted owned entries as there are unwanted keys present, at least one while any is left |
| `Draining.DrainStep` | internal/reconcile/reconcile.go:66-102 | One cycle takes exactly one entry from under each unwanted key that is still there |
| `Draining.CyclePrepared` | internal/reconcile/reconcile.go:120-124 | Whatever fails, a cycle leaves ids unique and the generator ahead of them |
| `Eventually.EventualConvergence` | internal/syncer/syncer.go:141-240 | Against the real server with every call answered, n cycles end converged if and only if at the start no wanted key holds more than one owned entry or is missing with its identity covered by somebody else, and no unwanted key holds more than n |
| `Eventually.CycleHolds` | internal/reconcile/reconcile.go:74-96 | One cycle leaves an entry saying what is wanted under every wanted key that is not blocked |
| `Eventually.CycleBlocked` | internal/spireentry/client.go:161-171 | A missing key whose identity somebody else covers stays missing |
| `Duplicates.SurplusKept` | internal/reconcile/reconcile.go:66-72 | A surplus entry under a wanted key is neither updated nor deleted by a cycle, whatever fails, and is still surplus after it |
| `Duplicates.SurplusForever` | internal/reconcile/reconcile.go:66-72 | Over any run of cycles, whatever fails in them, such an entry is there at every point |
| `Duplicates.LineLast` | internal/reconcile/reconcile.go:66-72 | The index is last-wins: the planner sees the last owned entry of each key |
| `Reconcile.Diff` | internal/reconcile/reconcile.go:63-108 | The loops over maps and slices compute the recursive plan: first occurrences, last-wins index, creates, updates in place, sorted deletes, repeats as warnings |
| `Reconcile.MatchDesired` | internal/reconcile/reconcile.go:74-96 | The matching loop agrees with its recursive form, and matched is the wanted keys that are known |
| `Reconcile.MatchParts` | internal/reconcile/reconcile.go:77-96 | The one loop that does three things at once equals three independent definitions of creates, updates and repeats |
| `Reconcile.IndexByKey` | internal/reconcile/reconcile.go:66-72 | The index holds, for every key, the last owned entry with it |
| `Reconcile.DeleteUnmatched` | internal/reconcile/reconcile.go:98-105 | Whatever order the map is ranged over, the sorted deletes are the ids of the unmatched indexed entries |
| `Reconcile.VisibleFacts` | internal/reconcile/reconcile.go:66-72 | The entries a plan can see are owned, one for each key, and every owned key has one |
| `Plans.PlanMeaning` | internal/reconcile/reconcile.go:63-108 | For any desired and any existing list: creates are exactly the wanted keys not known, updates exactly the drifted ones under their ids, deletes exactly the known keys not wanted, each key once |
| `Plans.FirstsFacts` | internal/reconcile/reconcile.go:77-85 | Deduplication keeps the first record of each key, and every key has one |
| `Plans.CreateIDs` | internal/reconcile/reconcile.go:120-124 | Created ids are the class name, a dot, and consecutive draws of the generator |
| `Plans.PlanGrows` | internal/reconcile/reconcile.go:77-136 | What one more record adds to a plan: a warning if its key came before, else a create with the next id if no owned entry has the key, else an update in place if SPIFFE ID or a TTL differs, else nothing; entries field by field, always at the end |
| `Plans.LastSeen` | internal/reconcile/reconcile.go:66-72 | Of several owned entries with one key the plan sees the last of the list |
| `Plans.DeleteCount` | internal/reconcile/reconcile.go:98-102 | As many ids are deleted as there are known keys that are not wanted |
| `Entries.KeyCanonical` | internal/reconcile/reconcile.go:138-169 | For ids shaped as in sections 2.1 and 2.2 of the SPIFFE-ID specification, colon-free selector types and NUL-free text, keys are equal if and only if parents are equal and selectors are equal as multisets |
| `Entries.KindsExactly` | internal/reconcile/reconcile.go:146-153 | The exact condition on selector types: keys tell everything apart if and only if no type of the set is another one cut off before a colon |
| `Entries.KeyCanonicalFor` | internal/reconcile/reconcile.go:138-169 | Canonicality for selector types of any such set |
| `Entries.KeyMeaning` | internal/reconcile/reconcile.go:138-169 | For NUL-free text, keys are equal exactly when the parent strings and the multisets of selector texts are |
| `Entries.KeyIgnoresOrder` | internal/reconcile/reconcile.go:146-153 | Reordering selectors never changes a key, whatever the text |
| `Entries.ColonCollision` | internal/reconcile/reconcile.go:149 | The smallest failing case: two different selectors that share every key |
| `Entries.IDStringInjective` | internal/reconcile/reconcile.go:164-169 | The string form of a well-shaped SPIFFE ID determines it |
| `Entries.JoinInjective` | internal/reconcile/reconcile.go:152 | Joining non-empty NUL-free texts by NUL is injective, the empty list included |
| `Entries.ComputeSelectorsKey` | internal/reconcile/reconcile.go:146-153 | The append, sort and join loop computes the sorted NUL join of the selector texts |
| `Sorting.SortedUnique` | internal/reconcile/reconcile.go:151 | A multiset of strings has only one sorted arrangement |
| `Sorting.SortStringsSorts` | internal/reconcile/reconcile.go:105 | Sorting gives a sorted permutation |
| `Sorting.LeqExactly` | internal/reconcile/reconcile.go:105 | The order is that of dictionaries: a prefix first, else the smaller character where the texts first differ; so plans list deletes in ascending order |
| `Sorting.SortCanonical` | internal/reconcile/reconcile.go:151 | Sorted lists are equal exactly when the lists are equal as multisets |
| `Syncer.Syncer.GatherJobs` | internal/syncer/syncer.go:107-116 | A successful gather replaces the job snapshot; a failed one leaves it |
| `Syncer.Syncer.RefreshEntries` | internal/syncer/syncer.go:130-139 | A successful listing publishes exactly the owned entries of the server in store order; a failed one leaves the snapshot |
| `Syncer.Syncer.Reconcile` | internal/syncer/syncer.go:141-188 | Nothing before both snapshots exist; no write for an empty plan or in a dry run; otherwise the store after the calls of creates, updates and deletes in this order, an error exactly when some call of the three is not answered or brings back a status that is no success for its kind (see ApplyOutcome), the refreshed snapshot and the draws |
| `Syncer.Syncer.ApplyPlan` | internal/syncer/syncer.go:193-240 | All three writes run whatever fails; it reports an error exactly when some call is not answered or a create brings back a status other than OK and AlreadyExists, or an update or a delete one other than OK and NotFound; a failing refresh is ignored |
| `Outcome.ApplyOutcome` | internal/syncer/syncer.go:193-240 | The same for any plan, hook and network, call by call: errors are counted if and only if a call of the creates, of the updates behind them or of the deletes behind those fails; the store is that after these calls |
| `Records.BuildDesired` | internal/syncer/syncer.go:245-279 | One record for each host whose two templates render, in order, field by field: parent and SPIFFE ID from their own templates over the data of the host, one selector of type slurm valued sluid:<sluid> or job_id:<job id>, each TTL in its own field; the hosts warned about are exactly the others, in order |
| `Records.DesiredMembers` | internal/syncer/syncer.go:250-278 | A record is among those wanted exactly when it describes, field by field, a host whose templates both render |
| `EntryClient.Client.ListManaged` | internal/spireentry/client.go:95-127 | Terminates for every page size and returns exactly the owned entries, each once and in store order, with or without the hint filter, or the list error |
| `EntryClient.HintFilterImmaterial` | internal/spireentry/client.go:97-109 | The server-side hint filter removes no owned entry |
| `EntryClient.PageStep` | internal/spireentry/client.go:112-126 | A page contributes its owned entries, and a page token leads on until everything has been read |
| `EntryClient.Client.Create` | internal/spireentry/client.go:140-182 | Store, count and errors are those of the batched write; in terms of its calls of at most a hundred: the count is the number of OK results, the errors the calls without an answer plus the results other than OK and AlreadyExists |
| `EntryClient.Client.Update` | internal/spireentry/client.go:185-217 | The same for updates: OK counts, NotFound is passed over, any other status is an error |
| `EntryClient.Client.Delete` | internal/spireentry/client.go:222-243 | The same for deletes: OK and NotFound count, any other status is an error |
| `EntryClient.WrittenCalls` | internal/spireentry/client.go:140-255 | A batched write of n items is (n + 99) / 100 calls over successive slices of a hundred; a call sees the effects of the earlier ones that got through, answered or not; what it counts and reports is read off the statuses of the answered calls and the number of the others |
| `EntryClient.ChunksPartition` | internal/spireentry/client.go:245-255 | Chunks are non-empty, within the size, no more than needed, and concatenate to the input |
| `EntryClient.BatchingTransparent` | internal/spireentry/client.go:140-243 | With every call answered, no chunk size changes store, count or errors from one pass over the items |
| `EntryClient.BatchingSurvivors` | internal/spireentry/client.go:144-152 | When failed calls have no effect, the write is one pass over the surviving chunks plus one error for each failure |
| `EntryClient.BatchingStore` | internal/spireentry/client.go:144-152 | Whatever calls fail, with or without effect, the store is one fold over the items of the calls that got through |
| `Counts.CreatesCounted` | internal/spireentry/client.go:153-181 | For any statuses the server gives, the count is exactly what the store has grown by, and there are as many errors as statuses other than OK and AlreadyExists |
| `Counts.ContractCreatesCounted` | internal/spireentry/client.go:129-139 | A server that refuses creates only for the two AlreadyExists reasons causes no error |
| `Counts.CreatesJudged` | internal/spireentry/client.go:153-181 | For any hook, with calls answered: the count is the number of OK replies, the errors the number of replies other than OK and AlreadyExists |
| `Counts.UpdatesJudged` | internal/spireentry/client.go:199-216 | For any hook, with calls answered: the count is the number of OK replies, the errors the number of replies other than OK and NotFound |
| `Counts.DeletesJudged` | internal/spireentry/client.go:231-242 | For any hook, with calls answered: the errors are the replies other than OK and NotFound, and all the rest counts |
| `Counts.UpdatesCounted` | internal/spireentry/client.go:199-216 | An update of a vanished entry is passed over; the count is the number of those that had not vanished |
| `Counts.DeletesCounted` | internal/spireentry/client.go:219-242 | Every deleted id counts, whether or not it was there, and exactly the named ids are gone |
| `EntryClient.TallyReplies` | internal/spireentry/client.go:153-179 | Judging the replies of a call afterwards counts what tallying its items one by one does |
| `EntryServer.FakeEntryServer.ListEntries` | internal/spiretest/fake.go:123-160 | One page of the entries the hint filter lets through, and a token when more follow |
| `EntryServer.PageFacts` | internal/spiretest/fake.go:140-159 | A page is a slice; its token leads to where it ends and is missing only at the end |
| `EntryServer.PageFull` | internal/spiretest/fake.go:148-159 | Pages are full but for the last, and a page size of zero or less gives everything at once |
| `EntryServer.FilteredExactly` | internal/spiretest/fake.go:131-137 | Listing leaves out, in store order, exactly the entries whose hint is not the one filtered by |
| `EntryServer.ItemExactly` | internal/spiretest/fake.go:162-246 | One item, position by position: what the hook answers is the result and changes nothing; a create appends; update and delete replace and splice out the first entry with the id, and answer NotFound when there is none |
| `EntryServer.FakeEntryServer.BatchCreateEntry` | internal/spiretest/fake.go:162-184 | Store and results are those of the items in turn: a hooked item is answered without effect, any other is appended without deduplication |
| `EntryServer.FakeEntryServer.BatchUpdateEntry` | internal/spiretest/fake.go:186-219 | The first entry with the id is replaced in place, or the item is NotFound |
| `EntryServer.FakeEntryServer.BatchDeleteEntry` | internal/spiretest/fake.go:221-246 | The first entry with the id is removed, or the item is NotFound |
| `EntryServer.FakeEntryServer.Search` | internal/spiretest/fake.go:201-207 | The scan finds the first entry with the id |
| `Convergence.ContractCreate` | internal/spireentry/client.go:131-139 | The real server lets a create through exactly when its id is free and no entry has its SPIFFE ID, parent and selectors; otherwise it answers AlreadyExists, with a covering entry if there is one and with none if only the id is taken |
| `Stores.ItemMembers` | internal/spiretest/fake.go:162-246 | What one item does to a store with unique ids, by membership, and that entries with other ids stay as they are |
| `Stores.WrittenFrame` | internal/spireentry/client.go:140-243 | Whatever fails, a batched write never touches an entry whose id none of its items names |
| `Pipeline.PipelineIdentity` | internal/syncer/syncer.go:245-279 | Parsing, rendering and planning on an empty server creates one entry for each distinct (identifier kind, identifier, rendered parent), in first-occurrence order, each saying what the first host of its triple rendered to |
| `Pipeline.KeyIsTriple` | internal/syncer/syncer.go:266-276 | For clean hosts equal match keys mean equal triples, and conversely |
| `Pipeline.FirstsAreLeaders` | internal/reconcile/reconcile.go:77-85 | The deduplicated records are those of the positions no earlier host shares a triple with |
| `Squeue.Parse` | internal/slurm/squeue.go:174-210 | The job loop computes the contributions of the jobs, concatenated: a host is in the result exactly when some record reports it, and it never returns exactly when some record blocks it, both read from the fields of the records |
| `Squeue.ParseConcat` | internal/slurm/squeue.go:174-210 | Parsing distributes over concatenation of job lists |
| `Squeue.SkippedJobImmaterial` | internal/slurm/squeue.go:176-199 | A skipped job, for whatever reason, changes nothing about the others |
| `Squeue.ParseMembers` | internal/slurm/squeue.go:174-210 | A host is gathered exactly when some record has RUNNING among its states, a CORE or CR_CORE... select type (outer list, else nested list, else a positive core count), the configured identifier, and the node on nodes.allocation, else on allocated_nodes, else in the hostlist |
| `Squeue.JobInOrder` | internal/slurm/squeue.go:201-208 | A job that contributes gives one host for each name of the list in use, in the order of that list |
| `Squeue.NamedConcat` | internal/slurm/squeue.go:287-296 | Names of an expanded list come out in its order |
| `Squeue.ParseNever` | internal/slurm/squeue.go:191-199 | A gather never returns exactly when some eligible, identified job reports its nodes by a hostlist alone and the text of that list meets the condition for never returning |
| `Squeue.OneIdentifier` | internal/slurm/squeue.go:215-242 | Every gathered host has exactly one of job id and SLUID |
| `Squeue.Identify` | internal/slurm/squeue.go:215-242 | Exactly when each identifier is picked for each setting, trimmed, and that exactly one of the two is set |
| `Squeue.IsCoreAllocated` | internal/slurm/squeue.go:260-278 | Any core select type, outer list before nested, or a positive core count when there are none |
| `Squeue.FindNodeNames` | internal/slurm/squeue.go:285-298 | nodes.allocation wins over allocated_nodes, and both over the hostlist |
| `Squeue.Contains` | internal/slurm/squeue.go:300-307 | The loop answers whether the needle is in the list |
| `JobHosts.SelectorValueInjective` | internal/slurm/jobhost.go:34-39 | Selector values are equal exactly when the kind of identifier and the identifier are |
| `HostListSyntax.PrintExpandRoundTrip` | internal/slurm/hostlist.go:31-162 | For every well-formed tree: printing it and expanding the text gives its names in order within the 2^20 cap and the size error above it if and only if the expander does not come to a range that never ends before it has seen too many names; otherwise it never returns |
| `HostListSyntax.RoundTripWithinCap` | internal/slurm/hostlist.go:31-162 | Within the cap the names come back exactly when no range ends at 2^64-1 past the size guard |
| `HostListOutcome.NeverReturnsExactly` | internal/slurm/hostlist.go:31-162 | For every text whatever: the expander never returns exactly when the text is worth an endless expansion |
| `HostListOutcome.RangeShows` | internal/slurm/hostlist.go:146-159 | A range component in literal numbers: its size, which error, or no return, and that not returning is the same as its counting loop having no last round |
| `HostListOutcome.OutcomeExactly` | internal/slurm/hostlist.go:31-162 | For every text whatever, in literal numbers: how many names, or which of the errors, or no return; brackets first, then the first element that is refused or takes the names past 1048576, in it the first component that is refused |
| `HostListSyntax.BoundsBelowMax` | internal/slurm/hostlist.go:31-162 | With all bounds below 2^64-1 the round trip holds outright |
| `HostListWritten.WrittenRoundTrip` | internal/slurm/hostlist.go:31-162 | In literal characters and numbers: a list whose names, prefixes and suffixes are of letters, digits, dots, dashes and underscores, with blanks, tabs and line ends around elements and components and with empty elements, expands to its names in order up to 1048576 of them and is refused above that |
| `HostListWritten.BlanksImmaterial` | internal/slurm/hostlist.go:88-127 | Blanks around elements and components and empty elements change nothing, for any printable tree |
| `HostListErrors.GroupOutcome` | internal/slurm/hostlist.go:100-162 | A bracket group with any component texts: the empty-group error for white space alone, else the error of the first component that is refused, else the number of names or the size error |
| `HostListErrors.SeveralGroupsRefused` | internal/slurm/hostlist.go:115-117 | An element with two bracket groups is refused whatever is in them |
| `HostListSyntax.RangeExact` | internal/slurm/hostlist.go:129-159 | One range component: its names, the size error, or no return, and exactly when each |
| `HostListSyntax.RangeArithmetic` | internal/slurm/hostlist.go:146-159 | In wrapping 64-bit arithmetic, names come back only for bounds below 2^64-1, exactly high-low+1 of them, at most 2^20, pairwise distinct; the bounds on which it never returns are given exactly |
| `HostList.RangeLoopStops` | internal/slurm/hostlist.go:157-159 | The wrapping loop guard fails at some round if and only if high is below 2^64-1, and then first after high-low+1 rounds |
| `HostListSyntax.RunawayDiverges` | internal/slurm/hostlist.go:149-159 | A list of one such range never returns |
| `HostListSyntax.FullRangeDiverges` | internal/slurm/hostlist.go:149 | The literal input node[0-18446744073709551615] never returns: the size guard wraps to zero and lets it through |
| `HostListSyntax.RangeSplitting` | internal/slurm/hostlist.go:129-159 | Expanding [a-b] equals expanding [a-m,p-b] with p the padded m+1 |
| `HostListSyntax.SingletonIsRange` | internal/slurm/hostlist.go:129-136 | Expanding [x] equals expanding [x-x], leading zeros included |
| `HostListSyntax.RangeNamesDistinct` | internal/slurm/hostlist.go:156-159 | The names of one range are pairwise distinct |
| `HostListSyntax.RangeNumbered` | internal/slurm/hostlist.go:153-159 | The i-th name of a range is the prefix, the number low + i in at least the width of the low bound and in more digits only without a leading zero, and the suffix |
| `HostListSplit.ConcatenationHomomorphism` | internal/slurm/hostlist.go:31-98 | Two lists that expand within the cap together expand, comma-joined, to the concatenation |
| `HostListSplit.SplitterInvariant` | internal/slurm/hostlist.go:58-98 | The untrimmed pieces joined by commas are the input, and every element is bracket-balanced with no negative prefix depth |
| `HostListSplit.ElementErrorsUnreachable` | internal/slurm/hostlist.go:101-112 | A balanced element never gives an error about unmatched brackets |
| `HostListSplit.UnmatchedExactly` | internal/slurm/hostlist.go:58-112 | An unmatched closing bracket is reported exactly when some prefix of the input closes more than it opens, an unmatched opening one exactly when otherwise one stays open, and the two errors of a single element never |
| `HostListSplit.TrimmingImmaterial` | internal/slurm/hostlist.go:31-35 | The outer trimming changes no result |
| `HostList.SplitTopLevel` | internal/slurm/hostlist.go:58-98 | The scan loop computes the recursive splitter, errors included |
| `HostList.ExpandElement` | internal/slurm/hostlist.go:100-162 | Proved equal to the recursive expansion of one element, errors and non-return included |
| `HostList.ExpandComponent` | internal/slurm/hostlist.go:123-159 | One component appends what its recursive expansion says, or stops with its error |
| `HostList.AppendRange` | internal/slurm/hostlist.go:156-159 | The counting loop appends the names of the range and terminates below 2^64-1 |
| `HostList.ExpandHostList` | internal/slurm/hostlist.go:31-54 | Proved equal to the recursive expansion of the list, cap included |
| `Decimal.ValuePad` | internal/slurm/hostlist.go:153-158 | Padding a parsed number to its written width gives back the text |
| `Decimal.PadValue` | internal/slurm/hostlist.go:158 | Parsing undoes padding, so padding never truncates |
| `Decimal.PadWidthStable` | internal/slurm/hostlist.go:156-158 | Padding to the width of an already padded smaller number changes nothing |
| `Decimal.PadShape` | internal/slurm/hostlist.go:158 | Zero padding writes the number in at least the width, and in more digits only without a leading zero |
| `Text.TrimExactly` | internal/slurm/hostlist.go:32 | Trimming leaves the middle of a text when white space surrounds it and none is at its ends |
| `Text.SplitJoin` | internal/slurm/hostlist.go:123 | Splitting undoes joining when no part holds the separator |

## Left out

- JSON decoding, running squeue, timeouts, gRPC and its transport, `main`: the model starts from decoded records and an abstract server.
- Template execution and SPIFFE ID parsing: arbitrary partial functions from template data to an id (`Records.Render`).
- UUID generation: a stream of ids, with freshness as a hypothesis.
- Configuration loading and validation: only the class name, the id prefix, the hint, the TTLs and the dry-run flag matter.
- Metrics, loop timing, logging, and the text of warnings and errors: errors are counted, warnings are the records or hosts they are about.
- Field masks and the conversion of TTLs to 32 bits: TTLs are integers.
- Nil entries and nil selectors: the model has none.
- Aliasing: the server's store, snapshots and plans are values held in fields, so sharing of slices and pointers is not captured, and neither is the mutex of the in-memory server or its request recorders.
- Server concurrency inside one call: the items of a call take effect in order, with other steps in between.
- Run: an entry present throughout a listing is read by one of its pages, as a server with stable page tokens guarantees; the positional tokens of the in-memory server do so only while nothing is removed.
- ListEntries: a page token that this server never issues (negative, or past the end) is a refused request in the model.
- Create: the three AlreadyExists cases of the source differ in logging only and are one verdict.
- Hook: the three result hooks of the in-memory server are one function, and may see the store.
- ExpandHostList: fmt's limit on enormous widths is not modelled, so zero padding works for low bounds of any length; text is a sequence of code points, so invalid UTF-8 does not occur.
- SortStrings: the library sort is modelled on values, as insertion, not in place.
- Drain: every call is answered and updates and deletes are let through; creates may be refused in any way.
- selectorsString and the request-building helpers: only easy members would come of them.
