/** What a plan contains, stated about the records wanted and the entries known, key by key. */
module Plans {
  import opened Sorting
  import opened Entries
  import opened Reconcile

  /** The first record of each key. */
  function Wanted(desired: seq<Desired>, opts: Options): map<string, Desired> {
    if desired == [] then map[]
    else Wanted(desired[1..], opts)[opts.DesiredKey(desired[0]) := desired[0]]
  }

  function EntryKeys(entries: seq<Entry>, opts: Options): set<string> {
    set e | e in entries :: opts.EntryKey(e)
  }

  /** The entry says what the record asks for, hint included. */
  predicate Implements(e: Entry, d: Desired, opts: Options) {
    e == UpdatedEntry(e.id, d, opts)
  }

  ghost predicate DistinctRecords(records: seq<Desired>, opts: Options) {
    forall i, j | 0 <= i < j < |records| :: opts.DesiredKey(records[i]) != opts.DesiredKey(records[j])
  }

  /** The keys wanted and known whose entry differs in a managed field. */
  function DriftedKeys(wanted: map<string, Desired>, known: map<string, Entry>): set<string> {
    set k | k in wanted && k in known && Drifted(wanted[k], known[k])
  }

  // ----- first occurrences

  lemma {:induction false} WantedKeys(desired: seq<Desired>, opts: Options)
    ensures Wanted(desired, opts).Keys == DesiredKeys(desired, opts)
    ensures forall k | k in Wanted(desired, opts) ::
      Wanted(desired, opts)[k] in desired && opts.DesiredKey(Wanted(desired, opts)[k]) == k
  {
    if desired != [] {
      WantedKeys(desired[1..], opts);
      assert desired == [desired[0]] + desired[1..];
    }
  }

  lemma {:induction false} FirstsFacts(desired: seq<Desired>, seen: set<string>, opts: Options)
    ensures var firsts, wanted := Firsts(desired, seen, opts), Wanted(desired, opts);
      && DistinctRecords(firsts, opts)
      && (forall d | d in firsts ::
        opts.DesiredKey(d) !in seen && opts.DesiredKey(d) in wanted && wanted[opts.DesiredKey(d)] == d)
      && (forall k | k in wanted && k !in seen :: wanted[k] in firsts)
      && (forall k | k in wanted :: opts.DesiredKey(wanted[k]) == k)
  {
    if desired != [] {
      var d := desired[0];
      var key := opts.DesiredKey(d);
      FirstsFacts(desired[1..], if key in seen then seen else seen + {key}, opts);
    }
  }

  // ----- the three parts of a plan

  /** Records with different keys, each the wanted one of its key. */
  ghost predicate Selected(records: seq<Desired>, wanted: map<string, Desired>, opts: Options) {
    && DistinctRecords(records, opts)
    && forall d | d in records :: opts.DesiredKey(d) in wanted && wanted[opts.DesiredKey(d)] == d
  }

  /** The entry is to be created: its key is wanted, not known, and it says what is wanted. */
  predicate Creatable(c: Entry, wanted: map<string, Desired>, known: map<string, Entry>, opts: Options) {
    opts.EntryKey(c) in wanted && opts.EntryKey(c) !in known && Implements(c, wanted[opts.EntryKey(c)], opts)
  }

  /** The entry replaces the known one of its key, which has drifted from what is wanted. */
  predicate Updatable(u: Entry, wanted: map<string, Desired>, known: map<string, Entry>, opts: Options) {
    && opts.EntryKey(u) in DriftedKeys(wanted, known)
    && u.id == known[opts.EntryKey(u)].id
    && Implements(u, wanted[opts.EntryKey(u)], opts)
  }

  lemma NewEntryImplements(d: Desired, opts: Options, drawn: nat)
    ensures Implements(NewEntry(d, opts, drawn), d, opts)
    ensures opts.EntryKey(NewEntry(d, opts, drawn)) == opts.DesiredKey(d)
  {
  }

  lemma {:induction false} CreatesFacts(
    records: seq<Desired>, wanted: map<string, Desired>, known: map<string, Entry>, opts: Options, drawn: nat)
    requires Selected(records, wanted, opts)
    ensures var created := Creates(records, known, opts, drawn);
      && (forall c | c in created ::
        Creatable(c, wanted, known, opts) && opts.EntryKey(c) in DesiredKeys(records, opts))
      && (forall d | d in records && opts.DesiredKey(d) !in known :: opts.DesiredKey(d) in EntryKeys(created, opts))
      && DistinctKeys(created, opts)
  {
    if records != [] {
      var d, rest := records[0], records[1..];
      assert d in records;
      assert Selected(rest, wanted, opts);
      assert forall x | x in DesiredKeys(rest, opts) :: x in DesiredKeys(records, opts);
      if opts.DesiredKey(d) in known {
        CreatesFacts(rest, wanted, known, opts, drawn);
      } else {
        CreatesFacts(rest, wanted, known, opts, drawn + 1);
        NewEntryImplements(d, opts, drawn);
        ConsFacts(NewEntry(d, opts, drawn), Creates(rest, known, opts, drawn + 1), DesiredKeys(rest, opts), opts);
      }
    }
  }

  /** An entry with a key of its own in front of entries with distinct keys. */
  lemma ConsFacts(e: Entry, later: seq<Entry>, keys: set<string>, opts: Options)
    requires DistinctKeys(later, opts) && opts.EntryKey(e) !in keys
    requires forall x | x in later :: opts.EntryKey(x) in keys
    ensures DistinctKeys([e] + later, opts)
    ensures EntryKeys([e] + later, opts) == {opts.EntryKey(e)} + EntryKeys(later, opts)
  {
  }

  lemma {:induction false} UpdatesFacts(
    records: seq<Desired>, wanted: map<string, Desired>, known: map<string, Entry>, opts: Options)
    requires Selected(records, wanted, opts)
    ensures var updated := Updates(records, known, opts);
      && (forall u | u in updated ::
        Updatable(u, wanted, known, opts) && opts.EntryKey(u) in DesiredKeys(records, opts))
      && (forall d | d in records && opts.DesiredKey(d) in DriftedKeys(wanted, known) ::
        opts.DesiredKey(d) in EntryKeys(updated, opts))
      && DistinctKeys(updated, opts)
  {
    if records != [] {
      var d, rest := records[0], records[1..];
      assert d in records;
      assert Selected(rest, wanted, opts);
      assert forall x | x in DesiredKeys(rest, opts) :: x in DesiredKeys(records, opts);
      UpdatesFacts(rest, wanted, known, opts);
      if opts.DesiredKey(d) in DriftedKeys(wanted, known) {
        var u := UpdatedEntry(known[opts.DesiredKey(d)].id, d, opts);
        assert opts.EntryKey(u) == opts.DesiredKey(d);
        ConsFacts(u, Updates(rest, known, opts), DesiredKeys(rest, opts), opts);
      }
    }
  }

  /** The ids created are consecutive draws from the generator. */
  lemma {:induction false} CreateIDs(
    records: seq<Desired>, known: map<string, Entry>, opts: Options, drawn: nat, i: nat)
    requires i < |Creates(records, known, opts, drawn)|
    ensures Creates(records, known, opts, drawn)[i].id == opts.className + "." + opts.newID(drawn + i)
  {
    if opts.DesiredKey(records[0]) in known {
      CreateIDs(records[1..], known, opts, drawn, i);
    } else if i > 0 {
      CreateIDs(records[1..], known, opts, drawn + 1, i - 1);
    }
  }

  lemma {:induction false} SurplusMembers(entries: seq<Entry>, keep: set<string>, todo: set<string>, opts: Options)
    ensures forall id | id in Surplus(entries, keep, todo, opts) ::
      exists e | e in entries :: e.id == id && opts.EntryKey(e) in todo - keep
    ensures forall e | e in entries && opts.EntryKey(e) in todo - keep :: e.id in Surplus(entries, keep, todo, opts)
  {
    if entries != [] {
      SurplusMembers(entries[1..], keep, todo, opts);
      assert entries[0] in entries;
      forall id | id in Surplus(entries[1..], keep, todo, opts)
        ensures exists e | e in entries :: e.id == id && opts.EntryKey(e) in todo - keep
      {
        var e :| e in entries[1..] && e.id == id && opts.EntryKey(e) in todo - keep;
        assert e in entries;
      }
    }
  }

  /** The keys of a list are those of its head and of its tail, which differ when keys are distinct. */
  lemma EntryKeysCons(entries: seq<Entry>, opts: Options)
    requires entries != []
    ensures EntryKeys(entries, opts) == {opts.EntryKey(entries[0])} + EntryKeys(entries[1..], opts)
    ensures DistinctKeys(entries, opts) ==> opts.EntryKey(entries[0]) !in EntryKeys(entries[1..], opts)
  {
    assert entries == [entries[0]] + entries[1..];
    forall e | e in entries[1..] && DistinctKeys(entries, opts) ensures opts.EntryKey(e) != opts.EntryKey(entries[0]) {
      var i :| 1 <= i < |entries| && entries[i] == e;
    }
  }

  lemma InsertCount(key: string, later: set<string>, chosen: set<string>)
    requires key !in later
    ensures |({key} + later) * chosen| == |later * chosen| + if key in chosen then 1 else 0
  {
    if key in chosen {
      assert ({key} + later) * chosen == {key} + later * chosen;
    } else {
      assert ({key} + later) * chosen == later * chosen;
    }
  }

  lemma {:induction false} SurplusCount(entries: seq<Entry>, keep: set<string>, todo: set<string>, opts: Options)
    requires DistinctKeys(entries, opts)
    ensures |Surplus(entries, keep, todo, opts)| == |EntryKeys(entries, opts) * (todo - keep)|
  {
    if entries == [] {
      assert EntryKeys(entries, opts) * (todo - keep) == {};
    } else {
      SurplusCount(entries[1..], keep, todo, opts);
      EntryKeysCons(entries, opts);
      InsertCount(opts.EntryKey(entries[0]), EntryKeys(entries[1..], opts), todo - keep);
    }
  }

  lemma {:induction false} DistinctCount(entries: seq<Entry>, opts: Options)
    requires DistinctKeys(entries, opts)
    ensures |entries| == |EntryKeys(entries, opts)|
  {
    if entries != [] {
      DistinctCount(entries[1..], opts);
      EntryKeysCons(entries, opts);
    }
  }

  // ----- the whole plan

  /** What a plan promises, for what is wanted and what is known. */
  ghost predicate Faithful(plan: Plan, wanted: map<string, Desired>, known: map<string, Entry>, opts: Options) {
    && (forall c | c in plan.create :: Creatable(c, wanted, known, opts))
    && EntryKeys(plan.create, opts) == wanted.Keys - known.Keys
    && DistinctKeys(plan.create, opts)
    && (forall u | u in plan.update :: Updatable(u, wanted, known, opts))
    && EntryKeys(plan.update, opts) == DriftedKeys(wanted, known)
    && DistinctKeys(plan.update, opts)
    && (forall id :: id in plan.delete <==> exists k | k in known.Keys - wanted.Keys :: known[k].id == id)
    && |plan.delete| == |known.Keys - wanted.Keys|
    && Sorted(plan.delete)
  }

  lemma VisibleKeys(existing: seq<Entry>, opts: Options)
    ensures EntryKeys(Visible(existing, opts), opts) == ByKey(existing, opts).Keys
  {
    VisibleFacts(existing, opts);
    var visible, known := Visible(existing, opts), ByKey(existing, opts);
    forall k | k in known ensures k in EntryKeys(visible, opts) {
      assert known[k] in visible;
    }
  }

  lemma SortedSame(ids: seq<string>)
    ensures Sorted(SortStrings(ids)) && |SortStrings(ids)| == |ids|
    ensures forall id :: id in SortStrings(ids) <==> id in ids
  {
    SortStringsSorts(ids);
    assert |multiset(SortStrings(ids))| == |multiset(ids)|;
    forall id ensures id in SortStrings(ids) <==> id in ids {
      assert id in SortStrings(ids) <==> id in multiset(SortStrings(ids));
      assert id in ids <==> id in multiset(ids);
    }
  }

  lemma DeleteCount(desired: seq<Desired>, existing: seq<Entry>, opts: Options)
    ensures |Deletes(existing, desired, opts)| == |ByKey(existing, opts).Keys - Wanted(desired, opts).Keys|
  {
    var keys, wantedKeys := ByKey(existing, opts).Keys, DesiredKeys(desired, opts);
    WantedKeys(desired, opts);
    VisibleFacts(existing, opts);
    VisibleKeys(existing, opts);
    SurplusCount(Visible(existing, opts), wantedKeys, keys, opts);
    assert keys * (keys - wantedKeys) == keys - wantedKeys;
  }

  lemma DeleteMembers(desired: seq<Desired>, existing: seq<Entry>, opts: Options)
    ensures var wanted, known := Wanted(desired, opts), ByKey(existing, opts);
      forall id :: id in Deletes(existing, desired, opts)
        <==> exists k | k in known.Keys - wanted.Keys :: known[k].id == id
  {
    var wanted, known, visible := Wanted(desired, opts), ByKey(existing, opts), Visible(existing, opts);
    WantedKeys(desired, opts);
    VisibleFacts(existing, opts);
    SurplusMembers(visible, DesiredKeys(desired, opts), known.Keys, opts);
    var ids := Deletes(existing, desired, opts);
    forall id ensures id in ids <==> exists k | k in known.Keys - wanted.Keys :: known[k].id == id {
      if id in ids {
        var e :| e in visible && e.id == id && opts.EntryKey(e) in known.Keys - wanted.Keys;
        assert known[opts.EntryKey(e)].id == id;
      }
      if exists k | k in known.Keys - wanted.Keys :: known[k].id == id {
        var k :| k in known.Keys - wanted.Keys && known[k].id == id;
        assert known[k] in visible;
      }
    }
  }

  /**
   * The meaning of a plan, from any desired list and any entry list: it creates exactly the wanted
   * keys no owned entry has, updates in place exactly the drifted ones, and deletes exactly the known
   * entries whose key is not wanted.
   */
  lemma PlanMeaning(desired: seq<Desired>, existing: seq<Entry>, opts: Options, drawn: nat)
    ensures Faithful(DiffPlan(desired, existing, opts, drawn), Wanted(desired, opts), ByKey(existing, opts), opts)
  {
    var firsts, wanted, known := Firsts(desired, {}, opts), Wanted(desired, opts), ByKey(existing, opts);
    FirstsFacts(desired, {}, opts);
    assert Selected(firsts, wanted, opts);
    CreatesFacts(firsts, wanted, known, opts, drawn);
    UpdatesFacts(firsts, wanted, known, opts);
    DeleteCount(desired, existing, opts);
    DeleteMembers(desired, existing, opts);
    SortedSame(Deletes(existing, desired, opts));
    KeySets(firsts, wanted, known, opts, drawn);
  }

  lemma KeySets(
    firsts: seq<Desired>, wanted: map<string, Desired>, known: map<string, Entry>, opts: Options, drawn: nat)
    requires Selected(firsts, wanted, opts)
    requires forall k | k in wanted :: wanted[k] in firsts && opts.DesiredKey(wanted[k]) == k
    ensures EntryKeys(Creates(firsts, known, opts, drawn), opts) == wanted.Keys - known.Keys
    ensures EntryKeys(Updates(firsts, known, opts), opts) == DriftedKeys(wanted, known)
  {
    CreatesFacts(firsts, wanted, known, opts, drawn);
    UpdatesFacts(firsts, wanted, known, opts);
    forall k | k in wanted.Keys - known.Keys ensures k in EntryKeys(Creates(firsts, known, opts, drawn), opts) {
      assert wanted[k] in firsts;
    }
    forall k | k in DriftedKeys(wanted, known) ensures k in EntryKeys(Updates(firsts, known, opts), opts) {
      assert wanted[k] in firsts;
    }
  }

  // ----- record by record, field by field

  /** Of several owned entries with one key the planner sees the last. */
  lemma {:induction false} LastSeen(existing: seq<Entry>, i: nat, opts: Options)
    requires i < |existing| && opts.owns.Owns(existing[i])
    requires forall j | i < j < |existing| && opts.owns.Owns(existing[j]) ::
      opts.key(existing[j].parentID, existing[j].selectors) != opts.key(existing[i].parentID, existing[i].selectors)
    ensures var k := opts.key(existing[i].parentID, existing[i].selectors);
      k in ByKey(existing, opts) && ByKey(existing, opts)[k] == existing[i]
  {
    if i > 0 {
      LastSeen(existing[1..], i - 1, opts);
    } else {
      forall k | k in ByKey(existing[1..], opts) ensures k != opts.EntryKey(existing[0]) {
        VisibleFacts(existing[1..], opts);
        assert ByKey(existing[1..], opts)[k] in Visible(existing[1..], opts);
      }
    }
  }

  /** What the loop has done so far is the plan but for the deletes. */
  lemma PlanIsMatch(desired: seq<Desired>, existing: seq<Entry>, opts: Options, drawn: nat)
    ensures var p := DiffPlan(desired, existing, opts, drawn);
      Match(desired, {}, ByKey(existing, opts), opts, drawn, Matching([], [], []))
      == Matching(p.create, p.update, p.warnings)
  {
    MatchParts(desired, {}, ByKey(existing, opts), opts, drawn, Matching([], [], []));
  }

  /** The entry that a record asks for, under this id. */
  function EntryFor(id: string, d: Desired, opts: Options): Entry {
    Entry(
      id := id,
      spiffeID := d.spiffeID,
      parentID := d.parentID,
      selectors := d.selectors,
      x509TTL := d.x509TTL,
      jwtTTL := d.jwtTTL,
      hint := opts.hint)
  }

  /**
   * What one more record at the end adds to a plan: a warning if an earlier one has its key; else a create with
   * the next id if no owned entry has it; else an update of the entry that has it, if that differs.
   */
  lemma PlanGrows(desired: seq<Desired>, d: Desired, existing: seq<Entry>, opts: Options, drawn: nat)
    ensures var p, q := DiffPlan(desired, existing, opts, drawn), DiffPlan(desired + [d], existing, opts, drawn);
      var key, known := opts.key(d.parentID, d.selectors), ByKey(existing, opts);
      if exists x | x in desired :: opts.key(x.parentID, x.selectors) == key then
        q.create == p.create && q.update == p.update && q.warnings == p.warnings + [d]
      else if key !in known then
        var id := opts.className + "." + opts.newID(drawn + |p.create|);
        q.create == p.create + [EntryFor(id, d, opts)] && q.update == p.update && q.warnings == p.warnings
      else
        && q.create == p.create && q.warnings == p.warnings
        && q.update == p.update +
          if && IDString(known[key].spiffeID) == IDString(d.spiffeID)
             && known[key].x509TTL == d.x509TTL && known[key].jwtTTL == d.jwtTTL
          then [] else [EntryFor(known[key].id, d, opts)]
  {
    PlanIsMatch(desired, existing, opts, drawn);
    PlanIsMatch(desired + [d], existing, opts, drawn);
    MatchAppend(desired, d, {}, ByKey(existing, opts), opts, drawn, Matching([], [], []));
    assert {} + DesiredKeys(desired, opts) == DesiredKeys(desired, opts);
  }
}
