/** The difference between the entries Slurm implies and the ones SPIRE holds. */
module Reconcile {
  import opened Sorting
  import opened Entries

  datatype Plan = Plan(
    create: seq<Entry>,
    update: seq<Entry>,
    delete: seq<string>,
    warnings: seq<Desired>)
  {
    predicate Empty() {
      |create| == 0 && |update| == 0 && |delete| == 0
    }
  }

  /**
   * newID is the stream of identifiers that successive calls of the generator return. The key
   * function is a parameter too, so that what is proved of plans holds for every key function.
   */
  datatype Options = Options(
    className: string,
    hint: string,
    newID: nat -> string,
    owns: Ownership,
    key: KeyFunction)
  {
    function EntryKey(e: Entry): string {
      key(e.parentID, e.selectors)
    }

    function DesiredKey(d: Desired): string {
      key(d.parentID, d.selectors)
    }
  }

  predicate Drifted(d: Desired, current: Entry) {
    || IDString(d.spiffeID) != IDString(current.spiffeID)
    || d.x509TTL != current.x509TTL
    || d.jwtTTL != current.jwtTTL
  }

  function UpdatedEntry(id: string, d: Desired, opts: Options): Entry {
    Entry(id, d.spiffeID, d.parentID, d.selectors, d.x509TTL, d.jwtTTL, opts.hint)
  }

  function NewEntry(d: Desired, opts: Options, drawn: nat): Entry {
    UpdatedEntry("", d, opts).(id := opts.className + "." + opts.newID(drawn))
  }

  // ----- the specification of a plan

  /** The owned entries by key; of several with one key, the last. */
  function ByKey(existing: seq<Entry>, opts: Options): map<string, Entry> {
    if existing == [] then map[]
    else
      var later := ByKey(existing[1..], opts);
      var e := existing[0];
      if opts.owns.Owns(e) && opts.EntryKey(e) !in later then later[opts.EntryKey(e) := e] else later
  }

  /** The same entries in list order. */
  function Visible(existing: seq<Entry>, opts: Options): seq<Entry> {
    if existing == [] then []
    else
      var e := existing[0];
      var later := Visible(existing[1..], opts);
      if opts.owns.Owns(e) && opts.EntryKey(e) !in ByKey(existing[1..], opts) then [e] + later else later
  }

  /** The first record of every key not in seen. */
  function Firsts(desired: seq<Desired>, seen: set<string>, opts: Options): seq<Desired> {
    if desired == [] then []
    else
      var key := opts.DesiredKey(desired[0]);
      if key in seen then Firsts(desired[1..], seen, opts)
      else [desired[0]] + Firsts(desired[1..], seen + {key}, opts)
  }

  function Repeats(desired: seq<Desired>, seen: set<string>, opts: Options): seq<Desired> {
    if desired == [] then []
    else
      var key := opts.DesiredKey(desired[0]);
      if key in seen then [desired[0]] + Repeats(desired[1..], seen, opts)
      else Repeats(desired[1..], seen + {key}, opts)
  }

  function DesiredKeys(desired: seq<Desired>, opts: Options): set<string> {
    set d | d in desired :: opts.DesiredKey(d)
  }

  function Creates(firsts: seq<Desired>, known: map<string, Entry>, opts: Options, drawn: nat): seq<Entry> {
    if firsts == [] then []
    else if opts.DesiredKey(firsts[0]) in known then Creates(firsts[1..], known, opts, drawn)
    else [NewEntry(firsts[0], opts, drawn)] + Creates(firsts[1..], known, opts, drawn + 1)
  }

  function Updates(firsts: seq<Desired>, known: map<string, Entry>, opts: Options): seq<Entry> {
    if firsts == [] then []
    else
      var d := firsts[0];
      var later := Updates(firsts[1..], known, opts);
      if opts.DesiredKey(d) in known && Drifted(d, known[opts.DesiredKey(d)])
      then [UpdatedEntry(known[opts.DesiredKey(d)].id, d, opts)] + later
      else later
  }

  /** The ids of the entries whose key is in todo and not in keep. */
  function Surplus(entries: seq<Entry>, keep: set<string>, todo: set<string>, opts: Options): seq<string> {
    if entries == [] then []
    else
      var later := Surplus(entries[1..], keep, todo, opts);
      if opts.EntryKey(entries[0]) !in keep && opts.EntryKey(entries[0]) in todo then [entries[0].id] + later else later
  }

  /** The ids that a plan deletes, before sorting. */
  function Deletes(existing: seq<Entry>, desired: seq<Desired>, opts: Options): seq<string> {
    Surplus(Visible(existing, opts), DesiredKeys(desired, opts), ByKey(existing, opts).Keys, opts)
  }

  function DiffPlan(desired: seq<Desired>, existing: seq<Entry>, opts: Options, drawn: nat): Plan {
    var known := ByKey(existing, opts);
    var firsts := Firsts(desired, {}, opts);
    Plan(
      Creates(firsts, known, opts, drawn),
      Updates(firsts, known, opts),
      SortStrings(Deletes(existing, desired, opts)),
      Repeats(desired, {}, opts))
  }

  // ----- the loops

  method Diff(desired: seq<Desired>, existing: seq<Entry>, opts: Options, drawn: nat)
    returns (plan: Plan)
    ensures plan == DiffPlan(desired, existing, opts, drawn)
  {
    var byKey := IndexByKey(existing, opts);
    var create, update, warnings, matched := MatchDesired(desired, byKey, opts, drawn);
    MatchParts(desired, {}, byKey, opts, drawn, Matching([], [], []));
    var delete := DeleteUnmatched(existing, opts, byKey, matched, desired);
    plan := Plan(create, update, delete, warnings);
  }

  method IndexByKey(existing: seq<Entry>, opts: Options) returns (byKey: map<string, Entry>)
    ensures byKey == ByKey(existing, opts)
  {
    byKey := map[];
    var i := 0;
    while i < |existing|
      invariant 0 <= i <= |existing|
      invariant byKey + ByKey(existing[i..], opts) == ByKey(existing, opts)
    {
      var e := existing[i];
      assert existing[i..][1..] == existing[i + 1..];
      ghost var later := ByKey(existing[i + 1..], opts);
      if opts.owns.Owns(e) {
        assert byKey[opts.EntryKey(e) := e] + later == byKey + ByKey(existing[i..], opts);
        byKey := byKey[opts.EntryKey(e) := e];
      }
      i := i + 1;
    }
  }

  /** The state of the matching loop. */
  datatype Matching = Matching(create: seq<Entry>, update: seq<Entry>, warnings: seq<Desired>)

  /** One record with a key not seen before. */
  function MatchFirst(d: Desired, byKey: map<string, Entry>, opts: Options, drawn: nat, m: Matching): Matching {
    var key := opts.DesiredKey(d);
    if key !in byKey then m.(create := m.create + [NewEntry(d, opts, drawn + |m.create|)])
    else if Drifted(d, byKey[key]) then m.(update := m.update + [UpdatedEntry(byKey[key].id, d, opts)])
    else m
  }

  /** The matching loop run to its end. */
  function Match(
    desired: seq<Desired>, seen: set<string>, byKey: map<string, Entry>, opts: Options, drawn: nat,
    m: Matching): Matching
  {
    if desired == [] then m
    else
      var d := desired[0];
      var key := opts.DesiredKey(d);
      if key in seen then Match(desired[1..], seen, byKey, opts, drawn, m.(warnings := m.warnings + [d]))
      else Match(desired[1..], seen + {key}, byKey, opts, drawn, MatchFirst(d, byKey, opts, drawn, m))
  }

  lemma CreatesCons(d: Desired, rest: seq<Desired>, byKey: map<string, Entry>, opts: Options, drawn: nat)
    ensures Creates([d] + rest, byKey, opts, drawn) ==
      if opts.DesiredKey(d) in byKey then Creates(rest, byKey, opts, drawn)
      else [NewEntry(d, opts, drawn)] + Creates(rest, byKey, opts, drawn + 1)
  {
    assert ([d] + rest)[1..] == rest;
  }

  lemma MatchFirstCreates(
    d: Desired, rest: seq<Desired>, byKey: map<string, Entry>, opts: Options, drawn: nat, m: Matching)
    ensures var m' := MatchFirst(d, byKey, opts, drawn, m);
      m'.create + Creates(rest, byKey, opts, drawn + |m'.create|)
      == m.create + Creates([d] + rest, byKey, opts, drawn + |m.create|)
  {
    CreatesCons(d, rest, byKey, opts, drawn + |m.create|);
    if opts.DesiredKey(d) !in byKey {
      var e, later := NewEntry(d, opts, drawn + |m.create|), Creates(rest, byKey, opts, drawn + |m.create| + 1);
      assert m.create + ([e] + later) == m.create + [e] + later;
    }
  }

  lemma MatchFirstUpdates(
    d: Desired, rest: seq<Desired>, byKey: map<string, Entry>, opts: Options, drawn: nat, m: Matching)
    ensures var m' := MatchFirst(d, byKey, opts, drawn, m);
      m'.update + Updates(rest, byKey, opts) == m.update + Updates([d] + rest, byKey, opts)
  {
    assert ([d] + rest)[1..] == rest;
    var key := opts.DesiredKey(d);
    if key in byKey && Drifted(d, byKey[key]) {
      var u, later := UpdatedEntry(byKey[key].id, d, opts), Updates(rest, byKey, opts);
      assert m.update + ([u] + later) == m.update + [u] + later;
    }
  }

  /** The creates of the loop. */
  lemma {:induction false} MatchCreates(
    desired: seq<Desired>, seen: set<string>, byKey: map<string, Entry>, opts: Options, drawn: nat, m: Matching)
    ensures Match(desired, seen, byKey, opts, drawn, m).create
         == m.create + Creates(Firsts(desired, seen, opts), byKey, opts, drawn + |m.create|)
  {
    if desired != [] {
      var d, rest := desired[0], desired[1..];
      var key := opts.DesiredKey(d);
      if key in seen {
        MatchCreates(rest, seen, byKey, opts, drawn, m.(warnings := m.warnings + [d]));
      } else {
        MatchFirstCreates(d, Firsts(rest, seen + {key}, opts), byKey, opts, drawn, m);
        MatchCreates(rest, seen + {key}, byKey, opts, drawn, MatchFirst(d, byKey, opts, drawn, m));
      }
    }
  }

  /** The updates of the loop. */
  lemma {:induction false} MatchUpdates(
    desired: seq<Desired>, seen: set<string>, byKey: map<string, Entry>, opts: Options, drawn: nat, m: Matching)
    ensures Match(desired, seen, byKey, opts, drawn, m).update
         == m.update + Updates(Firsts(desired, seen, opts), byKey, opts)
  {
    if desired != [] {
      var d, rest := desired[0], desired[1..];
      var key := opts.DesiredKey(d);
      if key in seen {
        MatchUpdates(rest, seen, byKey, opts, drawn, m.(warnings := m.warnings + [d]));
      } else {
        MatchFirstUpdates(d, Firsts(rest, seen + {key}, opts), byKey, opts, drawn, m);
        MatchUpdates(rest, seen + {key}, byKey, opts, drawn, MatchFirst(d, byKey, opts, drawn, m));
      }
    }
  }

  /** The warnings of the loop. */
  lemma {:induction false} MatchWarnings(
    desired: seq<Desired>, seen: set<string>, byKey: map<string, Entry>, opts: Options, drawn: nat, m: Matching)
    ensures Match(desired, seen, byKey, opts, drawn, m).warnings == m.warnings + Repeats(desired, seen, opts)
  {
    if desired != [] {
      var d, rest := desired[0], desired[1..];
      var key := opts.DesiredKey(d);
      if key in seen {
        MatchWarnings(rest, seen, byKey, opts, drawn, m.(warnings := m.warnings + [d]));
        assert m.warnings + [d] + Repeats(rest, seen, opts) == m.warnings + ([d] + Repeats(rest, seen, opts));
      } else {
        MatchWarnings(rest, seen + {key}, byKey, opts, drawn, MatchFirst(d, byKey, opts, drawn, m));
      }
    }
  }

  /** The loop, which does three things at once, does each of the three. */
  lemma MatchParts(
    desired: seq<Desired>, seen: set<string>, byKey: map<string, Entry>, opts: Options, drawn: nat, m: Matching)
    ensures var r, firsts := Match(desired, seen, byKey, opts, drawn, m), Firsts(desired, seen, opts);
      && r.create == m.create + Creates(firsts, byKey, opts, drawn + |m.create|)
      && r.update == m.update + Updates(firsts, byKey, opts)
      && r.warnings == m.warnings + Repeats(desired, seen, opts)
  {
    MatchCreates(desired, seen, byKey, opts, drawn, m);
    MatchUpdates(desired, seen, byKey, opts, drawn, m);
    MatchWarnings(desired, seen, byKey, opts, drawn, m);
  }

  /** The loop with one more record at the end. */
  lemma {:induction false} MatchAppend(
    desired: seq<Desired>, d: Desired, seen: set<string>, byKey: map<string, Entry>, opts: Options, drawn: nat,
    m: Matching)
    ensures Match(desired + [d], seen, byKey, opts, drawn, m) ==
      var r := Match(desired, seen, byKey, opts, drawn, m);
      if opts.DesiredKey(d) in seen + DesiredKeys(desired, opts) then r.(warnings := r.warnings + [d])
      else MatchFirst(d, byKey, opts, drawn, r)
  {
    if desired == [] {
      assert [] + [d] == [d];
    } else {
      var first, rest := desired[0], desired[1..];
      assert (desired + [d])[1..] == rest + [d];
      assert desired == [first] + rest;
      var key := opts.DesiredKey(first);
      assert seen + DesiredKeys(desired, opts) == seen + {key} + DesiredKeys(rest, opts);
      if key in seen {
        assert seen + {key} == seen;
        MatchAppend(rest, d, seen, byKey, opts, drawn, m.(warnings := m.warnings + [first]));
      } else {
        MatchAppend(rest, d, seen + {key}, byKey, opts, drawn, MatchFirst(first, byKey, opts, drawn, m));
      }
    }
  }

  /** The matching loop run over the first i records. */
  function MatchTo(desired: seq<Desired>, i: nat, byKey: map<string, Entry>, opts: Options, drawn: nat): Matching
    requires i <= |desired|
  {
    Match(desired[..i], {}, byKey, opts, drawn, Matching([], [], []))
  }

  lemma MatchNext(desired: seq<Desired>, i: nat, byKey: map<string, Entry>, opts: Options, drawn: nat)
    requires i < |desired|
    ensures MatchTo(desired, i + 1, byKey, opts, drawn) ==
      var r := MatchTo(desired, i, byKey, opts, drawn);
      if opts.DesiredKey(desired[i]) in DesiredKeys(desired[..i], opts) then r.(warnings := r.warnings + [desired[i]])
      else MatchFirst(desired[i], byKey, opts, drawn, r)
    ensures DesiredKeys(desired[..i + 1], opts) == DesiredKeys(desired[..i], opts) + {opts.DesiredKey(desired[i])}
  {
    assert desired[..i + 1] == desired[..i] + [desired[i]];
    MatchAppend(desired[..i], desired[i], {}, byKey, opts, drawn, Matching([], [], []));
  }

  method MatchDesired(desired: seq<Desired>, byKey: map<string, Entry>, opts: Options, drawn: nat)
    returns (create: seq<Entry>, update: seq<Entry>, warnings: seq<Desired>, matched: set<string>)
    ensures Matching(create, update, warnings) == Match(desired, {}, byKey, opts, drawn, Matching([], [], []))
    ensures matched == DesiredKeys(desired, opts) * byKey.Keys
  {
    create, update, warnings, matched := [], [], [], {};
    var seen: set<string> := {};
    var i := 0;
    while i < |desired|
      invariant 0 <= i <= |desired|
      invariant seen == DesiredKeys(desired[..i], opts)
      invariant matched == seen * byKey.Keys
      invariant Matching(create, update, warnings) == MatchTo(desired, i, byKey, opts, drawn)
    {
      var d := desired[i];
      var key := opts.DesiredKey(d);
      MatchNext(desired, i, byKey, opts, drawn);
      if key in seen {
        warnings := warnings + [d];
      } else {
        seen := seen + {key};
        if key !in byKey {
          create := create + [NewEntry(d, opts, drawn + |create|)];
        } else {
          matched := matched + {key};
          if Drifted(d, byKey[key]) {
            update := update + [UpdatedEntry(byKey[key].id, d, opts)];
          }
        }
      }
      i := i + 1;
    }
    assert desired[..i] == desired;
  }

  /** The keys of a Go map come in any order; sorting the ids makes the order irrelevant. */
  method DeleteUnmatched(
    ghost existing: seq<Entry>, ghost opts: Options,
    byKey: map<string, Entry>, matched: set<string>, ghost desired: seq<Desired>)
    returns (delete: seq<string>)
    requires byKey == ByKey(existing, opts)
    requires matched == DesiredKeys(desired, opts) * byKey.Keys
    ensures delete == SortStrings(Deletes(existing, desired, opts))
  {
    ghost var visible, keep := Visible(existing, opts), DesiredKeys(desired, opts);
    VisibleFacts(existing, opts);
    delete := [];
    var todo := byKey.Keys;
    SurplusNone(visible, keep, opts);
    while todo != {}
      invariant todo <= byKey.Keys
      invariant multiset(delete) + multiset(Surplus(visible, keep, todo, opts))
             == multiset(Deletes(existing, desired, opts))
      decreases |todo|
    {
      var key :| key in todo;
      SurplusStep(visible, keep, todo, key, byKey[key], opts);
      assert key in matched <==> key in keep;
      todo := todo - {key};
      if key !in matched {
        delete := delete + [byKey[key].id];
      }
    }
    SortCanonical(delete, Deletes(existing, desired, opts));
    delete := SortStrings(delete);
  }

  lemma {:induction false} SurplusNone(entries: seq<Entry>, keep: set<string>, opts: Options)
    ensures Surplus(entries, keep, {}, opts) == []
  {
    if entries != [] { SurplusNone(entries[1..], keep, opts); }
  }

  ghost predicate DistinctKeys(entries: seq<Entry>, opts: Options) {
    forall i, j | 0 <= i < j < |entries| :: opts.EntryKey(entries[i]) != opts.EntryKey(entries[j])
  }

  lemma {:induction false} SurplusStep(
    entries: seq<Entry>, keep: set<string>, todo: set<string>, key: string, e: Entry, opts: Options)
    requires DistinctKeys(entries, opts)
    requires key in todo && e in entries && opts.EntryKey(e) == key
    ensures multiset(Surplus(entries, keep, todo, opts))
         == multiset(Surplus(entries, keep, todo - {key}, opts)) + (if key in keep then multiset{} else multiset{e.id})
  {
    var rest := entries[1..];
    if opts.EntryKey(entries[0]) == key {
      SurplusOther(rest, keep, todo, key, opts);
    } else {
      assert e in rest;
      SurplusStep(rest, keep, todo, key, e, opts);
    }
  }

  lemma {:induction false} SurplusOther(
    entries: seq<Entry>, keep: set<string>, todo: set<string>, key: string, opts: Options)
    requires forall e | e in entries :: opts.EntryKey(e) != key
    ensures Surplus(entries, keep, todo - {key}, opts) == Surplus(entries, keep, todo, opts)
  {
    if entries != [] { SurplusOther(entries[1..], keep, todo, key, opts); }
  }

  /** The visible entries are exactly the values of the index, one for each key. */
  lemma {:induction false} VisibleFacts(existing: seq<Entry>, opts: Options)
    ensures var visible, known := Visible(existing, opts), ByKey(existing, opts);
      && DistinctKeys(visible, opts)
      && (forall e | e in visible ::
        e in existing && opts.owns.Owns(e) && opts.EntryKey(e) in known && known[opts.EntryKey(e)] == e)
      && (forall k | k in known :: known[k] in visible && opts.EntryKey(known[k]) == k)
      && (forall e | e in existing && opts.owns.Owns(e) :: opts.EntryKey(e) in known)
  {
    if existing != [] {
      VisibleFacts(existing[1..], opts);
    }
  }
}
