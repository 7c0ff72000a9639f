/** From squeue records to the first plan: which entries a first reconcile creates. */
module Pipeline {
  import opened Wrappers
  import opened Entries
  import opened Reconcile
  import opened JobHosts
  import opened Records
  import Squeue

  /** What tells two entries apart: the kind of identifier, the identifier, and the rendered parent. */
  datatype Triple = Triple(identity: Identity, parentID: Option<SpiffeID>)

  function TripleOf(cfg: Config, h: JobHost): Triple
    requires Rendered(cfg, h).Some?
  {
    Triple(IdentityOf(h), Rendered(cfg, h).value.parentID)
  }

  /** A host that renders to a well-shaped parent and whose identifier holds no NUL. */
  ghost predicate Clean(cfg: Config, h: JobHost) {
    Rendered(cfg, h).Some? && Shaped(Rendered(cfg, h).value.parentID) && NulFree(h.Key())
  }

  lemma SelectorsReadable(h: JobHost, p: Option<SpiffeID>)
    requires NulFree(h.Key()) && Shaped(p)
    ensures Readable(p, SelectorsOf(h))
  {
  }

  /** For clean hosts the match key tells exactly the triples apart. */
  lemma KeyIsTriple(cfg: Config, a: JobHost, b: JobHost)
    requires Clean(cfg, a) && Clean(cfg, b)
    ensures var x, y := Rendered(cfg, a).value, Rendered(cfg, b).value;
      Key(x.parentID, x.selectors) == Key(y.parentID, y.selectors) <==> TripleOf(cfg, a) == TripleOf(cfg, b)
  {
    var x, y := Rendered(cfg, a).value, Rendered(cfg, b).value;
    SelectorsReadable(a, x.parentID);
    SelectorsReadable(b, y.parentID);
    KeyCanonical(x.parentID, x.selectors, y.parentID, y.selectors);
    SelectorValueInjective(a, b);
    var s, t := x.selectors[0], y.selectors[0];
    assert s in multiset(x.selectors) && t in multiset(y.selectors);
    assert multiset(x.selectors) == multiset(y.selectors) <==> s == t;
  }

  /** The position holds a host that renders, with a triple no earlier one has. */
  ghost predicate Leads(cfg: Config, hosts: seq<JobHost>, p: nat)
    requires p < |hosts|
  {
    && Rendered(cfg, hosts[p]).Some?
    && forall q: nat | q < p && Rendered(cfg, hosts[q]).Some? :: TripleOf(cfg, hosts[q]) != TripleOf(cfg, hosts[p])
  }

  /** The leading positions below n, in order. */
  ghost function Leaders(cfg: Config, hosts: seq<JobHost>, n: nat): (ps: seq<nat>)
    requires n <= |hosts|
    ensures forall i | 0 <= i < |ps| :: ps[i] < n && Leads(cfg, hosts, ps[i])
  {
    if n == 0 then []
    else Leaders(cfg, hosts, n - 1) + if Leads(cfg, hosts, n - 1) then [n - 1] else []
  }

  lemma {:induction false} LeadersFacts(cfg: Config, hosts: seq<JobHost>, n: nat)
    requires n <= |hosts|
    ensures var ps := Leaders(cfg, hosts, n);
      && (forall i, j | 0 <= i < j < |ps| :: ps[i] < ps[j])
      && (forall p: nat | p < n && Leads(cfg, hosts, p) :: p in ps)
  {
    if n > 0 { LeadersFacts(cfg, hosts, n - 1); }
  }

  lemma {:induction false} FirstsAppend(desired: seq<Desired>, d: Desired, seen: set<string>, opts: Options)
    ensures Firsts(desired + [d], seen, opts) == Firsts(desired, seen, opts) +
      if opts.DesiredKey(d) in seen || opts.DesiredKey(d) in DesiredKeys(desired, opts) then [] else [d]
  {
    if desired == [] {
      assert desired + [d] == [d];
    } else {
      var all, rest := desired + [d], desired[1..];
      assert all[1..] == rest + [d];
      assert desired == [desired[0]] + rest;
      var key := opts.DesiredKey(desired[0]);
      assert DesiredKeys(desired, opts) == {key} + DesiredKeys(rest, opts);
      FirstsAppend(rest, d, if key in seen then seen else seen + {key}, opts);
    }
  }

  /** Keys and triples agree about the hosts that render. */
  ghost predicate KeysAreTriples(cfg: Config, hosts: seq<JobHost>, opts: Options) {
    forall a, b | a in hosts && b in hosts && Rendered(cfg, a).Some? && Rendered(cfg, b).Some? ::
      opts.DesiredKey(Rendered(cfg, a).value) == opts.DesiredKey(Rendered(cfg, b).value)
      <==> TripleOf(cfg, a) == TripleOf(cfg, b)
  }

  lemma LeadsIsNewKey(cfg: Config, hosts: seq<JobHost>, p: nat, opts: Options)
    requires p < |hosts| && Rendered(cfg, hosts[p]).Some? && KeysAreTriples(cfg, hosts, opts)
    ensures Leads(cfg, hosts, p)
      <==> opts.DesiredKey(Rendered(cfg, hosts[p]).value) !in DesiredKeys(DesiredFor(cfg, hosts[..p]), opts)
  {
    var earlier := DesiredFor(cfg, hosts[..p]);
    var key := opts.DesiredKey(Rendered(cfg, hosts[p]).value);
    DesiredFrom(cfg, hosts[..p]);
    if key in DesiredKeys(earlier, opts) {
      var d :| d in earlier && opts.DesiredKey(d) == key;
      var h :| h in hosts[..p] && Rendered(cfg, h) == Some(d);
      var q :| 0 <= q < p && hosts[q] == h;
      assert TripleOf(cfg, hosts[q]) == TripleOf(cfg, hosts[p]);
    }
    forall q: nat | q < p && Rendered(cfg, hosts[q]).Some? && TripleOf(cfg, hosts[q]) == TripleOf(cfg, hosts[p])
      ensures key in DesiredKeys(earlier, opts)
    {
      assert hosts[q] in hosts[..p] && Rendered(cfg, hosts[q]).value in earlier;
    }
  }

  /** The deduplicated records are those of the leading positions, in order. */
  lemma {:induction false} FirstsAreLeaders(cfg: Config, hosts: seq<JobHost>, n: nat, opts: Options)
    requires n <= |hosts| && KeysAreTriples(cfg, hosts, opts)
    ensures var firsts, ps := Firsts(DesiredFor(cfg, hosts[..n]), {}, opts), Leaders(cfg, hosts, n);
      |firsts| == |ps| && forall i | 0 <= i < |ps| :: Rendered(cfg, hosts[ps[i]]) == Some(firsts[i])
  {
    if n > 0 {
      var h, before := hosts[n - 1], hosts[..n - 1];
      FirstsAreLeaders(cfg, hosts, n - 1, opts);
      assert hosts[..n] == before + [h];
      DesiredAppend(cfg, before, [h]);
      match Rendered(cfg, h)
      case None =>
        assert DesiredFor(cfg, before) + [] == DesiredFor(cfg, before);
      case Some(d) =>
        LeadsIsNewKey(cfg, hosts, n - 1, opts);
        assert DesiredFor(cfg, [h]) == [d];
        FirstsAppend(DesiredFor(cfg, before), d, {}, opts);
    }
  }

  lemma {:induction false} CreatesAll(records: seq<Desired>, opts: Options, drawn: nat)
    ensures var created := Creates(records, map[], opts, drawn);
      |created| == |records| && forall i | 0 <= i < |records| :: created[i] == NewEntry(records[i], opts, drawn + i)
  {
    if records != [] { CreatesAll(records[1..], opts, drawn + 1); }
  }

  /** Against an empty server a plan only creates, one entry for each deduplicated record. */
  lemma {:induction false} FirstPlan(desired: seq<Desired>, opts: Options, drawn: nat)
    ensures var plan, firsts := DiffPlan(desired, [], opts, drawn), Firsts(desired, {}, opts);
      && plan.update == [] && plan.delete == [] && |plan.create| == |firsts|
      && forall i | 0 <= i < |firsts| :: plan.create[i] == NewEntry(firsts[i], opts, drawn + i)
  {
    var firsts := Firsts(desired, {}, opts);
    CreatesAll(firsts, opts, drawn);
    UpdatesNone(firsts, opts);
  }

  lemma {:induction false} UpdatesNone(records: seq<Desired>, opts: Options)
    ensures Updates(records, map[], opts) == []
  {
    if records != [] { UpdatesNone(records[1..], opts); }
  }

  /** The hosts of a gather whose identifiers and parents are as the key function needs them. */
  ghost predicate CleanHosts(cfg: Config, hosts: seq<JobHost>) {
    forall h | h in hosts && Rendered(cfg, h).Some? :: Clean(cfg, h)
  }

  /**
   * Pipeline identity. Parsing, rendering and planning against an empty server creates one entry
   * for each distinct triple of identifier kind, identifier and rendered parent, in the order in
   * which they first occur, each saying what the first host of its triple rendered to; nothing
   * else is planned, and every host that renders is covered.
   */
  lemma PipelineIdentity(jobIdentifier: string, jobs: seq<Squeue.Job>, cfg: Config, opts: Options, drawn: nat)
    requires Squeue.FromJobs(jobIdentifier, jobs).Hosts?
    requires CleanHosts(cfg, Squeue.FromJobs(jobIdentifier, jobs).hosts)
    requires forall p, s :: opts.key(p, s) == Key(p, s)
    ensures var hosts := Squeue.FromJobs(jobIdentifier, jobs).hosts;
      var plan, ps := DiffPlan(DesiredFor(cfg, hosts), [], opts, drawn), Leaders(cfg, hosts, |hosts|);
      && plan.update == [] && plan.delete == [] && |plan.create| == |ps|
      && (forall i | 0 <= i < |ps| :: plan.create[i] == NewEntry(Rendered(cfg, hosts[ps[i]]).value, opts, drawn + i))
      && (forall i, j | 0 <= i < j < |ps| ::
        ps[i] < ps[j] && TripleOf(cfg, hosts[ps[i]]) != TripleOf(cfg, hosts[ps[j]]))
      && (forall h | h in hosts && Rendered(cfg, h).Some? ::
        exists i | 0 <= i < |ps| :: TripleOf(cfg, hosts[ps[i]]) == TripleOf(cfg, h))
  {
    var hosts := Squeue.FromJobs(jobIdentifier, jobs).hosts;
    HostsPlan(cfg, hosts, opts, drawn);
    LeadersFacts(cfg, hosts, |hosts|);
    forall h | h in hosts && Rendered(cfg, h).Some?
      ensures exists i | 0 <= i < |Leaders(cfg, hosts, |hosts|)| ::
        TripleOf(cfg, hosts[Leaders(cfg, hosts, |hosts|)[i]]) == TripleOf(cfg, h)
    {
      var p :| 0 <= p < |hosts| && hosts[p] == h;
      LeaderOf(cfg, hosts, p);
    }
  }

  lemma CleanKeys(cfg: Config, hosts: seq<JobHost>, opts: Options)
    requires CleanHosts(cfg, hosts)
    requires forall p, s :: opts.key(p, s) == Key(p, s)
    ensures KeysAreTriples(cfg, hosts, opts)
  {
    forall a, b | a in hosts && b in hosts && Rendered(cfg, a).Some? && Rendered(cfg, b).Some?
      ensures opts.DesiredKey(Rendered(cfg, a).value) == opts.DesiredKey(Rendered(cfg, b).value)
        <==> TripleOf(cfg, a) == TripleOf(cfg, b)
    {
      KeyIsTriple(cfg, a, b);
    }
  }

  lemma HostsPlan(cfg: Config, hosts: seq<JobHost>, opts: Options, drawn: nat)
    requires CleanHosts(cfg, hosts)
    requires forall p, s :: opts.key(p, s) == Key(p, s)
    ensures var plan, ps := DiffPlan(DesiredFor(cfg, hosts), [], opts, drawn), Leaders(cfg, hosts, |hosts|);
      && plan.update == [] && plan.delete == [] && |plan.create| == |ps|
      && (forall i | 0 <= i < |ps| :: plan.create[i] == NewEntry(Rendered(cfg, hosts[ps[i]]).value, opts, drawn + i))
  {
    CleanKeys(cfg, hosts, opts);
    assert hosts[..|hosts|] == hosts;
    FirstsAreLeaders(cfg, hosts, |hosts|, opts);
    FirstPlan(DesiredFor(cfg, hosts), opts, drawn);
  }

  /** Every rendering position has a leading one with its triple. */
  lemma {:induction false} LeaderOf(cfg: Config, hosts: seq<JobHost>, p: nat)
    requires p < |hosts| && Rendered(cfg, hosts[p]).Some?
    ensures var ps := Leaders(cfg, hosts, |hosts|);
      exists i | 0 <= i < |ps| :: TripleOf(cfg, hosts[ps[i]]) == TripleOf(cfg, hosts[p])
    decreases p
  {
    if Leads(cfg, hosts, p) {
      LeadersFacts(cfg, hosts, |hosts|);
      var i :| 0 <= i < |Leaders(cfg, hosts, |hosts|)| && Leaders(cfg, hosts, |hosts|)[i] == p;
    } else {
      var q: nat :| q < p && Rendered(cfg, hosts[q]).Some? && TripleOf(cfg, hosts[q]) == TripleOf(cfg, hosts[p]);
      LeaderOf(cfg, hosts, q);
    }
  }
}
