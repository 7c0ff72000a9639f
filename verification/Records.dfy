/** From job hosts to desired records: rendering, skipping what does not render. */
module Records {
  import opened Wrappers
  import opened Entries
  import opened JobHosts

  /** Executing a template and parsing the result as a SPIFFE ID; None when either fails. */
  type Render = TemplateData -> Option<SpiffeID>

  datatype Config = Config(
    trustDomain: string,
    className: string,
    hint: string,
    parentID: Render,
    spiffeID: Render,
    x509TTL: int,
    jwtTTL: int,
    dryRun: bool)

  function SelectorsOf(h: JobHost): seq<Selector> {
    [Selector(SELECTOR_TYPE, h.SelectorValue())]
  }

  /** The record one job host implies, if both of its templates render. */
  function Rendered(cfg: Config, h: JobHost): Option<Desired> {
    var data := h.Data(cfg.trustDomain, cfg.className);
    match cfg.parentID(data)
    case None => None
    case Some(parentID) =>
      match cfg.spiffeID(data)
      case None => None
      case Some(spiffeID) =>
        Some(Desired(Some(parentID), Some(spiffeID), SelectorsOf(h), cfg.x509TTL, cfg.jwtTTL, h.node, h.Key()))
  }

  /** The records of the hosts that render, in order. */
  function DesiredFor(cfg: Config, hosts: seq<JobHost>): seq<Desired> {
    if hosts == [] then []
    else
      (match Rendered(cfg, hosts[0])
       case Some(d) => [d]
       case None => [])
      + DesiredFor(cfg, hosts[1..])
  }

  /** The hosts skipped with a warning. */
  function Skipped(cfg: Config, hosts: seq<JobHost>): seq<JobHost> {
    if hosts == [] then []
    else (if Rendered(cfg, hosts[0]).None? then [hosts[0]] else []) + Skipped(cfg, hosts[1..])
  }

  lemma {:induction false} DesiredAppend(cfg: Config, a: seq<JobHost>, b: seq<JobHost>)
    ensures DesiredFor(cfg, a + b) == DesiredFor(cfg, a) + DesiredFor(cfg, b)
  {
    if a == [] {
      assert a + b == b;
    } else {
      assert (a + b)[1..] == a[1..] + b;
      DesiredAppend(cfg, a[1..], b);
    }
  }

  lemma {:induction false} SkippedAppend(cfg: Config, a: seq<JobHost>, b: seq<JobHost>)
    ensures Skipped(cfg, a + b) == Skipped(cfg, a) + Skipped(cfg, b)
  {
    if a == [] {
      assert a + b == b;
    } else {
      assert (a + b)[1..] == a[1..] + b;
      SkippedAppend(cfg, a[1..], b);
    }
  }

  /** One more host is one more record or one more warning. */
  lemma DesiredNext(cfg: Config, hosts: seq<JobHost>, i: nat)
    requires i < |hosts|
    ensures var before, after, r := hosts[..i], hosts[..i + 1], Rendered(cfg, hosts[i]);
      && DesiredFor(cfg, after) == DesiredFor(cfg, before) + (if r.Some? then [r.value] else [])
      && Skipped(cfg, after) == Skipped(cfg, before) + (if r.None? then [hosts[i]] else [])
  {
    assert hosts[..i + 1] == hosts[..i] + [hosts[i]];
    DesiredAppend(cfg, hosts[..i], [hosts[i]]);
    SkippedAppend(cfg, hosts[..i], [hosts[i]]);
  }

  // ----- what a record says, field by field

  /** What the templates see of a host. */
  function Seen(cfg: Config, h: JobHost): TemplateData {
    TemplateData(
      trustDomain := cfg.trustDomain,
      className := cfg.className,
      jobID := h.jobID,
      sluid := h.sluid,
      jobKey := if h.sluid != "" then h.sluid else h.jobID,
      account := h.account,
      node := h.node)
  }

  predicate Renders(cfg: Config, h: JobHost) {
    cfg.parentID(Seen(cfg, h)).Some? && cfg.spiffeID(Seen(cfg, h)).Some?
  }

  /** The record says what the host renders to, and carries the one selector of its job. */
  predicate Describes(cfg: Config, h: JobHost, d: Desired) {
    && d.parentID == cfg.parentID(Seen(cfg, h))
    && d.spiffeID == cfg.spiffeID(Seen(cfg, h))
    && |d.selectors| == 1
    && d.selectors[0].kind == "slurm"
    && d.selectors[0].value == (if h.sluid != "" then "sluid:" + h.sluid else "job_id:" + h.jobID)
    && d.x509TTL == cfg.x509TTL
    && d.jwtTTL == cfg.jwtTTL
    && d.node == h.node
    && d.jobKey == if h.sluid != "" then h.sluid else h.jobID
  }

  /** The hosts whose templates both render, in order, or the others. */
  function Rendering(cfg: Config, hosts: seq<JobHost>, rendered: bool): seq<JobHost> {
    if hosts == [] then []
    else (if Renders(cfg, hosts[0]) == rendered then [hosts[0]] else []) + Rendering(cfg, hosts[1..], rendered)
  }

  lemma RendersExactly(cfg: Config, h: JobHost)
    ensures Rendered(cfg, h).Some? <==> Renders(cfg, h)
  {
    assert h.Data(cfg.trustDomain, cfg.className) == Seen(cfg, h);
  }

  lemma RenderedExactly(cfg: Config, h: JobHost, d: Desired)
    ensures Rendered(cfg, h) == Some(d) <==> Renders(cfg, h) && Describes(cfg, h, d)
  {
    assert h.Data(cfg.trustDomain, cfg.className) == Seen(cfg, h);
    if Describes(cfg, h, d) { assert d.selectors == [d.selectors[0]]; }
  }

  /** The records describe the hosts, one each, in order. */
  ghost predicate DescribeAll(cfg: Config, hosts: seq<JobHost>, records: seq<Desired>) {
    |records| == |hosts| && forall i | 0 <= i < |hosts| :: Describes(cfg, hosts[i], records[i])
  }

  lemma DescribeCons(cfg: Config, h: JobHost, hosts: seq<JobHost>, d: Desired, records: seq<Desired>)
    requires Describes(cfg, h, d) && DescribeAll(cfg, hosts, records)
    ensures DescribeAll(cfg, [h] + hosts, [d] + records)
  {
  }

  lemma {:induction false} BuiltExactly(cfg: Config, hosts: seq<JobHost>)
    ensures DescribeAll(cfg, Rendering(cfg, hosts, true), DesiredFor(cfg, hosts))
    ensures Skipped(cfg, hosts) == Rendering(cfg, hosts, false)
  {
    if hosts != [] {
      var h, r, rest := hosts[0], Rendered(cfg, hosts[0]), hosts[1..];
      BuiltExactly(cfg, rest);
      RendersExactly(cfg, h);
      if r.Some? {
        RenderedExactly(cfg, h, r.value);
        DescribeCons(cfg, h, Rendering(cfg, rest, true), r.value, DesiredFor(cfg, rest));
        assert Rendering(cfg, hosts, false) == [] + Rendering(cfg, rest, false) == Rendering(cfg, rest, false);
      } else {
        assert Rendering(cfg, hosts, true) == [] + Rendering(cfg, rest, true) == Rendering(cfg, rest, true);
        assert DesiredFor(cfg, hosts) == [] + DesiredFor(cfg, rest) == DesiredFor(cfg, rest);
      }
    }
  }

  method BuildDesired(cfg: Config, hosts: seq<JobHost>) returns (desired: seq<Desired>, warnings: seq<JobHost>)
    ensures desired == DesiredFor(cfg, hosts)
    ensures warnings == Skipped(cfg, hosts) == Rendering(cfg, hosts, false)
    ensures DescribeAll(cfg, Rendering(cfg, hosts, true), desired)
  {
    BuiltExactly(cfg, hosts);
    desired, warnings := [], [];
    var i := 0;
    while i < |hosts|
      invariant 0 <= i <= |hosts|
      invariant desired == DesiredFor(cfg, hosts[..i])
      invariant warnings == Skipped(cfg, hosts[..i])
    {
      var h := hosts[i];
      DesiredNext(cfg, hosts, i);
      i := i + 1;
      var data := h.Data(cfg.trustDomain, cfg.className);
      var parentID := cfg.parentID(data);
      if parentID.None? {
        warnings := warnings + [h];
        continue;
      }
      var spiffeID := cfg.spiffeID(data);
      if spiffeID.None? {
        warnings := warnings + [h];
        continue;
      }
      desired := desired + [
        Desired(parentID, spiffeID, SelectorsOf(h), cfg.x509TTL, cfg.jwtTTL, h.node, h.Key())
      ];
    }
    assert hosts[..i] == hosts;
  }

  lemma {:induction false} DesiredFrom(cfg: Config, hosts: seq<JobHost>)
    ensures forall d :: d in DesiredFor(cfg, hosts) <==> exists h | h in hosts :: Rendered(cfg, h) == Some(d)
  {
    if hosts != [] {
      assert hosts == [hosts[0]] + hosts[1..];
      DesiredFrom(cfg, hosts[1..]);
    }
  }

  /** The records are exactly those that describe a host both of whose templates render. */
  lemma DesiredMembers(cfg: Config, hosts: seq<JobHost>, d: Desired)
    ensures d in DesiredFor(cfg, hosts) <==> exists h | h in hosts :: Renders(cfg, h) && Describes(cfg, h, d)
  {
    DesiredFrom(cfg, hosts);
    forall h ensures Rendered(cfg, h) == Some(d) <==> Renders(cfg, h) && Describes(cfg, h, d) {
      RenderedExactly(cfg, h, d);
    }
  }
}
