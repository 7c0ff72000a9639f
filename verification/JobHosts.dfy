/** One record per running job and node, and how it is turned into a selector and template data. */
module JobHosts {

  const SELECTOR_TYPE: string := "slurm"
  const SLUID_PREFIX: string := "sluid:"
  const JOB_ID_PREFIX: string := "job_id:"

  datatype TemplateData = TemplateData(
    trustDomain: string,
    className: string,
    jobID: string,
    sluid: string,
    jobKey: string,
    account: string,
    node: string)

  datatype JobHost = JobHost(jobID: string, sluid: string, account: string, node: string) {
    /** The identifier in use, preferring the SLUID. */
    function Key(): string {
      if sluid != "" then sluid else jobID
    }

    function SelectorValue(): string {
      if sluid != "" then SLUID_PREFIX + sluid else JOB_ID_PREFIX + jobID
    }

    function Data(trustDomain: string, className: string): TemplateData {
      TemplateData(trustDomain, className, jobID, sluid, Key(), account, node)
    }

    /** Exactly one of the two identifiers is set. */
    predicate Identified() {
      (jobID == "") != (sluid == "")
    }
  }

  /** What identifies a job: which identifier is in use, and its value. */
  datatype Identity = BySLUID(sluid: string) | ByJobID(jobID: string)

  function IdentityOf(h: JobHost): Identity {
    if h.sluid != "" then BySLUID(h.sluid) else ByJobID(h.jobID)
  }

  /** The selector of a record says which job it belongs to, kind of identifier included. */
  lemma SelectorValueInjective(a: JobHost, b: JobHost)
    ensures a.SelectorValue() == b.SelectorValue() <==> IdentityOf(a) == IdentityOf(b)
  {
    var x, y := a.SelectorValue(), b.SelectorValue();
    assert x[0] == if a.sluid != "" then 's' else 'j';
    assert y[0] == if b.sluid != "" then 's' else 'j';
    assert x[if a.sluid != "" then 6 else 7..] == a.Key();
    assert y[if b.sluid != "" then 6 else 7..] == b.Key();
  }
}
