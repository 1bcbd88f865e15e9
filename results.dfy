/** The outcome of evaluating one ticket, and the append-only summary of a
    whole SLA check with its derived counts and compliance rate. */
module Results {
  import opened Values
  import opened Calendar

  const Met: string := "met"
  const Breached: string := "breached"
  const InProgress: string := "in_progress"

  predicate KnownStatus(status: string) {
    status == Met || status == Breached || status == InProgress
  }

  /** `SLAResult`. Custom-field values keep the shape the extraction gave them. */
  datatype SlaResult = SlaResult(
    sourceTicket: string,
    targetTicket: Option<string>,
    createdDate: DateTime,
    resolvedDate: Option<DateTime>,
    daysElapsed: int,
    targetDays: int,
    status: string,
    sourceOfIdentification: Json,
    categoryMigrated: Json,
    lpmCategory: Json,
    elapsedTimeStr: Option<string>)
  {
    predicate IsMet() {
      status == Met
    }

    predicate IsBreached() {
      status == Breached
    }

    predicate IsInProgress() {
      status == InProgress
    }
  }

  /** For the three statuses the engine produces, exactly one predicate holds;
      for any other status none does. */
  lemma ExactlyOneStatus(r: SlaResult)
    ensures KnownStatus(r.status) ==>
      (r.IsMet() && !r.IsBreached() && !r.IsInProgress()) ||
      (!r.IsMet() && r.IsBreached() && !r.IsInProgress()) ||
      (!r.IsMet() && !r.IsBreached() && r.IsInProgress())
    ensures !KnownStatus(r.status) ==> !r.IsMet() && !r.IsBreached() && !r.IsInProgress()
  {
  }

  /** `sum(1 for r in results if r.status == status)`. */
  function CountStatus(rs: seq<SlaResult>, status: string): (n: nat)
    ensures n <= |rs|
  {
    if rs == [] then 0
    else CountStatus(rs[..|rs| - 1], status) + (if rs[|rs| - 1].status == status then 1 else 0)
  }

  /** `[r for r in results if r.status == status]`: the results with that
      status, and only those, as many as CountStatus says. */
  function WithStatus(rs: seq<SlaResult>, status: string): (out: seq<SlaResult>)
    ensures |out| == CountStatus(rs, status)
    ensures forall r :: r in out ==> r in rs && r.status == status
    ensures forall r :: r in rs && r.status == status ==> r in out
  {
    if rs == [] then []
    else
      var last := rs[|rs| - 1];
      var prefix := rs[..|rs| - 1];
      assert rs == prefix + [last];
      WithStatus(prefix, status) + (if last.status == status then [last] else [])
  }

  /** Appending one result extends each filtered list at its end, so the
      filtered lists keep insertion order. */
  lemma AppendExtendsFilters(rs: seq<SlaResult>, r: SlaResult, status: string)
    ensures CountStatus(rs + [r], status) == CountStatus(rs, status) + (if r.status == status then 1 else 0)
    ensures WithStatus(rs + [r], status) == WithStatus(rs, status) + (if r.status == status then [r] else [])
  {
    assert (rs + [r])[..|rs|] == rs;
  }

  /** When every status is one of the three, the three counts add up to the total. */
  lemma {:induction false} CountsPartitionTotal(rs: seq<SlaResult>)
    requires forall i :: 0 <= i < |rs| ==> KnownStatus(rs[i].status)
    ensures CountStatus(rs, Met) + CountStatus(rs, Breached) + CountStatus(rs, InProgress) == |rs|
  {
    if rs != [] {
      CountsPartitionTotal(rs[..|rs| - 1]);
    }
  }

  /** `compliance_rate`: the percentage of resolved results (met or breached)
      that were met, and 100.0 when none is resolved. */
  function ComplianceRateOf(met: nat, breached: nat): (rate: real)
    ensures 0.0 <= rate <= 100.0
    ensures met + breached == 0 ==> rate == 100.0
    ensures met + breached > 0 ==> rate * (met + breached) as real == 100.0 * met as real
  {
    var resolved := met + breached;
    if resolved == 0 then 100.0
    else
      var r := (met as real / resolved as real) * 100.0;
      assert r * resolved as real == 100.0 * met as real;
      assert met as real <= resolved as real;
      r
  }

  /** Three met, one breached and two in progress give 75.0. */
  lemma ComplianceScenario(rs: seq<SlaResult>)
    requires |rs| == 6
    requires rs[0].IsMet() && rs[1].IsMet() && rs[2].IsMet()
    requires rs[3].IsBreached() && rs[4].IsInProgress() && rs[5].IsInProgress()
    ensures CountStatus(rs, Met) == 3 && CountStatus(rs, Breached) == 1 && CountStatus(rs, InProgress) == 2
    ensures ComplianceRateOf(CountStatus(rs, Met), CountStatus(rs, Breached)) == 75.0
  {
    assert Met != Breached && Met != InProgress && Breached != InProgress;
    assert rs[..5][..4] == rs[..4] && rs[..4][..3] == rs[..3] && rs[..3][..2] == rs[..2];
    assert rs[..2][..1] == rs[..1] && rs[..1][..0] == [];
    assert CountStatus(rs[..1], Met) == 1 && CountStatus(rs[..1], Breached) == 0 && CountStatus(rs[..1], InProgress) == 0;
    assert CountStatus(rs[..2], Met) == 2 && CountStatus(rs[..2], Breached) == 0 && CountStatus(rs[..2], InProgress) == 0;
    assert CountStatus(rs[..3], Met) == 3 && CountStatus(rs[..3], Breached) == 0 && CountStatus(rs[..3], InProgress) == 0;
    assert CountStatus(rs[..4], Met) == 3 && CountStatus(rs[..4], Breached) == 1 && CountStatus(rs[..4], InProgress) == 0;
    assert CountStatus(rs[..5], Met) == 3 && CountStatus(rs[..5], Breached) == 1 && CountStatus(rs[..5], InProgress) == 1;
    assert rs[..6] == rs;
    assert CountStatus(rs, Met) == 3 && CountStatus(rs, Breached) == 1 && CountStatus(rs, InProgress) == 2;
    assert ComplianceRateOf(3, 1) * 4.0 == 300.0;
  }

  /** `SLASummary`: the results of one check, in the order they were added. */
  class SlaSummary {
    var slaName: string
    var targetDays: int
    var results: seq<SlaResult>

    constructor (slaName: string, targetDays: int)
      ensures this.slaName == slaName && this.targetDays == targetDays && results == []
    {
      this.slaName := slaName;
      this.targetDays := targetDays;
      results := [];
    }

    /** `add_result`: appends at the end and changes nothing else. */
    method AddResult(result: SlaResult)
      modifies this
      ensures results == old(results) + [result]
      ensures slaName == old(slaName) && targetDays == old(targetDays)
    {
      results := results + [result];
    }

    /** `total_count`: one per recorded result. */
    function TotalCount(): nat
      reads this
    {
      |results|
    }

    /** `met_count`: the met results, at most all of them. */
    function MetCount(): (n: nat)
      reads this
      ensures n <= TotalCount()
    {
      CountStatus(results, Met)
    }

    /** `breached_count`: the breached results, at most all of them. */
    function BreachedCount(): (n: nat)
      reads this
      ensures n <= TotalCount()
    {
      CountStatus(results, Breached)
    }

    /** `in_progress_count`: the results in progress, at most all of them. */
    function InProgressCount(): (n: nat)
      reads this
      ensures n <= TotalCount()
    {
      CountStatus(results, InProgress)
    }

    /** `met_results`: exactly the met results, as many as `MetCount`. */
    function MetResults(): (rs: seq<SlaResult>)
      reads this
      ensures |rs| == MetCount()
      ensures forall r :: r in rs <==> r in results && r.status == Met
    {
      WithStatus(results, Met)
    }

    /** `breached_results`: exactly the breached results, as many as
        `BreachedCount`. */
    function BreachedResults(): (rs: seq<SlaResult>)
      reads this
      ensures |rs| == BreachedCount()
      ensures forall r :: r in rs <==> r in results && r.status == Breached
    {
      WithStatus(results, Breached)
    }

    /** `in_progress_results`: exactly the results in progress, as many as
        `InProgressCount`. */
    function InProgressResults(): (rs: seq<SlaResult>)
      reads this
      ensures |rs| == InProgressCount()
      ensures forall r :: r in rs <==> r in results && r.status == InProgress
    {
      WithStatus(results, InProgress)
    }

    function ComplianceRate(): (rate: real)
      reads this
      ensures 0.0 <= rate <= 100.0
      ensures MetCount() + BreachedCount() == 0 ==> rate == 100.0
    {
      ComplianceRateOf(MetCount(), BreachedCount())
    }
  }
}
