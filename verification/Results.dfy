/** Inference results and the C++ free store they are allocated on. */
module Results {
  datatype ResultStatus = SUCCESSFUL | FAILED

  /** The contents of a GstLookoutVisionResult. */
  datatype ResultValue = ResultValue(isAnomalous: bool, confidence: real, status: ResultStatus, errorMessage: string)

  /** A GstLookoutVisionResult on the free store. */
  class Result {
    var isAnomalous: bool
    var confidence: real
    var status: ResultStatus
    var errorMessage: string

    function Value(): ResultValue
      reads this
    {
      ResultValue(isAnomalous, confidence, status, errorMessage)
    }

    constructor (v: ResultValue)
      ensures Value() == v
    {
      isAnomalous, confidence, status, errorMessage := v.isAnomalous, v.confidence, v.status, v.errorMessage;
    }

    /** The struct's copy assignment. */
    method Assign(source: Result)
      modifies this
      ensures Value() == old(source.Value())
    {
      isAnomalous, confidence := source.isAnomalous, source.confidence;
      status, errorMessage := source.status, source.errorMessage;
    }
  }

  /** The value-initialised struct: `new GstLookoutVisionResult()`. */
  const BLANK := ResultValue(false, 0.0, SUCCESSFUL, "")

  /** new and delete, with an account of what is allocated. A result may be deleted only
      while it is live, so no call sequence that verifies deletes one twice. */
  class ResultHeap {
    ghost var live: set<Result>
    ghost var allocations: nat
    ghost var deletions: nat

    ghost predicate Valid()
      reads this
    {
      |live| + deletions == allocations
    }

    constructor ()
      ensures Valid() && live == {} && allocations == deletions == 0
    {
      live, allocations, deletions := {}, 0, 0;
    }

    method New(v: ResultValue) returns (r: Result)
      requires Valid()
      modifies this
      ensures Valid() && fresh(r) && r !in old(live) && r.Value() == v
      ensures live == old(live) + {r} && allocations == old(allocations) + 1 && deletions == old(deletions)
    {
      r := new Result(v);
      live, allocations := live + {r}, allocations + 1;
    }

    /** A value-initialised result, then assigned: `*copy = *source`. */
    method NewCopy(source: Result) returns (r: Result)
      requires Valid() && source in live
      modifies this
      ensures Valid() && fresh(r) && r !in old(live) && r.Value() == source.Value()
      ensures live == old(live) + {r} && allocations == old(allocations) + 1 && deletions == old(deletions)
    {
      r := New(BLANK);
      r.Assign(source);
    }

    method Delete(r: Result?)
      requires Valid() && (r != null ==> r in live)
      modifies this
      ensures Valid()
      ensures live == if r == null then old(live) else old(live) - {r}
      ensures allocations == old(allocations) && deletions == old(deletions) + if r == null then 0 else 1
    {
      if r != null {
        live, deletions := live - {r}, deletions + 1;
      }
    }
  }
}
