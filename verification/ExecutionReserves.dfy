/** How the token reserves of an execution prompt give way to a minimum instruction
    budget: headroom first, then the response reserve down to its own minimum. */
module ExecutionReserves {
  import opened Prelude

  datatype Request = Request(
    contextWindow: int, modelMaxOutput: int, safetyMargin: int, pinnedPrefix: int, toolSchema: int,
    responseReserve: int, headroomReserve: int, minimumBudget: int, imageReserve: int, minimumResponse: int)
  {
    /** What is left for instructions and reserves together. */
    function Available(): nat {
      MaxInt(0, contextWindow - MaxInt(0, safetyMargin) - MaxInt(0, pinnedPrefix) - MaxInt(0, toolSchema)
                - MaxInt(0, imageReserve))
    }

    function Response(): nat {
      MaxInt(0, MinInt(modelMaxOutput, responseReserve))
    }

    function Headroom(): nat {
      MaxInt(0, headroomReserve)
    }

    function Floor(): nat {
      MaxInt(0, minimumBudget)
    }

    /** What no adjustment takes from the response reserve. */
    function LeastResponse(): nat {
      MinInt(Response(), MaxInt(0, minimumResponse))
    }

    /** The requested reserves fit in what is available. */
    predicate Fits() {
      Response() + Headroom() <= Available()
    }

    /** The largest budget up to the floor that giving up reserves can reach. */
    function Best(): nat {
      MaxInt(MaxInt(0, Available() - Response() - Headroom()), MinInt(Floor(), MaxInt(0, Available() - LeastResponse())))
    }
  }

  /** What the parts of a request come to: the window without the margin, prefix, schema and
      images, negative ones as 0; the smaller of the model's and the requested response. */
  lemma PartsDecided(q: Request)
    ensures
      var taken := MaxInt(0, q.safetyMargin) + MaxInt(0, q.pinnedPrefix) + MaxInt(0, q.toolSchema) + MaxInt(0, q.imageReserve);
      && (q.contextWindow <= taken ==> q.Available() == 0)
      && (q.contextWindow > taken ==> q.Available() + taken == q.contextWindow)
    ensures q.Response() == MinInt(MaxInt(0, q.modelMaxOutput), MaxInt(0, q.responseReserve))
    ensures q.LeastResponse() <= q.Response()
    ensures q.LeastResponse() == q.Response() || q.LeastResponse() == MaxInt(0, q.minimumResponse)
    ensures q.Headroom() == (if q.headroomReserve < 0 then 0 else q.headroomReserve)
    ensures q.Floor() == (if q.minimumBudget < 0 then 0 else q.minimumBudget)
  {
  }

  datatype Reason =
    | HeadroomAndResponse | HeadroomOnly | ResponseOnly

  datatype Resolution = Resolution(
    response: nat, headroom: nat, adjusted: bool, reason: Option<Reason>, floorLimited: bool, budget: nat)

  /** `_resolve_execution_reserves`. */
  method ResolveReserves(q: Request) returns (r: Resolution)
    ensures q.LeastResponse() <= r.response <= q.Response() && r.headroom <= q.Headroom()
    ensures r.budget == MaxInt(0, q.Available() - r.response - r.headroom)
    ensures r.response < q.Response() ==> r.headroom == 0
    ensures r.adjusted <==> r.response != q.Response() || r.headroom != q.Headroom()
    ensures r.reason ==
            if r.response != q.Response() && r.headroom != q.Headroom() then Some(HeadroomAndResponse)
            else if r.headroom != q.Headroom() then Some(HeadroomOnly)
            else if r.response != q.Response() then Some(ResponseOnly)
            else None
    ensures r.floorLimited <==> r.adjusted && r.budget < q.Floor()
    ensures (q.Response() - r.response) + (q.Headroom() - r.headroom) == Cut(q)
    ensures r.budget == Budget(q)
  {
    var available := q.Available();
    var effectiveResponse, effectiveHeadroom := q.Response(), q.Headroom();
    var adjusted, reason, floorLimited := false, None, false;
    var budget := MaxInt(0, available - effectiveResponse - effectiveHeadroom);
    if budget < q.Floor() {
      var shortfall := q.Floor() - budget;
      var headroomReduction := MinInt(shortfall, effectiveHeadroom);
      effectiveHeadroom := effectiveHeadroom - headroomReduction;
      shortfall := shortfall - headroomReduction;
      var leastResponse := q.LeastResponse();
      var responseReduction := 0;
      if shortfall > 0 {
        var reducible := MaxInt(0, effectiveResponse - leastResponse);
        responseReduction := MinInt(shortfall, reducible);
        effectiveResponse := effectiveResponse - responseReduction;
        shortfall := shortfall - responseReduction;
      }
      budget := MaxInt(0, available - effectiveResponse - effectiveHeadroom);
      adjusted := headroomReduction > 0 || responseReduction > 0;
      if adjusted {
        reason := Some(
          if responseReduction > 0 && headroomReduction > 0 then HeadroomAndResponse
          else if headroomReduction > 0 then HeadroomOnly
          else ResponseOnly);
        floorLimited := budget < q.Floor();
      }
    }
    r := Resolution(effectiveResponse, effectiveHeadroom, adjusted, reason, floorLimited, budget);
  }

  /** How many reserved tokens are given up: what the budget lacks, as far as there is
      anything to give. The lack is counted from zero, not from the true deficit. */
  function Cut(q: Request): nat {
    var lacking := MaxInt(0, q.Floor() - MaxInt(0, q.Available() - q.Response() - q.Headroom()));
    MinInt(lacking, q.Headroom() + q.Response() - q.LeastResponse())
  }

  /** The budget of the resolution. */
  function Budget(q: Request): nat {
    MaxInt(0, q.Available() - (q.Response() + q.Headroom() - Cut(q)))
  }

  /** No admissible choice of reserves gets closer to the floor. */
  lemma NoChoiceDoesBetter(q: Request, response: nat, headroom: nat)
    requires q.LeastResponse() <= response <= q.Response() && headroom <= q.Headroom()
    ensures MinInt(q.Floor(), MaxInt(0, q.Available() - response - headroom)) <= q.Best()
  {
  }

  /** Some admissible choice reaches the best budget. */
  lemma BestChoice(q: Request) returns (r: nat, h: nat)
    ensures q.LeastResponse() <= r <= q.Response() && h <= q.Headroom()
    ensures MaxInt(0, q.Available() - r - h) == q.Best()
  {
    var excess := q.Response() + q.Headroom() + q.Best() - q.Available();
    var cut := MinInt(MaxInt(0, excess), q.Headroom() + q.Response() - q.LeastResponse());
    h := q.Headroom() - MinInt(cut, q.Headroom());
    r := q.Response() - (cut - MinInt(cut, q.Headroom()));
  }

  /** When the requested reserves fit, budget and effective reserves add up to exactly
      what is available, and the budget is the best that can be reached. */
  lemma FittingReservesResolveBest(q: Request)
    requires q.Fits()
    ensures Budget(q) + (q.Response() + q.Headroom() - Cut(q)) == q.Available()
    ensures Budget(q) == q.Best()
    ensures Budget(q) == MaxInt(q.Available() - q.Response() - q.Headroom(),
                                MinInt(q.Floor(), q.Available() - q.LeastResponse()))
  {
  }

  /** The best budget is reached exactly when the reserves fit, or everything that may
      be given up is, or there is no floor, or even the least response does not fit;
      otherwise the budget falls short of it. */
  lemma BestIsReachedExactlyWhen(q: Request)
    ensures Budget(q) <= q.Best()
    ensures Budget(q) == q.Best() <==>
            || q.Fits()
            || q.Floor() >= q.Headroom() + q.Response() - q.LeastResponse()
            || q.Floor() == 0
            || q.Available() <= q.LeastResponse()
  {
  }

  /** An over-subscribed request whose floor is missed although it could be met. */
  lemma OversubscribedFallsShort()
    ensures
      var q := Request(2000, 4096, 0, 0, 0, 1024, 1024, 1200, 0, 256);
      Budget(q) == 1152 && q.Best() == 1200
  {
  }
}
