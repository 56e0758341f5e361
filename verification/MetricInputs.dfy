/** The checks every metric makes on its two vectors before it computes anything. */
module MetricInputs {
  import opened Outcomes

  datatype Refusal =
    | LengthMismatch | EmptyInput | InvalidMaxPairs | InvalidK | NegativeRelevance | InvalidBins | InvalidScore
    | InvalidThreshold

  const MAX_PAIRWISE_PAIRS: nat := 50_000

  function Paired(labels: seq<real>, predictions: seq<real>): Option<Refusal> {
    if |labels| != |predictions| then Some(LengthMismatch)
    else if labels == [] then Some(EmptyInput)
    else None
  }
}
