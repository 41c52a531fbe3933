/** Authority lanes: the policy table, the source trust order and the write-policy check. */
module Lanes {
  import opened Prelude

  datatype Lane = Identity | Preference | Evidence | Authorization | Procedural

  datatype Source = Observation | Conversation | Inference | Tool | External

  datatype LanePolicy = LanePolicy(
    ttlDays: Option<int>,
    halfLifeDays: Option<int>,
    minConfidence: real,
    allowedSources: seq<Source>,
    singleValued: bool,
    injectable: bool)

  function PolicyFor(lane: Lane): LanePolicy {
    match lane
    case Identity => LanePolicy(None, None, 0.9, [Observation, Conversation], true, true)
    case Preference => LanePolicy(Some(14), Some(7), 0.3, [Observation, Conversation], false, true)
    case Evidence =>
      LanePolicy(Some(60), Some(30), 0.5, [Observation, Conversation, Inference, Tool, External], false, true)
    case Authorization => LanePolicy(Some(90), Some(45), 0.9, [Observation], true, false)
    case Procedural => LanePolicy(Some(30), None, 0.5, [Observation], false, true)
  }

  function SourceCategory(sourceType: string): Source {
    if sourceType == "user_explicit" || sourceType == "user_confirmed" then Observation
    else if sourceType == "model_inferred" then Inference
    else External
  }

  datatype Refusal = SourceNotAllowed | BelowFloor

  /** `None` when the lane accepts the fact. */
  function CheckWritePolicy(lane: Lane, source: Source, confidence: real): Option<Refusal> {
    var policy := PolicyFor(lane);
    if source !in policy.allowedSources then Some(SourceNotAllowed)
    else if confidence < policy.minConfidence then Some(BelowFloor)
    else None
  }

  /** Position in the trust order; 0 is the most trusted. */
  function TrustRank(s: Source): nat {
    match s
    case Observation => 0
    case Conversation => 1
    case Inference => 2
    case Tool => 3
    case External => 4
  }

  predicate IsMoreTrusted(left: Source, right: Source) {
    TrustRank(left) < TrustRank(right)
  }

  /** From the most to the least trusted: observation, conversation, inference, tool, external; and trust is a strict
      total order. */
  lemma TrustOrder(a: Source, b: Source, c: Source)
    ensures IsMoreTrusted(Observation, Conversation) && IsMoreTrusted(Conversation, Inference)
    ensures IsMoreTrusted(Inference, Tool) && IsMoreTrusted(Tool, External)
    ensures IsMoreTrusted(a, b) ==> !IsMoreTrusted(b, a)
    ensures IsMoreTrusted(a, b) || IsMoreTrusted(b, a) || a == b
    ensures IsMoreTrusted(a, b) && IsMoreTrusted(b, c) ==> IsMoreTrusted(a, c)
  {
  }

  /** What reaches a single-valued lane through the source-type bridge is always an observation:
      no source type maps to the conversation category that the identity lane would also accept. */
  lemma SingleValuedAdmitsObservationsOnly(lane: Lane, sourceType: string, confidence: real)
    requires PolicyFor(lane).singleValued
    ensures CheckWritePolicy(lane, SourceCategory(sourceType), confidence) == None <==>
            SourceCategory(sourceType) == Observation && confidence >= 0.9
  {
  }
}
