/** The threshold-gated, label-less `/compare` handler: a match is reported
    only when both legs matched and both similarities exceed 80, and then
    with the larger of the two; a comparison that throws fails the request. */
module Index {
  import opened Comparison

  /** The score both legs must strictly exceed. */
  const Threshold: Similarity := 80.0

  /** A leg that matched with a similarity strictly above the threshold. */
  predicate Accepted(l: Leg)
  {
    l.matched && l.similarity > Threshold
  }

  /** The gated decision. A match is reported exactly when both legs are
      accepted; it then carries the larger similarity (one of the two, at
      least both) and never a label. Everything else is NoMatch. */
  function GatedMatch(r1: Leg, r2: Leg): (d: Decision)
    ensures d.matchedImage.None?
    ensures d.matchFound <==> Accepted(r1) && Accepted(r2)
    ensures !d.matchFound ==> d == NoMatch
    ensures d.matchFound ==>
      (d.similarity == r1.similarity || d.similarity == r2.similarity) &&
      r1.similarity <= d.similarity && r2.similarity <= d.similarity
    ensures d.matchFound ==> d.similarity > Threshold
  {
    if r1.matched && r2.matched then
      if r1.similarity > Threshold && r2.similarity > Threshold then
        Decision(true, if r1.similarity > r2.similarity then r1.similarity else r2.similarity, None)
      else
        NoMatch
    else
      NoMatch
  }

  /** The whole handler once the upload is known and the two calls have
      been made: refuse a bad upload with 400; a call that throws ends the
      request with 500 and the error's message, the first call's error if
      both throw (the second is not reached); otherwise the gated decision. */
  function Handle(u: Upload, call1: CallOutcome, call2: CallOutcome): (resp: Response)
    ensures Validate(u).Some? ==> resp == Refuse(Validate(u).value)
    ensures Validate(u).None? && call1.Failed? ==> resp == Error(ServerErrorStatus, call1.message)
    ensures Validate(u).None? && call1.Answered? && call2.Failed? ==>
      resp == Error(ServerErrorStatus, call2.message)
    ensures resp.Json? <==> Validate(u).None? && call1.Answered? && call2.Answered?
  {
    match Validate(u)
    case Some(e) => Refuse(e)
    case None =>
      match CompareImages(call1)
      case Err(msg) => Error(ServerErrorStatus, msg)
      case Ok(result1) =>
        match CompareImages(call2)
        case Err(msg) => Error(ServerErrorStatus, msg)
        case Ok(result2) => Json(GatedMatch(result1, result2))
  }

  // ---------------------------------------------------------------------
  // The gate one case at a time

  /** One unmatched leg is enough to refuse, however high the other scored. */
  lemma UnmatchedLegVetoes(r1: Leg, r2: Leg)
    requires !r1.matched || !r2.matched
    ensures GatedMatch(r1, r2) == NoMatch
  {
  }

  /** Both matched but one at 80 or below: no match. A score of exactly 80
      does not pass. */
  lemma ThresholdIsStrict(r1: Leg, r2: Leg)
    requires r1.matched && r2.matched
    requires r1.similarity <= Threshold || r2.similarity <= Threshold
    ensures GatedMatch(r1, r2) == NoMatch
    ensures GatedMatch(Leg(true, 80.0), Leg(true, 99.0)) == NoMatch
  {
  }

  /** The order of the legs does not matter: swapping them gives the same
      decision, including on a tie. */
  lemma GatedMatchSymmetric(r1: Leg, r2: Leg)
    ensures GatedMatch(r1, r2) == GatedMatch(r2, r1)
  {
  }

  /** Seen from the two Rekognition responses: with a valid upload and both
      calls answered, a match is reported exactly when both responses hold a
      face match whose first entry scores above 80, and it carries the larger
      of those two first scores; no label is ever sent, and anything else is
      NoMatch. */
  lemma HandleMatchesWhenBothFacesAbove(u: Upload, a1: CompareFacesResponse, a2: CompareFacesResponse)
    requires Validate(u).None?
    ensures Handle(u, Answered(a1), Answered(a2)).Json?
    ensures Handle(u, Answered(a1), Answered(a2)).decision.matchFound <==>
      HasFaceMatches(a1) && a1.faceMatches.value[0].similarity > Threshold &&
      HasFaceMatches(a2) && a2.faceMatches.value[0].similarity > Threshold
    ensures Handle(u, Answered(a1), Answered(a2)).decision.matchFound ==>
      var s1 := a1.faceMatches.value[0].similarity;
      var s2 := a2.faceMatches.value[0].similarity;
      Handle(u, Answered(a1), Answered(a2)).decision.similarity == (if s1 > s2 then s1 else s2)
    ensures Handle(u, Answered(a1), Answered(a2)).decision.matchedImage.None?
    ensures !Handle(u, Answered(a1), Answered(a2)).decision.matchFound ==>
      Handle(u, Answered(a1), Answered(a2)).decision == NoMatch
  {
  }

  /** Validation runs first, in the same order and with the same messages as
      the other handler, before either call can fail the request. */
  lemma RefusalIgnoresCalls(u: Upload, call1: CallOutcome, call2: CallOutcome)
    ensures !u.image1 || !u.image2 ==>
      Handle(u, call1, call2) == Error(400, "Both image1 and image2 must be provided.")
    ensures u.image1 && u.image2 && !u.capturedImage ==>
      Handle(u, call1, call2) == Error(400, "Captured image is required.")
  {
  }
}
