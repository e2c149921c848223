/** The ungated, label-reporting `/compare` handler: a comparison that
    throws leaves its leg empty, any matched leg may win, the higher
    similarity wins between two matched legs and a tie goes to image1. */
module Server {
  import opened Comparison

  /** A leg as the handler holds it: the record `compareImages` resolved
      with, or nothing when it threw (the leg stays `{}`). */
  function Absorb(r: Result<Leg>): (a: Option<Leg>)
    ensures a.Some? <==> r.Ok?
    ensures r.Ok? ==> a == Some(r.value)
  {
    match r
    case Ok(leg) => Some(leg)
    case Err(_) => None
  }

  /** `result.match` is truthy: the leg is there and matched. An empty `{}`
      has no `match` field and so is not matched. */
  predicate Matched(r: Option<Leg>)
  {
    r.Some? && r.value.matched
  }

  /** The leg a label refers to. */
  function LegFor(r1: Option<Leg>, r2: Option<Leg>, l: Label): Option<Leg>
  {
    match l
    case Image1 => r1
    case Image2 => r2
  }

  function Found(s: Similarity, l: Label): Decision
  {
    Decision(true, s, Some(l))
  }

  /** The best-match decision. A match is reported exactly when some leg
      matched; it then names a matched leg, reports that leg's similarity,
      and no matched leg has a higher one. Otherwise the answer is NoMatch. */
  function BestMatch(r1: Option<Leg>, r2: Option<Leg>): (d: Decision)
    ensures d.matchFound <==> Matched(r1) || Matched(r2)
    ensures !d.matchFound ==> d == NoMatch
    ensures d.matchFound ==>
      d.matchedImage.Some? &&
      Matched(LegFor(r1, r2, d.matchedImage.value)) &&
      d.similarity == LegFor(r1, r2, d.matchedImage.value).value.similarity
    ensures d.matchFound && Matched(r1) ==> r1.value.similarity <= d.similarity
    ensures d.matchFound && Matched(r2) ==> r2.value.similarity <= d.similarity
  {
    if Matched(r1) && Matched(r2) then
      if r1.value.similarity > r2.value.similarity then Found(r1.value.similarity, Image1)
      else if r2.value.similarity > r1.value.similarity then Found(r2.value.similarity, Image2)
      else Found(r1.value.similarity, Image1)
    else if Matched(r1) then Found(r1.value.similarity, Image1)
    else if Matched(r2) then Found(r2.value.similarity, Image2)
    else NoMatch
  }

  /** The whole handler once the upload is known and the two calls have
      been made: refuse a bad upload with 400, otherwise answer with the
      best match over the two legs, each absorbed when its call threw. */
  function Handle(u: Upload, call1: CallOutcome, call2: CallOutcome): (resp: Response)
    ensures Validate(u).Some? ==> resp == Refuse(Validate(u).value)
    ensures Validate(u).None? ==> resp.Json?
    ensures resp.Error? ==> resp.status == BadRequestStatus
  {
    match Validate(u)
    case Some(e) => Refuse(e)
    case None => Json(BestMatch(Absorb(CompareImages(call1)), Absorb(CompareImages(call2))))
  }

  // ---------------------------------------------------------------------
  // The selection rules one by one

  /** Nothing matched, whether the legs are absent, failed or unmatched:
      `{matchFound: false, similarity: 0}` with no label. */
  lemma NoMatchWhenNeitherMatched(r1: Option<Leg>, r2: Option<Leg>)
    requires !Matched(r1) && !Matched(r2)
    ensures BestMatch(r1, r2) == NoMatch
    ensures BestMatch(r1, r2).matchedImage.None? && BestMatch(r1, r2).similarity == 0.0
  {
  }

  /** Both matched: the strictly higher similarity wins. */
  lemma HigherSimilarityWins(l1: Leg, l2: Leg)
    requires l1.matched && l2.matched
    ensures l1.similarity > l2.similarity ==> BestMatch(Some(l1), Some(l2)) == Found(l1.similarity, Image1)
    ensures l2.similarity > l1.similarity ==> BestMatch(Some(l1), Some(l2)) == Found(l2.similarity, Image2)
  {
  }

  /** Both matched with equal similarity: image1, always. */
  lemma TieGoesToImage1(l1: Leg, l2: Leg)
    requires l1.matched && l2.matched && l1.similarity == l2.similarity
    ensures BestMatch(Some(l1), Some(l2)) == Found(l1.similarity, Image1)
  {
  }

  /** Exactly one leg matched: it wins with its own similarity, whatever the
      other leg carries. */
  lemma SoleMatchWins(r1: Option<Leg>, r2: Option<Leg>)
    ensures Matched(r1) && !Matched(r2) ==> BestMatch(r1, r2) == Found(r1.value.similarity, Image1)
    ensures Matched(r2) && !Matched(r1) ==> BestMatch(r1, r2) == Found(r2.value.similarity, Image2)
  {
  }

  /** Swapping the legs swaps the label and keeps the similarity, except
      on a tie between two matched legs, where image1 wins either way. */
  lemma BestMatchSwap(r1: Option<Leg>, r2: Option<Leg>)
    ensures BestMatch(r2, r1).matchFound == BestMatch(r1, r2).matchFound
    ensures BestMatch(r2, r1).similarity == BestMatch(r1, r2).similarity
    ensures !(Matched(r1) && Matched(r2) && r1.value.similarity == r2.value.similarity) &&
            BestMatch(r1, r2).matchFound ==>
              BestMatch(r2, r1).matchedImage.value != BestMatch(r1, r2).matchedImage.value
  {
  }

  // ---------------------------------------------------------------------
  // A reference definition: the first of the best candidates

  /** A matched leg together with the label it would be reported under. */
  datatype Candidate = Candidate(image: Label, similarity: Similarity)

  /** The matched legs, in the order the handler tries them. */
  function Candidates(r1: Option<Leg>, r2: Option<Leg>): (cs: seq<Candidate>)
    ensures forall c :: c in cs ==>
      Matched(LegFor(r1, r2, c.image)) && c.similarity == LegFor(r1, r2, c.image).value.similarity
    ensures |cs| == (if Matched(r1) then 1 else 0) + (if Matched(r2) then 1 else 0)
    ensures Matched(r1) ==> cs[0] == Candidate(Image1, r1.value.similarity)
    ensures Matched(r2) ==> cs[|cs| - 1] == Candidate(Image2, r2.value.similarity)
  {
    (if Matched(r1) then [Candidate(Image1, r1.value.similarity)] else []) +
    (if Matched(r2) then [Candidate(Image2, r2.value.similarity)] else [])
  }

  /** The position of the first candidate whose similarity no other
      candidate exceeds. */
  function FirstBestIndex(cs: seq<Candidate>): (k: nat)
    requires |cs| > 0
    ensures k < |cs|
    ensures forall j :: 0 <= j < |cs| ==> cs[j].similarity <= cs[k].similarity
    ensures forall j :: 0 <= j < k ==> cs[j].similarity < cs[k].similarity
  {
    if |cs| == 1 then 0
    else
      var k := FirstBestIndex(cs[1..]) + 1;
      if cs[k].similarity > cs[0].similarity then k else 0
  }

  /** "The highest score wins, the first-listed wins a tie", for any number
      of candidates: no candidate means no match. */
  function FirstBest(cs: seq<Candidate>): Decision
  {
    if cs == [] then NoMatch
    else Found(cs[FirstBestIndex(cs)].similarity, cs[FirstBestIndex(cs)].image)
  }

  /** The nested if/else of the handler is that reference rule applied to
      the matched legs in the order image1, image2. */
  lemma BestMatchIsFirstBest(r1: Option<Leg>, r2: Option<Leg>)
    ensures BestMatch(r1, r2) == FirstBest(Candidates(r1, r2))
  {
  }

  // ---------------------------------------------------------------------
  // Failures and the handler

  /** A comparison that threw counts exactly as one that found no face
      match: the response is the same. */
  lemma FailedCallIsNoMatch(u: Upload, call1: CallOutcome, call2: CallOutcome, msg: string)
    ensures Handle(u, Failed(msg), call2) == Handle(u, Answered(CompareFacesResponse(None)), call2)
    ensures Handle(u, call1, Failed(msg)) == Handle(u, call1, Answered(CompareFacesResponse(None)))
  {
  }

  /** With a valid upload the handler never answers with an error, even
      when both calls throw; it reports a match exactly when one of the two
      responses holds a face match, names that response, and reports the
      highest first similarity among such responses, image1 on a tie; with
      no face match at all it sends NoMatch. */
  lemma HandleMatchesWhenAFaceMatched(u: Upload, call1: CallOutcome, call2: CallOutcome)
    requires Validate(u).None?
    ensures Handle(u, call1, call2).Json?
    ensures Handle(u, call1, call2).decision.matchFound <==>
      (call1.Answered? && HasFaceMatches(call1.response)) ||
      (call2.Answered? && HasFaceMatches(call2.response))
    ensures Handle(u, call1, call2).decision.matchedImage == Some(Image1) ==>
      call1.Answered? && HasFaceMatches(call1.response) &&
      Handle(u, call1, call2).decision.similarity == call1.response.faceMatches.value[0].similarity
    ensures Handle(u, call1, call2).decision.matchedImage == Some(Image2) ==>
      call2.Answered? && HasFaceMatches(call2.response) &&
      Handle(u, call1, call2).decision.similarity == call2.response.faceMatches.value[0].similarity
    ensures Handle(u, call1, call2).decision.matchFound ==> Handle(u, call1, call2).decision.matchedImage.Some?
    ensures !Handle(u, call1, call2).decision.matchFound ==> Handle(u, call1, call2).decision == NoMatch
    ensures call1.Answered? && HasFaceMatches(call1.response) ==>
      call1.response.faceMatches.value[0].similarity <= Handle(u, call1, call2).decision.similarity
    ensures call2.Answered? && HasFaceMatches(call2.response) ==>
      call2.response.faceMatches.value[0].similarity <= Handle(u, call1, call2).decision.similarity
    ensures call1.Answered? && HasFaceMatches(call1.response) &&
            call2.Answered? && HasFaceMatches(call2.response) &&
            call1.response.faceMatches.value[0].similarity == call2.response.faceMatches.value[0].similarity ==>
      Handle(u, call1, call2).decision.matchedImage == Some(Image1)
  {
  }

  /** Validation runs first: a missing reference image is reported even when
      the captured image is missing too, and the calls play no part. */
  lemma RefusalIgnoresCalls(u: Upload, call1: CallOutcome, call2: CallOutcome)
    ensures !u.image1 || !u.image2 ==>
      Handle(u, call1, call2) == Error(400, "Both image1 and image2 must be provided.")
    ensures u.image1 && u.image2 && !u.capturedImage ==>
      Handle(u, call1, call2) == Error(400, "Captured image is required.")
  {
  }

  /** Matched legs scored 70 and 90 select the 90; a lone match of 90 wins. */
  lemma NinetyBeatsSeventy()
    ensures BestMatch(Some(Leg(true, 70.0)), Some(Leg(true, 90.0))) == Found(90.0, Image2)
    ensures BestMatch(Some(Leg(true, 90.0)), None) == Found(90.0, Image1)
  {
  }
}
