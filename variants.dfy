/** How the two handlers' decisions relate when given the same two legs. */
module Variants {
  import opened Comparison
  import Server
  import Index

  /** Whatever the gated handler accepts, the ungated one accepts too, with
      the same similarity: the gate only removes matches. */
  lemma GatedImpliesBest(l1: Leg, l2: Leg)
    ensures Index.GatedMatch(l1, l2).matchFound ==>
      Server.BestMatch(Some(l1), Some(l2)).matchFound &&
      Server.BestMatch(Some(l1), Some(l2)).similarity == Index.GatedMatch(l1, l2).similarity
  {
  }

  /** The two handlers disagree when only one leg matched: the ungated one
      reports it, the gated one does not, however high it scored. */
  lemma SoleMatchSplitsVariants(l1: Leg, l2: Leg)
    requires l1.matched && !l2.matched
    ensures Server.BestMatch(Some(l1), Some(l2)).matchFound
    ensures !Index.GatedMatch(l1, l2).matchFound
  {
  }
}
