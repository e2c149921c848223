# Face-compare match decision, modelled in Dafny

The service takes three uploaded images: two reference images, `image1` and
`image2`, and a `captured_image`. It compares each reference image with the
captured one through Amazon Rekognition's CompareFaces. It then turns the two
comparison results ("legs") into one JSON decision
`{matchFound, similarity[, matchedImage]}`. The repository has two `/compare`
handlers with different decision policies:

- `server.js` does not gate on a threshold and reports a label. A leg whose
  comparison threw is left empty (`{}`) and counts as unmatched. Any matched
  leg can win. Between two matched legs the higher similarity wins, and a tie
  goes to `image1`. The winner is named in `matchedImage`.
- `index.js` gates on a threshold and reports no label. A match is reported
  only when both legs matched and both similarities are strictly above 80.
  The larger similarity is reported. A comparison that throws ends the
  request with status 500.

Both handlers first validate the upload in the same way. A missing reference
image gives 400 "Both image1 and image2 must be provided.". Only after that
check does a missing captured image give 400 "Captured image is required.".
Both also map a CompareFaces response to a leg in the same way: a non-empty
`FaceMatches` gives `match: true` with the first entry's `Similarity`, and
anything else gives `{match: false, similarity: 0}`.

The model is made of pure functions and lemmas, because the source's decision
logic is a chain of if/else branches with no loops and no mutated state:

- `comparison.dfy` (module `Comparison`) holds what both files share. It
  defines the response, leg, decision and upload types, `LegOf` (the tail of
  `compareImages`), `CompareImages` (its rethrow), `Validate` and the
  400 response.
- `server.dfy` (module `Server`) holds `BestMatch` and the handler `Handle`.
  It also holds a reference definition, "the first-listed candidate among
  those with the highest score", and the lemmas about both.
- `index.dfy` (module `Index`) holds `GatedMatch`, its handler `Handle`
  and the lemmas about them.
- `variants.dfy` (module `Variants`) relates the two policies.

A similarity is a `real`, because the code only compares it with `>`. The
comparison call (file reads plus the Rekognition request) is a parameter of
each handler, `CallOutcome`: either a response arrived or an error was
thrown with a message. In `index.js` the two calls run one after another, so
when the first call throws, the second call's outcome plays no part.

## Model

| member | source | states |
|---|---|---|
| `Comparison.LegOf` | server.js:139-147 | The leg is matched exactly when `FaceMatches` is present and non-empty. It then carries the first entry's similarity; otherwise it is `{match: false, similarity: 0}`. The code is identical at index.js:47-55. |
| `Comparison.LegOfReadsOnlyFirstMatch` | server.js:140-147 | A missing `FaceMatches` and an empty one give the same leg, and entries after the first never affect the leg. |
| `Comparison.CompareImages` | server.js:125-152 | `compareImages` resolves with `LegOf` of the response when the call answers, and rethrows the call's error with its message unchanged when it fails. The code is the same at index.js:33-60. |
| `Comparison.Message` | server.js:51-57 | Each refusal has a fixed, non-empty message text. |
| `Comparison.MessagesDiffer` | server.js:51-57 | The two refusal messages are different, so a client can tell the two refusals apart. |
| `Comparison.Validate` | server.js:51-57 | The upload passes exactly when all three fields are present. A missing `image1` or `image2` is reported as such, whether or not the captured image is there. A missing captured image is reported only when both reference images are present. The code is identical at index.js:72-78. |
| `Comparison.Refuse` | server.js:52 | A refusal is answered with status 400 and the refusal's message. |
| `Server.Absorb` | server.js:59-72 | A leg is present exactly when its `compareImages` call resolved, and is then that record. A call that threw leaves the leg empty (`{}`), and its error goes no further. |
| `Server.BestMatch` | server.js:74-114 | A match is found exactly when some leg matched. It then names a leg that matched, reports that leg's similarity, and no matched leg has a higher one. With no matched leg the decision is `{matchFound: false, similarity: 0}` with no label. |
| `Server.Handle` | server.js:46-117 | A bad upload gets its 400 refusal. A valid upload always gets a JSON decision: the handler never sends 500 for a failed comparison. |
| `Server.NoMatchWhenNeitherMatched` | server.js:109-113 | When neither leg matched (absent, failed or unmatched), the decision is `{matchFound: false, similarity: 0}` with no `matchedImage`. |
| `Server.HigherSimilarityWins` | server.js:77-89 | When both legs matched, `s1 > s2` selects `image1` with `s1`, and `s2 > s1` selects `image2` with `s2`. |
| `Server.TieGoesToImage1` | server.js:90-95 | When both legs matched with equal similarity, the decision is `image1` with that similarity, every time. |
| `Server.SoleMatchWins` | server.js:97-108 | When exactly one leg matched, that leg is named with its own similarity, whatever the other leg carries. |
| `Server.BestMatchSwap` | server.js:77-108 | Swapping the two legs keeps `matchFound` and the similarity. The label flips, except on a tie between two matched legs. |
| `Server.Candidates` | server.js:77-108 | The candidates are the matched legs, each with its own label and similarity, one candidate per matched leg. Image1's candidate, when present, comes first and image2's comes last. |
| `Server.FirstBestIndex` | server.js:76-96 | For a non-empty candidate list, the chosen position holds a similarity that no candidate exceeds. Every earlier candidate scores strictly lower, so ties go to the first-listed candidate. |
| `Server.BestMatchIsFirstBest` | server.js:74-114 | The nested if/else equals the reference rule "first-listed among the highest scores, no match without candidates", applied to the matched legs in the order image1, image2. |
| `Server.FailedCallIsNoMatch` | server.js:59-72 | The handler answers the same way when a comparison threw as when it returned a response with no `FaceMatches`, for either leg. |
| `Server.HandleMatchesWhenAFaceMatched` | server.js:59-114 | With a valid upload the answer is always JSON. It reports a match exactly when one of the answered responses holds a face match. A reported `image1`/`image2` comes from an answered response with face matches, and the reported similarity is that response's first `Similarity`. No such response has a higher first `Similarity`, and a tie between the two names `image1`. A found match always carries a label, and otherwise the decision is `{matchFound: false, similarity: 0}`. |
| `Server.RefusalIgnoresCalls` | server.js:51-57 | Validation runs before any comparison. The exact 400 messages are sent, in the order reference images first, then captured image, whatever the calls would give. |
| `Server.NinetyBeatsSeventy` | server.js:84-89 | Two matched legs scored 70 and 90 select `image2` with 90. A lone matched leg with 90 is selected when the other leg is absent. |
| `Index.GatedMatch` | index.js:87-107 | A match is found exactly when both legs matched with similarity strictly above 80. It then reports the larger similarity: one of the two, at least both, above 80, and never a label. Every other case is `{matchFound: false, similarity: 0}`. |
| `Index.Handle` | index.js:67-114 | A bad upload gets its 400 refusal. Otherwise the first comparison that throws ends the request with 500 and that error's message, and the first call's error wins when both fail. JSON is sent exactly when the upload is valid and both calls answered. |
| `Index.UnmatchedLegVetoes` | index.js:102-106 | If either leg did not match, the decision is no match, however high the other leg scored. |
| `Index.ThresholdIsStrict` | index.js:91-100 | When both legs matched but one similarity is 80 or below, the decision is no match. A score of exactly 80 is rejected. |
| `Index.GatedMatchSymmetric` | index.js:90-107 | Swapping the two legs gives the same decision, ties included. |
| `Index.HandleMatchesWhenBothFacesAbove` | index.js:80-107 | Suppose the upload is valid and both calls answer. A match is reported exactly when both responses hold a face match whose first `Similarity` is above 80, and the reported similarity is the larger of those two. The decision never carries a label, and otherwise it is `{matchFound: false, similarity: 0}`. |
| `Index.RefusalIgnoresCalls` | index.js:72-78 | The same 400 messages in the same order as server.js, before any comparison can fail the request. |
| `Variants.GatedImpliesBest` | index.js:90-95 | Whatever the gated policy accepts, the ungated policy accepts too, with the same similarity: the gate only removes matches. |
| `Variants.SoleMatchSplitsVariants` | index.js:102-106 | When only `image1`'s leg matched, the ungated policy reports a match and the gated policy does not. |

## Left out

- Express routing, EJS rendering, static file serving and `app.listen` are not modelled. They are HTTP and UI plumbing with no decision logic.
- Multer disk storage and file naming are not modelled. The upload is reduced to which of the three fields is present, and `maxCount: 1` is not represented.
- `fs.readFileSync`, the AWS SDK configuration and `rekognition.compareFaces` are foreign calls and are not modelled. Their result is the `CallOutcome` parameter: a response or a thrown error with a message.
- Each handler takes both call outcomes as parameters. The model therefore does not say that no call is made when validation refuses the request, or, in index.js, that the second call is skipped after the first one throws. Only the response is modelled.
- `async`/`await` ordering and `console` logging are effects and are not modelled.
- The outer 500 catch-all is modelled only for the error it can actually carry, a rethrown comparison error in index.js. Other exceptions are not modelled, such as a request that carries no `req.files` at all.
- Floating-point behaviour of `Similarity` is not modelled (NaN, `undefined` in a malformed Rekognition entry). A similarity is a real number, and only `>` and the constant 80 are used.
- `dotenv` loading and the unused `axios` and `path` imports are configuration only and are not modelled.
