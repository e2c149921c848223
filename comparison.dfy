/** Pieces shared by both `/compare` handlers: the part of a Rekognition
    CompareFaces response that is read, the leg record `compareImages`
    builds from it, upload validation, and the HTTP response shape. */
module Comparison {

  datatype Option<+T> = None | Some(value: T)

  /** Either a value or the message of the exception that replaced it. */
  datatype Result<+T> = Ok(value: T) | Err(message: string)

  /** A similarity score as Rekognition reports it (0 to 100). Only ever
      compared with `>`, so a real number stands in for the JavaScript number. */
  type Similarity = real

  /** One entry of the `FaceMatches` list; only its `Similarity` is read. */
  datatype FaceMatch = FaceMatch(similarity: Similarity)

  /** The part of a CompareFaces response that is read: `FaceMatches`,
      which may be missing altogether. */
  datatype CompareFacesResponse = CompareFacesResponse(faceMatches: Option<seq<FaceMatch>>)

  /** What the comparison call gives back: a response, or a thrown error
      (an unreadable file or a failed Rekognition request). */
  datatype CallOutcome = Answered(response: CompareFacesResponse) | Failed(message: string)

  /** The `{match, similarity}` record that `compareImages` resolves with. */
  datatype Leg = Leg(matched: bool, similarity: Similarity)

  /** Which reference image a decision names in `matchedImage`. */
  datatype Label = Image1 | Image2

  /** The JSON body `{matchFound, similarity[, matchedImage]}` of a decision. */
  datatype Decision = Decision(matchFound: bool, similarity: Similarity, matchedImage: Option<Label>)

  /** `{matchFound: false, similarity: 0}`, the one decision that reports no match. */
  const NoMatch: Decision := Decision(false, 0.0, None)

  /** Which of the three multipart fields the request carried. */
  datatype Upload = Upload(image1: bool, image2: bool, capturedImage: bool)

  /** The two ways a request is refused before any comparison is made. */
  datatype BadRequest = ReferenceImagesMissing | CapturedImageMissing

  /** What the handler sends: a decision as JSON, or a status with an error message. */
  datatype Response = Json(decision: Decision) | Error(status: int, message: string)

  const BadRequestStatus: int := 400
  const ServerErrorStatus: int := 500

  /** True when `FaceMatches` is present and holds at least one entry. */
  predicate HasFaceMatches(resp: CompareFacesResponse)
  {
    resp.faceMatches.Some? && |resp.faceMatches.value| > 0
  }

  /** The tail of `compareImages`: a leg that matched with the first entry's
      similarity when there is one, otherwise `{match: false, similarity: 0}`. */
  function LegOf(resp: CompareFacesResponse): (leg: Leg)
    ensures leg.matched <==> HasFaceMatches(resp)
    ensures leg.matched ==> leg.similarity == resp.faceMatches.value[0].similarity
    ensures !leg.matched ==> leg == Leg(false, 0.0)
  {
    match resp.faceMatches
    case Some(ms) =>
      if |ms| > 0 then Leg(true, ms[0].similarity) else Leg(false, 0.0)
    case None => Leg(false, 0.0)
  }

  /** A missing `FaceMatches` and an empty one give the same leg, and only
      the first entry of a non-empty list is looked at. */
  lemma LegOfReadsOnlyFirstMatch(ms: seq<FaceMatch>)
    ensures LegOf(CompareFacesResponse(None)) == LegOf(CompareFacesResponse(Some([])))
    ensures |ms| > 0 ==>
      LegOf(CompareFacesResponse(Some(ms))) == LegOf(CompareFacesResponse(Some(ms[..1])))
  {
  }

  /** `compareImages` as a whole: the call either answers, and the answer is
      mapped by `LegOf`, or it throws, and the error is rethrown unchanged. */
  function CompareImages(call: CallOutcome): (r: Result<Leg>)
    ensures r.Ok? <==> call.Answered?
    ensures r.Ok? ==> r.value == LegOf(call.response)
    ensures r.Err? ==> r.message == call.message
  {
    match call
    case Answered(resp) => Ok(LegOf(resp))
    case Failed(msg) => Err(msg)
  }

  /** The fixed message each refusal is sent with. */
  function Message(e: BadRequest): (msg: string)
    ensures |msg| > 0
  {
    match e
    case ReferenceImagesMissing => "Both image1 and image2 must be provided."
    case CapturedImageMissing => "Captured image is required."
  }

  /** The two refusals can be told apart by their message alone. */
  lemma MessagesDiffer()
    ensures Message(ReferenceImagesMissing) != Message(CapturedImageMissing)
  {
  }

  /** The two presence checks, the reference images first: a request missing
      a reference image is refused for that even when the captured image is
      missing too. */
  function Validate(u: Upload): (err: Option<BadRequest>)
    ensures err.None? <==> u.image1 && u.image2 && u.capturedImage
    ensures err == Some(ReferenceImagesMissing) <==> !u.image1 || !u.image2
    ensures err == Some(CapturedImageMissing) <==> u.image1 && u.image2 && !u.capturedImage
  {
    if !u.image1 || !u.image2 then Some(ReferenceImagesMissing)
    else if !u.capturedImage then Some(CapturedImageMissing)
    else None
  }

  /** The response for a refused request: status 400 with the fixed message. */
  function Refuse(e: BadRequest): (resp: Response)
    ensures resp.Error? && resp.status == BadRequestStatus
    ensures resp.message == Message(e)
  {
    Error(BadRequestStatus, Message(e))
  }
}
