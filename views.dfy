/** The two request handlers of the face-detection backend: the detect view,
    whose per-frame processing drives the looking-away timer and the identity
    check, and the reference view, which stores a reference face encoding.
    Decoding, the cascade detectors and the face-recognition library are
    replaced by their outcomes, passed in as parameters. */
module FaceDetectionViews {
  import opened Wrappers
  import opened AbsenceTimer

  /** An opaque face encoding produced by the face-recognition library. */
  datatype Encoding = Encoding(vector: seq<real>)

  /** The four fields returned for a processed frame. */
  datatype FrameResult = FrameResult(
    personCount: nat,
    lookingAway: bool,
    electronicDevices: bool,
    samePerson: bool)

  /** Decoding the base64 frame, converting it to grey and running the
      frontal-face and full-body cascades: either one of these raises, or the
      two detection counts come back. */
  datatype Detection = DetectionRaised(message: string) | Detected(faces: nat, objects: nat)

  /** Locating faces in an image and encoding the first one: either the library
      raises, or it finds no face location, or it yields the first face's
      encoding. */
  datatype Recognition =
    | RecognitionRaised(message: string)
    | NoFaceLocation
    | FirstFaceEncoding(encoding: Encoding)

  /** The body of an HTTP response. */
  datatype Body = FrameBody(result: FrameResult) | ErrorBody(error: string) | MessageBody(message: string)

  datatype Response = Response(status: int, body: Body)

  const HttpOk: int := 200
  const HttpBadRequest: int := 400
  const HttpServerError: int := 500

  const LookingAwayThresholdSeconds: int := 5

  const NoFrameMessage: string := "No frame data provided"
  const NoImageMessage: string := "No image data provided"
  const NoFaceMessage: string := "No face detected in reference image"
  const ReferenceSetMessage: string := "Reference image set successfully"

  /** Python's `not data` for the request field: missing (None) or empty. */
  predicate Falsy(data: Option<string>)
  {
    data.None? || data.value == ""
  }

  /** Whether processing a frame calls into the face-recognition library. */
  predicate RecognitionConsulted(reference: Option<Encoding>, detection: Detection)
  {
    detection.Detected? && detection.faces > 0 && reference.Some?
  }

  /** What processing one frame returns, given the view's state before it:
      the frame's result, or the message of the exception it raised. The
      identity verdict is the comparator's only when a reference is set, the
      frame has a face and a face location is found; otherwise it is true. */
  function FrameOutcome(
    start: Option<int>, threshold: int, reference: Option<Encoding>,
    detection: Detection, now: int, recognition: Recognition,
    compareFaces: (Encoding, Encoding) -> bool): Result<FrameResult>
  {
    match detection
    case DetectionRaised(m) => Failure(m)
    case Detected(faces, objects) =>
      if RecognitionConsulted(reference, detection) && recognition.RecognitionRaised? then
        Failure(recognition.message)
      else
        Success(FrameResult(
          faces,
          LookingAway(start, faces, now, threshold),
          objects > 0,
          if reference.Some? && faces > 0 && recognition.FirstFaceEncoding? then
            compareFaces(reference.value, recognition.encoding)
          else
            true))
  }

  /** The timer after processing one frame. The timer is cleared before the
      face-recognition library is called, so a failure there still clears it;
      a failure while decoding or detecting leaves it as it was. */
  function TimerAfterFrame(start: Option<int>, detection: Detection, now: int): Option<int>
  {
    match detection
    case DetectionRaised(_) => start
    case Detected(faces, _) => NextTimer(start, faces, now)
  }

  /** The response of the detect endpoint: 400 for a missing or empty frame,
      otherwise 200 with the frame's result or 500 with the exception text. */
  function DetectResponse(frameData: Option<string>, outcome: Result<FrameResult>): (r: Response)
    ensures r.status == HttpBadRequest <==> Falsy(frameData)
    ensures r.status == HttpOk <==> !Falsy(frameData) && outcome.Success?
    ensures r.status == HttpServerError <==> !Falsy(frameData) && outcome.Failure?
    ensures r.status == HttpOk ==> r.body == FrameBody(outcome.value)
    ensures r.status == HttpServerError ==> r.body == ErrorBody(outcome.error)
  {
    if Falsy(frameData) then
      Response(HttpBadRequest, ErrorBody(NoFrameMessage))
    else
      match outcome
      case Success(result) => Response(HttpOk, FrameBody(result))
      case Failure(m) => Response(HttpServerError, ErrorBody(m))
  }

  /** The response of the reference endpoint and the stored reference after
      it: 400 for a missing or empty image or an image without a face location,
      500 when decoding or the library raises, and otherwise 200 with the first
      face's encoding stored. Only a 200 changes the stored reference. */
  function SetReference(stored: Option<Encoding>, imageData: Option<string>, recognition: Recognition)
    : (r: (Response, Option<Encoding>))
    ensures r.0.status == HttpOk <==> !Falsy(imageData) && recognition.FirstFaceEncoding?
    ensures r.0.status == HttpBadRequest <==> Falsy(imageData) || recognition.NoFaceLocation?
    ensures r.0.status == HttpServerError <==> !Falsy(imageData) && recognition.RecognitionRaised?
    ensures r.0.status == HttpOk ==> r.1 == Some(recognition.encoding)
    ensures r.0.status != HttpOk ==> r.1 == stored
  {
    if Falsy(imageData) then
      (Response(HttpBadRequest, ErrorBody(NoImageMessage)), stored)
    else
      match recognition
      case RecognitionRaised(m) => (Response(HttpServerError, ErrorBody(m)), stored)
      case NoFaceLocation => (Response(HttpBadRequest, ErrorBody(NoFaceMessage)), stored)
      case FirstFaceEncoding(e) => (Response(HttpOk, MessageBody(ReferenceSetMessage)), Some(e))
  }

  /** One instance of the detect view, with its looking-away timer and
      threshold. Its `reference_encoding` is looked up as Python does: the
      instance attribute when the instance has one, otherwise the attribute of
      the class object `viewClass`. */
  class FaceDetectionView {
    const viewClass: FaceDetectionViewClass
    var hasInstanceReference: bool
    var referenceEncoding: Option<Encoding>
    var lookingAwayStart: Option<int>
    var lookingAwayThreshold: int

    /** The value `self.reference_encoding` reads. */
    function Reference(): Option<Encoding>
      reads this, viewClass
    {
      if hasInstanceReference then referenceEncoding else viewClass.referenceEncoding
    }

    /** The constructor gives the instance its own `reference_encoding` of
        None, which from then on hides the class attribute. */
    constructor (viewClass: FaceDetectionViewClass)
      ensures this.viewClass == viewClass
      ensures hasInstanceReference && referenceEncoding == None
      ensures lookingAwayStart == None
      ensures lookingAwayThreshold == LookingAwayThresholdSeconds
    {
      this.viewClass := viewClass;
      hasInstanceReference := true;
      referenceEncoding := None;
      lookingAwayStart := None;
      lookingAwayThreshold := LookingAwayThresholdSeconds;
    }

    /** Processes one frame at time `now`: builds the result, then adjusts the
        looking-away flag and the identity verdict while updating the timer.
        Only the timer changes. */
    method ProcessFrame(
      detection: Detection, now: int, recognition: Recognition,
      compareFaces: (Encoding, Encoding) -> bool)
      returns (r: Result<FrameResult>)
      modifies this`lookingAwayStart
      ensures r == FrameOutcome(old(lookingAwayStart), lookingAwayThreshold, Reference(),
                                detection, now, recognition, compareFaces)
      ensures lookingAwayStart == TimerAfterFrame(old(lookingAwayStart), detection, now)
    {
      if detection.DetectionRaised? {
        return Failure(detection.message);
      }
      var result := FrameResult(detection.faces, false, detection.objects > 0, true);
      if detection.faces == 0 {
        if lookingAwayStart.None? {
          lookingAwayStart := Some(now);
        } else if SecondsField(now - lookingAwayStart.value) >= lookingAwayThreshold {
          result := result.(lookingAway := true);
        }
      } else {
        lookingAwayStart := None;
        var reference := Reference();
        if reference.Some? {
          match recognition {
            case RecognitionRaised(m) =>
              return Failure(m);
            case NoFaceLocation =>
            case FirstFaceEncoding(e) =>
              result := result.(samePerson := compareFaces(reference.value, e));
          }
        }
      }
      return Success(result);
    }

    /** The detect endpoint: rejects a missing or empty frame without touching
        the timer, otherwise processes the frame and reports its result or the
        exception it raised. */
    method Post(
      frameData: Option<string>, detection: Detection, now: int, recognition: Recognition,
      compareFaces: (Encoding, Encoding) -> bool)
      returns (resp: Response)
      modifies this`lookingAwayStart
      ensures resp == DetectResponse(frameData,
        FrameOutcome(old(lookingAwayStart), lookingAwayThreshold, Reference(),
                     detection, now, recognition, compareFaces))
      ensures lookingAwayStart ==
        if Falsy(frameData) then old(lookingAwayStart)
        else TimerAfterFrame(old(lookingAwayStart), detection, now)
    {
      if Falsy(frameData) {
        return Response(HttpBadRequest, ErrorBody(NoFrameMessage));
      }
      var outcome := ProcessFrame(detection, now, recognition, compareFaces);
      match outcome {
        case Success(result) => resp := Response(HttpOk, FrameBody(result));
        case Failure(m) => resp := Response(HttpServerError, ErrorBody(m));
      }
    }
  }

  /** The class object of the detect view, whose `reference_encoding`
      attribute the reference endpoint assigns. */
  class FaceDetectionViewClass {
    var referenceEncoding: Option<Encoding>

    constructor ()
      ensures referenceEncoding == None
    {
      referenceEncoding := None;
    }
  }

  /** The reference view; it holds no state of its own. */
  class ReferenceImageView {
    constructor ()
    {
    }

    /** The reference endpoint: stores the first face's encoding on the detect
        view's class object, or leaves it alone and reports why not. */
    method Post(viewClass: FaceDetectionViewClass, imageData: Option<string>, recognition: Recognition)
      returns (resp: Response)
      modifies viewClass
      ensures (resp, viewClass.referenceEncoding) ==
        SetReference(old(viewClass.referenceEncoding), imageData, recognition)
    {
      if Falsy(imageData) {
        return Response(HttpBadRequest, ErrorBody(NoImageMessage));
      }
      match recognition {
        case RecognitionRaised(m) =>
          resp := Response(HttpServerError, ErrorBody(m));
        case NoFaceLocation =>
          resp := Response(HttpBadRequest, ErrorBody(NoFaceMessage));
        case FirstFaceEncoding(e) =>
          viewClass.referenceEncoding := Some(e);
          resp := Response(HttpOk, MessageBody(ReferenceSetMessage));
      }
    }
  }

  /** A successful frame reports as many persons as face detections, and
      electronic devices exactly when the full-body cascade found something.
      Processing fails only when detection raises, or when the library is
      consulted and raises. */
  lemma FrameResultCounts(
    start: Option<int>, threshold: int, reference: Option<Encoding>,
    detection: Detection, now: int, recognition: Recognition,
    compareFaces: (Encoding, Encoding) -> bool)
    ensures var r := FrameOutcome(start, threshold, reference, detection, now, recognition, compareFaces);
      r.Failure? <==> detection.DetectionRaised? ||
                      (RecognitionConsulted(reference, detection) && recognition.RecognitionRaised?)
    ensures var r := FrameOutcome(start, threshold, reference, detection, now, recognition, compareFaces);
      r.Success? ==> r.value.personCount == detection.faces &&
                     (r.value.electronicDevices <==> detection.objects > 0)
  {
  }

  /** A face-less frame with no timer running starts the timer at `now` and is
      not flagged. */
  lemma TimerStartsOnFirstAbsentFrame(
    threshold: int, reference: Option<Encoding>, objects: nat, now: int,
    recognition: Recognition, compareFaces: (Encoding, Encoding) -> bool)
    ensures TimerAfterFrame(None, Detected(0, objects), now) == Some(now)
    ensures var r := FrameOutcome(None, threshold, reference, Detected(0, objects), now, recognition, compareFaces);
      r.Success? && !r.value.lookingAway
  {
  }

  /** A face-less frame with the timer running leaves the timer alone and is
      flagged exactly when the seconds field of the time since the timer
      started reaches the threshold. */
  lemma TimerHeldWhileAbsent(
    start: int, threshold: int, reference: Option<Encoding>, objects: nat, now: int,
    recognition: Recognition, compareFaces: (Encoding, Encoding) -> bool)
    ensures TimerAfterFrame(Some(start), Detected(0, objects), now) == Some(start)
    ensures var r := FrameOutcome(Some(start), threshold, reference, Detected(0, objects), now, recognition, compareFaces);
      r.Success? && (r.value.lookingAway <==> SecondsField(now - start) >= threshold)
  {
  }

  /** A frame with a face clears the timer, even when the library then raises,
      and is never flagged. */
  lemma FaceClearsTimer(
    start: Option<int>, threshold: int, reference: Option<Encoding>, faces: nat, objects: nat,
    now: int, recognition: Recognition, compareFaces: (Encoding, Encoding) -> bool)
    requires faces > 0
    ensures TimerAfterFrame(start, Detected(faces, objects), now) == None
    ensures var r := FrameOutcome(start, threshold, reference, Detected(faces, objects), now, recognition, compareFaces);
      r.Success? ==> !r.value.lookingAway
  {
  }

  /** `same_person` is the comparator's verdict on the first face exactly when
      a reference is set, the frame has a face and a face location is found;
      otherwise it is true. */
  lemma SamePersonRule(
    start: Option<int>, threshold: int, reference: Option<Encoding>, faces: nat, objects: nat,
    now: int, recognition: Recognition, compareFaces: (Encoding, Encoding) -> bool)
    ensures var r := FrameOutcome(start, threshold, reference, Detected(faces, objects), now, recognition, compareFaces);
      r.Success? ==>
        r.value.samePerson ==
          if reference.Some? && faces > 0 && recognition.FirstFaceEncoding? then
            compareFaces(reference.value, recognition.encoding)
          else true
  {
  }

  /** Frames processed one after another on one view follow the run of their
      samples: the `looking_away` flag of frame `i` is the run's flag for that
      frame, and the timer after it is the run's timer after frames 0 to `i`. */
  lemma ProcessFrameFollowsRun(
    start: Option<int>, frames: seq<Sample>, i: int, threshold: int, reference: Option<Encoding>,
    objects: nat, recognition: Recognition, compareFaces: (Encoding, Encoding) -> bool)
    requires 0 <= i < |frames|
    ensures var r := FrameOutcome(TimerAfterAll(start, frames[..i]), threshold, reference,
                                  Detected(frames[i].faces, objects), frames[i].now, recognition, compareFaces);
      r.Success? ==> (r.value.lookingAway <==> LookingAwayAt(start, frames, i, threshold))
    ensures TimerAfterFrame(TimerAfterAll(start, frames[..i]), Detected(frames[i].faces, objects), frames[i].now)
            == TimerAfterAll(start, frames[..i + 1])
  {
    assert frames[..i + 1] == frames[..i] + [frames[i]];
    TimerAfterAppend(start, frames[..i], frames[i]);
  }

  /** Two face-less frames five seconds apart on a new view: the first starts
      the timer and is not flagged, the second is flagged and leaves the timer
      where it was. */
  method AbsenceFlaggedOnSecondFrame(
    t: int, objects: nat, recognition: Recognition, compareFaces: (Encoding, Encoding) -> bool)
    returns (first: Result<FrameResult>, second: Result<FrameResult>, timer: Option<int>)
    ensures first == Success(FrameResult(0, false, objects > 0, true))
    ensures second == Success(FrameResult(0, true, objects > 0, true))
    ensures timer == Some(t)
  {
    var viewClass := new FaceDetectionViewClass();
    var view := new FaceDetectionView(viewClass);
    first := view.ProcessFrame(Detected(0, objects), t, recognition, compareFaces);
    SecondsFieldWithinDay(LookingAwayThresholdSeconds * MicrosPerSecond);
    second := view.ProcessFrame(Detected(0, objects), t + LookingAwayThresholdSeconds * MicrosPerSecond,
                                recognition, compareFaces);
    timer := view.lookingAwayStart;
  }

  /** A reference stored on the class object through the reference endpoint is
      never seen by a detect view of that class: the instance attribute set in
      the constructor hides the class attribute, so a frame with a different
      face is still reported as the same person. */
  method ReferenceNotSeenByNewView(
    reference: Encoding, other: Encoding, faces: nat, objects: nat, now: int,
    compareFaces: (Encoding, Encoding) -> bool)
    returns (stored: Option<Encoding>, r: Result<FrameResult>)
    requires faces > 0
    ensures stored == Some(reference)
    ensures r.Success? && r.value.samePerson && r.value.personCount == faces
  {
    var viewClass := new FaceDetectionViewClass();
    var referenceView := new ReferenceImageView();
    var resp := referenceView.Post(viewClass, Some("reference"), FirstFaceEncoding(reference));
    stored := viewClass.referenceEncoding;
    var view := new FaceDetectionView(viewClass);
    r := view.ProcessFrame(Detected(faces, objects), now, FirstFaceEncoding(other), compareFaces);
  }
}
