# Face-detection backend: looking-away timer and reference check

This project models the decision logic of the face-detection backend's two
request handlers in `backend/face_detection/views.py`:

- `FaceDetectionView` holds an optional reference encoding, an optional
  "looking away" start time and a threshold of 5 seconds. Each processed frame
  yields a four-field result (`person_count`, `looking_away`,
  `electronic_devices`, `same_person`) and updates the timer. The timer starts
  on the first frame without a face, is kept while no face is seen and is
  cleared by a frame with a face. A face-less frame is flagged once the
  `seconds` field of the time since the timer started reaches the threshold.
- `ReferenceImageView` stores the first face encoding found in a reference
  image, or answers 400 when the image is missing, empty or has no face.

Everything the handlers delegate to libraries is an input:

- Base64 decoding, image decoding and the two Haar cascades become a
  `Detection`: either they raise, or they give a face count and a full-body
  count.
- `face_locations` / `face_encodings` become a `Recognition`: either they
  raise, or they find no face location, or they give the first face's
  encoding.
- `compare_faces` becomes a comparator function parameter.
- `datetime.now()` becomes an integer parameter counted in microseconds,
  which is datetime's resolution.

Python exceptions become `Result.Failure(message)`, which the handlers turn
into a 500 response.

Files:

- `wrappers.dfy`: `Option` and `Result`.
- `absence_timer.dfy` (module `AbsenceTimer`): the timer as pure functions.
  This covers Python's timedelta normal form and its `seconds` field, one timer
  step, runs of frames on one view, and the lemmas about them.
- `views.dfy` (module `FaceDetectionViews`): the result record, the frame
  outcome and endpoint responses as functions, the view classes with their
  methods, and the lemmas about single frames.

Points about the code as written that the model keeps:

- The elapsed time is compared through `timedelta.seconds`. That field has the
  day component dropped; it is not the total number of seconds. Because of
  this, an absence of one day plus less than five seconds is not flagged
  (`AbsenceOverWholeDaysNotFlagged`). A clock that steps back by under a second
  gives 86399 and is flagged (`SecondsFieldOfNegativeDelta`).
- The frame is processed in order: the timer is cleared before the
  face-recognition library is called. So a frame with a face whose recognition
  raises still clears the timer, and the response is 500.
- An undecodable frame or image makes a library call raise. The catch-all
  handler turns that into 500; the only 400 answers are the emptiness checks
  and the missing face in a reference image.
- The reference endpoint assigns the *class* attribute
  `FaceDetectionView.reference_encoding` (views.py:95). Each view instance
  sets its own attribute of that name to `None` in its constructor
  (views.py:18), and nothing ever writes the instance attribute. The model has
  an object `FaceDetectionViewClass` for the class attribute, and each view
  links to it. `FaceDetectionView.Reference` reads the attribute as Python
  does: the instance's value when the instance has one, the class's
  otherwise. `ReferenceNotSeenByNewView` runs the reference endpoint on a
  class object and then a frame on a view of that class. The view still
  reports `same_person` true for a different face, because the instance
  attribute hides the stored reference.
- Django builds a new view instance for every request. So in the deployed
  program each instance processes exactly one frame: the timer is always
  `None` when a frame arrives, and `/detect/` never reports `looking_away`
  true. The lemmas about several frames describe one view object that
  receives several frames, which is what `process_frame` implements but not
  what the deployed endpoint does.

## Model

| member | source | states |
|---|---|---|
| `AbsenceTimer.TimedeltaOf` | backend/face_detection/views.py:48 | the difference of two datetimes in timedelta normal form: days, seconds in [0, 86400) and microseconds in [0, 10^6), which add back up to the difference |
| `AbsenceTimer.SecondsField` | backend/face_detection/views.py:48 | `.seconds` of the elapsed time always lies in [0, 86400) |
| `AbsenceTimer.SecondsFieldWithinDay` | backend/face_detection/views.py:48 | below one day, `.seconds` is the whole number of seconds elapsed |
| `AbsenceTimer.SecondsFieldDropsDays` | backend/face_detection/views.py:48 | adding whole days to the elapsed time leaves `.seconds` unchanged |
| `AbsenceTimer.SecondsFieldOfNegativeDelta` | backend/face_detection/views.py:48 | an elapsed time between minus one second and zero gives `.seconds` 86399 |
| `AbsenceTimer.AbsenceRunStart` | backend/face_detection/views.py:45-51 | finds where the trailing run of face-less frames begins: every later frame has no face and the frame before it has one |
| `AbsenceTimer.TimerAfterAppend` | backend/face_detection/views.py:45-51 | processing one more frame after a run applies one more timer step to the run's timer |
| `AbsenceTimer.TimerTracksAbsenceRun` | backend/face_detection/views.py:45-51 | after a run of frames, the timer is cleared when the last frame has a face. Otherwise it holds the time of the first frame of the trailing face-less run. When that run covers every frame, it holds the time the timer already held if one was running, and the first frame's time if not |
| `AbsenceTimer.LookingAwayIffSustainedAbsence` | backend/face_detection/views.py:39-49 | from a cleared timer, frame i is flagged if and only if it is in a face-less run that began at an earlier frame k and `.seconds` of the time since frame k reaches the threshold |
| `AbsenceTimer.LookingAwayNeedsTwoAbsentFrames` | backend/face_detection/views.py:45-49 | a flagged frame has no face and follows another face-less frame, so the frame that starts the timer is never flagged |
| `AbsenceTimer.SustainedAbsenceIsFlagged` | backend/face_detection/views.py:20-49 | face-less frames sustained for at least the threshold and less than a day flag the frame |
| `AbsenceTimer.AbsenceOverWholeDaysNotFlagged` | backend/face_detection/views.py:48-49 | a timer running for whole days plus less than the threshold does not flag a face-less frame |
| `AbsenceTimer.NextTimer` | backend/face_detection/views.py:45-51 | one timer step: a face-less frame starts the timer at now if none is running and otherwise keeps it; a frame with a face clears it |
| `AbsenceTimer.LookingAway` | backend/face_detection/views.py:45-49 | a frame is flagged only when it has no face, a timer was already running, and `.seconds` of the time since it started reaches the threshold |
| `FaceDetectionViews.Falsy` | backend/face_detection/views.py:67 | Python's `not data` on the request field: missing or empty |
| `FaceDetectionViews.RecognitionConsulted` | backend/face_detection/views.py:54 | the face-recognition library is called only for a detected frame with a face when a reference is set |
| `FaceDetectionViews.FrameOutcome` | backend/face_detection/views.py:22-62 | the result of one frame for the view's state before it, or the exception text when detection raises or the consulted library raises |
| `FaceDetectionViews.TimerAfterFrame` | backend/face_detection/views.py:24-51 | the timer after one frame: unchanged when decoding or detection raises, otherwise one timer step, which happens before recognition is called |
| `FaceDetectionViews.FaceDetectionView.Reference` | backend/face_detection/views.py:18 | `self.reference_encoding` reads the instance attribute when the instance has one, otherwise the class attribute |
| `FaceDetectionViews.FaceDetectionViewClass.constructor` | backend/face_detection/views.py:95 | the class attribute that the reference endpoint assigns starts out unset |
| `FaceDetectionViews.ProcessFrameFollowsRun` | backend/face_detection/views.py:22-62 | frames processed one after another on one view follow the run of their samples: each frame's `looking_away` flag is the run's flag, and the timer after it is the run's timer |
| `FaceDetectionViews.DetectResponse` | backend/face_detection/views.py:64-74 | the detect endpoint answers 400 exactly for a missing or empty frame. Otherwise it answers 200 with the frame's result when processing succeeds, or 500 with the exception text |
| `FaceDetectionViews.SetReference` | backend/face_detection/views.py:78-101 | the reference endpoint answers 400 exactly for a missing or empty image or no face location, 500 exactly when the library raises, and 200 otherwise. It stores the first face's encoding on 200 only and otherwise leaves the stored reference unchanged |
| `FaceDetectionViews.FaceDetectionView.constructor` | backend/face_detection/views.py:14-20 | a new view of a class object has its own reference attribute set to None, no timer and a threshold of 5 seconds |
| `FaceDetectionViews.FaceDetectionView.ProcessFrame` | backend/face_detection/views.py:22-62 | returns the frame outcome for the timer before the call and the reference the view reads, and moves the timer one step. It modifies only the timer, so the reference and the threshold are unchanged |
| `FaceDetectionViews.FaceDetectionView.Post` | backend/face_detection/views.py:64-74 | answers with the detect endpoint's response for the processed frame. A missing or empty frame leaves the timer untouched |
| `FaceDetectionViews.ReferenceImageView.Post` | backend/face_detection/views.py:78-101 | answers with the reference endpoint's response and leaves the class-level reference as that decision says |
| `FaceDetectionViews.FrameResultCounts` | backend/face_detection/views.py:31-42 | `person_count` is the number of face detections and `electronic_devices` holds exactly when the full-body cascade found something. A frame fails only when detection raises, or when the library is consulted and raises |
| `FaceDetectionViews.TimerStartsOnFirstAbsentFrame` | backend/face_detection/views.py:39-47 | a face-less frame with no timer running starts the timer at now and is not flagged |
| `FaceDetectionViews.TimerHeldWhileAbsent` | backend/face_detection/views.py:45-49 | a face-less frame with the timer running keeps the timer and is flagged exactly when `.seconds` of the elapsed time reaches the threshold |
| `FaceDetectionViews.FaceClearsTimer` | backend/face_detection/views.py:39-51 | a frame with a face clears the timer, even when recognition then raises, and is never flagged |
| `FaceDetectionViews.SamePersonRule` | backend/face_detection/views.py:41-60 | `same_person` is the comparator's verdict on the reference and the first face exactly when a reference is set, the frame has a face and a face location is found; otherwise it is true |
| `FaceDetectionViews.AbsenceFlaggedOnSecondFrame` | backend/face_detection/views.py:18-49 | on a new view, a face-less frame is not flagged and starts the timer. A second face-less frame five seconds later is flagged and leaves the timer where it was |
| `FaceDetectionViews.ReferenceNotSeenByNewView` | backend/face_detection/views.py:18-95 | after the reference endpoint stores an encoding on the class object, a new view of that class still reports `same_person` true for a frame with a different face |

## Left out

- Base64 decoding, `cv2.imdecode`, grayscale conversion, the Haar cascades and the face-recognition library calls: these are foreign library code. Only their outcomes are modelled, as inputs: counts, a first encoding, or a raised exception.
- The accuracy of the detectors and of `compare_faces`, and its tolerance: the comparator is an arbitrary function parameter.
- `datetime.now()`: the current time is a parameter in microseconds.
- The exception text of the catch-all handlers: it is library-defined, so it is an input string.
- Request fields that are neither a string nor missing, such as a JSON number or list: only a missing or string value is modelled, and `not data` is read as missing-or-empty.
- The `face_cascade`, `object_cascade` and `reference_image` attributes set in the constructor: the first two are library objects, and `reference_image` is never read or written again.
- Django/DRF plumbing (`APIView`, `Response` objects, the CSRF decorator, URL routing in urls.py): framework configuration with no logic.
- Cross-request and concurrent sharing of view state: Django builds a view instance per request. The model covers a sequence of calls on one view object and the class-level attribute as a separate object; it does not model threads.
- FaceDetectionView.Reference: an unset class attribute reads as None, whereas Python would raise AttributeError if neither attribute existed. That case is never reached, because every instance sets its own attribute in its constructor.
