# Face recognition attendance app — a Dafny model of its core

The application registers people with a face embedding, recognises faces
in camera captures against the registered gallery, keeps a short session
log of recognitions, and shows statistics over the stored recognition
logs. This project models the decision logic of that core and proves what
it guarantees:

- `FaceProcessor` (utils/face_processor.py)
  - `get_face_embedding` keeps the largest detected face, the first one
    among faces of equal area, and crops it with Python slice semantics.
  - `detect_face_realtime` scans the gallery for every detected face. It
    keeps the first entry with the strictly highest similarity above the
    backend's threshold. InsightFace uses 0.5, and numpy raises on an
    embedding of another dimension. The OpenCV fallback uses 0.8 and skips
    such entries. It draws a green or red rectangle and reports one
    outcome per face.
- `Database` (utils/database.py)
  - The users collection as a class over a sequence of user documents.
  - The `id_card_number` uniqueness check of `add_user` and `update_user`.
  - The "not found" answers of `update_user` and `delete_user`.
  - The gallery projection `get_all_embeddings`.
  - The first-above-threshold duplicate scan `check_face_exists`.
- `RealtimeTest` (pages/realtime_test.py)
  - The log entry and the database record produced for each face outcome.
  - The session log: newest first, cut to 50 entries.
  - The capture step of `live_detection_page`.
  - The "Recent Activity" panel of `display_logs`, with its
    `key.replace('_', ' ').title()` formatting.
- `LogsViewer` (components/logs_viewer.py)
  - The single pass over the stored logs: status counts, per-person
    tallies, cleaned entries, and skipped entries.
  - The top-five table.
  - The first twenty entries.
- `StableSort`: Python's stable `sorted(..., reverse=True)` and `xs[:n]`.
- `PyValues`: the dynamically typed values (`None`, `int`, `str`, `dict`)
  that travel through the logs, and `str()` of the ones the code converts.

Similarities are given functions returning a number or NaN, because the
floating-point numerics are not modelled. Detections are given as the
detector's output for the image. Timestamps are given values.

Where the code and its documentation disagree, the model follows the code:

- Under InsightFace a stored embedding of another dimension makes numpy
  raise, and nothing skips it. Only the OpenCV fallback checks the length.
- The registration guard calls `check_face_exists` with threshold 0.6,
  while InsightFace recognition accepts from 0.5. So when every stored
  embedding has the probe's dimension, a face the guard flags is also
  recognised by the InsightFace matcher, without numpy raising
  (`Database.DuplicateIsRecognized`). The reverse does not hold. Nothing
  is promised for the OpenCV fallback, whose score `1/(1+distance)` is not
  tied to the guard's cosine similarity.
- `check_face_exists` returns the first user above the threshold, not the
  most similar one.
- A crop whose box ends above the image, but less than one image height
  above it (`y1 <= y2 < 0` and `-H < y2`), has a negative slice stop.
  Python reads that stop from the end, so the crop keeps the top `H + y2`
  rows instead of none (`FaceProcessor.ModelCropNegativeStop`). The
  columns are sliced on their own, so the crop still has no pixels when
  its column range is empty.
- The logs viewer counts a recognized entry before looking its name up in
  `person_stats`. A dict-valued name raises there, so the entry stays
  counted but is neither tallied nor listed.

## Model

| member | source | states |
|---|---|---|
| PyValues.Get | components/logs_viewer.py:38-40 | `d[k]` is the value of the first item whose key is `k` |
| PyValues.NatToString | components/logs_viewer.py:47-49 | `str()` of a non-negative int is a non-empty string of decimal digits with no leading zero |
| PyValues.NatToStringRoundTrip | components/logs_viewer.py:47-49 | reading the digits `str()` prints gives back the number |
| StableSort.Take | components/logs_viewer.py:98 | `xs[:n]` has `min(n, len(xs))` elements, the first ones of `xs` |
| StableSort.FirstLargest | utils/face_processor.py:57-62 | the index of the first element of maximal key: no element has a larger key, every earlier one a smaller |
| StableSort.SortDescPermutes | components/logs_viewer.py:97 | the descending sort is a permutation of its input |
| StableSort.SortDescSorted | components/logs_viewer.py:97 | the result runs from the largest key to the smallest |
| StableSort.SortDescStable | components/logs_viewer.py:97 | elements of equal key keep their original relative order, even with `reverse=True` |
| StableSort.SortDescHead | utils/face_processor.py:58-62 | the head of the sorted faces is the first face of largest area |
| FaceProcessor.SliceBound | utils/face_processor.py:67-68 | a slice bound `i` on a length `n` becomes `min(i, n)` when `i >= 0` and `max(0, n + i)` when `i < 0`, so it always lies in `0..n` |
| FaceProcessor.SliceRegion | utils/face_processor.py:67-68 | the region a 2-D slice selects always lies inside the image |
| FaceProcessor.ModelCrop | utils/face_processor.py:66-68 | the InsightFace crop lies inside the image |
| FaceProcessor.HaarCrop | utils/face_processor.py:83-84 | the fallback crop lies inside the image |
| FaceProcessor.Crop | utils/face_processor.py:67-68 | the crop has the region's size and pixel `(i, j)` is image pixel `(top + i, left + j)` |
| FaceProcessor.ModelCropIsClampedBox | utils/face_processor.py:66-68 | when the box does not end above or left of the image, the crop holds exactly the rows and columns of the box that lie in the image |
| FaceProcessor.ModelCropNegativeStop | utils/face_processor.py:67-68 | a box with `y1 <= y2 < 0` and `-H < y2` (ending above an image of height `H`) crops the top `H + y2` rows instead of nothing |
| FaceProcessor.HaarCropIsClampedRect | utils/face_processor.py:83-84 | the fallback crop holds exactly the rectangle's rows and columns inside the image |
| FaceProcessor.Largest | utils/face_processor.py:57-62 | sorting by area descending and taking the head picks the first face of maximal area |
| FaceProcessor.GetFaceEmbedding | utils/face_processor.py:34-92 | it succeeds exactly when a face is detected, then with an embedding and a crop; otherwise it returns `(None, None, False, "No face detected in the image")` |
| FaceProcessor.GetFaceEmbeddingPicksLargestModelFace | utils/face_processor.py:48-70 | with InsightFace the result is the embedding and clamped crop of the first face of maximal area, with "Face detected successfully" |
| FaceProcessor.GetFaceEmbeddingPicksLargestHaarFace | utils/face_processor.py:71-92 | with the fallback the result is the embedding and crop of the first rectangle of maximal `w*h`, with the fallback message |
| FaceProcessor.ScanPrefix | utils/face_processor.py:129-141 | the best index found so far lies among the entries already scanned |
| FaceProcessor.ScanPrefixSpec | utils/face_processor.py:129-141 | the scan raises exactly when numpy meets an entry of another dimension, with that entry's shapes; else no match means no entry is strictly above the threshold; else the match is the first of the highest-scoring eligible entries and `best_score` is its similarity |
| FaceProcessor.ScanRaisedStays | utils/face_processor.py:133-141 | once numpy has raised, the rest of the gallery changes nothing |
| FaceProcessor.BestMatch | utils/face_processor.py:128-141 | the loop keeping `best_match`/`best_score` computes the scan's result, including the error |
| FaceProcessor.Candidates | utils/face_processor.py:114-118 | there is one candidate per detected face, each cropping inside the image |
| FaceProcessor.EncodedCrop | utils/face_processor.py:227-230 | the encoded crop is None exactly when the crop has no rows or no columns, and otherwise stands for the crop's pixels |
| FaceProcessor.OutcomesPrefix | utils/face_processor.py:117-168 | a successful run of the first `n` faces gives `n` outcomes |
| FaceProcessor.OutcomesFailureStays | utils/face_processor.py:117-168 | once a face has raised, the call fails with that error |
| FaceProcessor.MatchFace | utils/face_processor.py:118-168 | the body of the per-face loop gives that face's specified outcome, or numpy's error |
| FaceProcessor.OutcomesStep | utils/face_processor.py:117-168 | a face that does not raise appends its outcome after those of the earlier faces |
| FaceProcessor.MatchNext | utils/face_processor.py:117-168 | one pass of the per-face loop either extends the outcomes so far by that face's outcome or yields the error the whole call raises |
| FaceProcessor.MarksAppend | utils/face_processor.py:144-153 | drawing one more face appends its rectangle, green or red, after the rectangles already drawn |
| FaceProcessor.DetectFaceRealtime | utils/face_processor.py:94-224 | the per-face loop computes the specified recognition: the annotated copy and the outcomes, or numpy's error |
| FaceProcessor.FaceResultSpec | utils/face_processor.py:121-168 | a face raises only under InsightFace with a mismatched entry; it is recognized iff some entry is eligible, then with the first best entry's user id, user data and similarity (above the threshold); otherwise with no match and confidence 0 |
| FaceProcessor.OutcomesPrefixSpec | utils/face_processor.py:117-168 | the outcomes are the faces' own outcomes in detection order, and the call succeeds iff every face does |
| FaceProcessor.RecognizeSpec | utils/face_processor.py:107-224 | the call raises iff InsightFace meets a mismatched entry for some face; else the pixels are untouched, one outcome and one rectangle per face, green iff recognized |
| FaceProcessor.RecognizeWithoutGallery | utils/face_processor.py:127 | with no stored embeddings every face is unrecognized and nothing raises |
| FaceProcessor.RecognizeNoFaces | utils/face_processor.py:108-117 | with no face detected the copy comes back unannotated with no outcome |
| Database.IndexOfId | utils/database.py:253-256 | the lookup by id finds a document exactly when one has that id, and it has that id |
| Database.GalleryAppend | utils/database.py:278-293 | the gallery of concatenated collections is the concatenation of their galleries |
| Database.GalleryMembers | utils/database.py:281-291 | the gallery holds exactly the entries of the users that have an embedding |
| Database.DuplicateScanSpec | utils/database.py:407-432 | it reports a user iff that user is above the threshold and every earlier user is passed over; then it reports that user's id, name and similarity, and nothing otherwise |
| Database.DuplicateIsRecognized | pages/registration.py:68-70 | when every stored embedding has the probe's dimension, a face the registration guard flags at 0.6 is eligible for the 0.5 InsightFace matcher against the same users, and `detect_face_realtime` recognizes a face carrying that probe without raising |
| Database.UserTable.constructor | utils/database.py:15-40 | the table attaches to the stored collection, whose ids and card numbers are unique, and holds exactly its documents |
| Database.UserTable.AddUser | utils/database.py:114-140 | it refuses a duplicate `id_card_number` with the "already exists" message and no change; otherwise it appends exactly the new document and keeps ids and cards unique |
| Database.UserTable.UpdateUser | utils/database.py:199-235 | another user's card refuses first, then an unknown id answers "User not found"; otherwise only that user changes, and the embedding and image only when supplied; cards stay unique |
| Database.UserTable.DeleteUser | utils/database.py:253-263 | it answers "not found" for an unknown id; otherwise it removes exactly that document, after which no user has the id |
| Database.UserTable.GetAllEmbeddings | utils/database.py:271-293 | the loop returns the gallery: one `(id, user_data, embedding)` per user with an embedding, in collection order |
| Database.UserTable.CheckFaceExists | utils/database.py:394-432 | the early-returning loop computes the duplicate scan |
| RealtimeTest.EntryFor | pages/realtime_test.py:96-126 | a recognized face logs its user id, payload and confidence; an unknown one logs no id, name None and confidence 0; the entry keeps the face image |
| RealtimeTest.DbLogForSpec | pages/realtime_test.py:128-142 | a recognized face whose payload is a user's `user_data` is stored under the outcome's user id, with that user's plain name and the match's confidence; an unknown face under no id, name None and confidence 0 |
| RealtimeTest.MostRecentSpec | pages/realtime_test.py:146-151 | the session log holds the `min(50, n)` newest entries of its history, newest first |
| RealtimeTest.InsertKeepsMostRecent | pages/realtime_test.py:146-151 | inserting at the front and cutting to 50 keeps the newest 50 |
| RealtimeTest.SessionLog.constructor | pages/realtime_test.py:42-43 | the log starts empty |
| RealtimeTest.SessionLog.Clear | pages/realtime_test.py:61-64 | clearing empties the log and its history |
| RealtimeTest.SessionLog.Insert | pages/realtime_test.py:146-151 | the new entry is first, the log is cut to 50, and it still holds the newest entries of the history |
| RealtimeTest.SessionLog.RecordMatches | pages/realtime_test.py:94-151 | one database record and one session entry per face, in order |
| RealtimeTest.LiveDetection | pages/realtime_test.py:58-151 | nothing is logged without registered users or without a capture, nor when recognition raises; otherwise the database records are the record of each outcome, in order, and the session log gains every outcome |
| RealtimeTest.FormatKey | pages/realtime_test.py:206 | formatting keeps the key's length |
| RealtimeTest.FormatKeyAt | pages/realtime_test.py:206 | underscores become spaces, and a letter is upper case exactly when it follows a non-letter or starts the key |
| RealtimeTest.FormatKeyIdempotent | pages/realtime_test.py:206 | formatting a formatted key changes nothing |
| RealtimeTest.HeaderNameSpec | pages/realtime_test.py:172-188 | the header shows a dict's "name", else its first value, else `{}`; other values are shown as they are |
| RealtimeTest.DetailLines | pages/realtime_test.py:199-207 | there are never more detail lines than the dict has items |
| RealtimeTest.DetailLinesSpec | pages/realtime_test.py:199-207 | the detail lines are exactly the non-"name" items with formatted keys |
| RealtimeTest.DetailLinesAppend | pages/realtime_test.py:199-207 | the lines of a dict are the lines of its items one after another, in item order |
| RealtimeTest.DetailLinesSingle | pages/realtime_test.py:199-207 | one item gives one line with its formatted key and value, unless its key is "name", which gives none |
| RealtimeTest.DisplayLogs | pages/realtime_test.py:158-219 | an empty log shows "No recent activity"; otherwise one card per entry for the first `max_logs` entries, in order |
| LogsViewer.NameOf | components/logs_viewer.py:33-49 | a missing name becomes "Unknown", a string stays as it is, a dict gives its "name" lookup, and any other value becomes its `str()`; so any name that was not a dict ends up a string |
| LogsViewer.CleanOf | components/logs_viewer.py:62-69 | the status and name are their cleaned forms, the image is `image_base64` when truthy, else `face_image`; a missing confidence is 0.0 and a missing timestamp is now, and present ones are kept |
| LogsViewer.BumpSpec | components/logs_viewer.py:56-58 | incrementing a person's tally adds one to that person's count only, adds the person when new, and keeps names distinct |
| LogsViewer.CountOfPositive | components/logs_viewer.py:56-58 | a person is in the tally iff their count is positive |
| LogsViewer.SkippedAtMostRecognized | components/logs_viewer.py:52-71 | only recognized entries can be skipped |
| LogsViewer.TallySpec | components/logs_viewer.py:22-71 | recognized plus unknown is the number of logs; the skipped entries are the recognized ones with a dict name; the clean list keeps the others in order; each hashable name is tallied once per recognized log carrying it; the tallies sum to recognized minus skipped |
| LogsViewer.TallyNames | components/logs_viewer.py:52-58 | a name appears in the tally iff it is hashable and some recognized log carries it |
| LogsViewer.NamesHashable | components/logs_viewer.py:56-58 | every tallied name is hashable |
| LogsViewer.WithKeyTake | components/logs_viewer.py:98 | the equal-count people of a prefix are a prefix of the equal-count people |
| LogsViewer.SortedTallies | components/logs_viewer.py:97 | the sorted tallies are the tallies rearranged, from the largest count down |
| LogsViewer.TopPeopleSpec | components/logs_viewer.py:95-98 | the table has `min(5, people)` rows, sorted by count descending, each from the tally |
| LogsViewer.TopPeopleExcluded | components/logs_viewer.py:97-98 | every person left out has a count no larger than anyone shown |
| LogsViewer.TopPeopleTies | components/logs_viewer.py:97-98 | among equal counts the first people tallied are shown, in tally order |
| LogsViewer.TopPeopleEmpty | components/logs_viewer.py:95-112 | "No recognized people in logs" appears iff no recognized log carries a hashable name |
| LogsViewer.ShowLogsViewer | components/logs_viewer.py:9-116 | no logs shows "No logs available"; otherwise the counts add up to the number of logs, recognized is the number of recognized logs, at most five top people, and the recent list is the first 20 kept entries |
| LogsViewer.Stored | utils/database.py:309-319 | `add_log` stores the record's status, name and confidence with the current time, the encoded image exactly when there is one, and no `face_image`; the viewer then shows that image when its text is not empty |
| LogsViewer.NoneSkipped | components/logs_viewer.py:70-71 | no entry is skipped when none is a recognized entry with a dict name |
| LogsViewer.LiveLogsAreTallied | pages/realtime_test.py:117-142 | the documents stored for a successful recognition against the registered users' gallery are never skipped by the viewer, one cleaned entry each, and their tallies sum to the recognized count |
| LogsViewer.RealtimeLogsAreTallied | pages/realtime_test.py:128-142 | logs the realtime page writes for registered users or unknown faces are never skipped, and their tallies sum to the recognized count |

## Left out

- Face detection (InsightFace, the Haar cascade), `cv2.resize`, colour conversion and the embeddings' numerics: detections and embeddings are inputs, and similarity is a given function returning a number or NaN.
- Floating-point arithmetic: similarities and confidences are reals. The `float(...)` conversions and the `:.2f`/`:.4f` formatting are not modelled.
- FaceProcessor.GetFaceEmbedding: InsightFace sorts on the float box, while the model sorts on the integer box that the crop uses. Two faces can then be ordered differently, even the other way round: the boxes (0, 0, 10.9, 10.9) and (0, 0, 11, 10.5) have float areas 118.81 and 115.5, so InsightFace keeps the first, but integer areas 100 and 110, so the model keeps the second.
- The JPEG and base64 encoding of crops, and `decode_base64_to_image`: a crop's pixels stand for its encoded text, and an empty crop encodes to None.
- Text rendering: the markdown of `display_logs`, the expander titles, `strftime`, `str()` of dicts and of floats or booleans, and the text of the `details` field (kept as a datatype).
- Python's `str.title()` beyond ASCII letters: other characters count as uncased.
- MongoDB plumbing: connection, collection and index creation, `ObjectId` parsing errors, the driver's generated ids (`AddUser` takes the new id as a parameter), timestamps, `get_all_users`, `get_user`, `get_logs` (the viewer takes the documents it returns), `add_log` failures and `add_recognition_log`.
- The order of `find({})` (utils/database.py:278 and :407): the model takes it to be insertion order, and `AddUser` appends at the end. MongoDB does not promise that order. The first match of `check_face_exists` and the tie-break of `detect_face_realtime` depend on it.
- Database.UserTable.AddUser: `add_user` stores whatever embedding it is given, None included; the model always stores one.
- Database.UserTable.DeleteUser: the "User not deleted. Please try again." branch needs a concurrent delete between the lookup and the delete, which a sequential model cannot produce.
- Exceptions caught by the generic `except` clauses, other than numpy's dimension error, the unhashable-name error and the `StopIteration` of an empty name dict (components/logs_viewer.py:43-46, pages/realtime_test.py:185-188), which falls back to the text `{}` (`PyValues.DictName`, `RealtimeTest.HeaderNameSpec`), are not modelled.
- The camera components (utils/camera.py, utils/camera_component.py, utils/camera_handlers.py), app.py and pages/registration.py are not part of this model, except the 0.6 threshold registration passes to `check_face_exists`.
- Streamlit widgets, session state plumbing, charts and the data frames of the logs viewer: the model returns what they would display.
