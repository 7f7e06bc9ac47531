/**
 * The face-matching engine of utils/face_processor.py.
 *
 * Detection (InsightFace or the Haar cascade), the embeddings themselves and
 * the similarity numerics are library calls; here a detection is an integer
 * box with the embedding the library produced for it, and the similarity of
 * a probe with a stored embedding is a given function.  What is modelled is
 * the decision logic around them: which face `get_face_embedding` keeps,
 * which pixels it crops, and which gallery entry `detect_face_realtime`
 * accepts for each detected face.
 */
module FaceProcessor {
  import opened Wrappers
  import opened PyValues
  import StableSort

  type Embedding = seq<real>

  /**
   * A similarity as numpy computes it.  Cosine similarity with a zero-norm
   * vector is NaN, and every comparison with NaN is false.
   */
  datatype Score = Num(value: real) | NaN

  /** `s > bound` under IEEE comparison. */
  predicate Exceeds(s: Score, bound: real) {
    s.Num? && s.value > bound
  }

  datatype Pixel = Bgr(b: bv8, g: bv8, r: bv8)

  /** An H x W x 3 image: `rows` has H rows of `width` pixels each. */
  datatype Image = Image(rows: seq<seq<Pixel>>, width: nat)

  ghost predicate WellFormed(img: Image) {
    forall i :: 0 <= i < |img.rows| ==> |img.rows[i]| == img.width
  }

  /** A bounding box `[x1, y1, x2, y2]` after `astype(int)`. */
  datatype Box = Box(x1: int, y1: int, x2: int, y2: int)

  /** An InsightFace detection: its box and its embedding. */
  datatype ModelFace = ModelFace(bbox: Box, embedding: Embedding)

  /**
   * A Haar-cascade detection `(x, y, w, h)`, with the fallback embedding
   * OpenCV computes from its crop (resized to 50 x 50, flattened, / 255).
   */
  datatype HaarFace = HaarFace(x: nat, y: nat, w: nat, h: nat, embedding: Embedding)

  /** What the active backend's detector returned for one image. */
  datatype Detections = ModelFaces(faces: seq<ModelFace>) | HaarFaces(rects: seq<HaarFace>)

  /** `len(faces)`: how many faces the detector found. */
  function DetectionCount(dets: Detections): nat {
    match dets
    case ModelFaces(faces) => |faces|
    case HaarFaces(rects) => |rects|
  }

  function ModelArea(f: ModelFace): int {
    (f.bbox.x2 - f.bbox.x1) * (f.bbox.y2 - f.bbox.y1)
  }

  function HaarArea(f: HaarFace): int {
    f.w * f.h
  }

  // ---------------------------------------------------------------------------
  // Slicing and cropping
  // ---------------------------------------------------------------------------

  /** Python's normalisation of one slice bound against a length `n`. */
  function SliceBound(i: int, n: nat): (b: nat)
    ensures b <= n
    ensures i < 0 ==> b == Max(0, i + n)
    ensures 0 <= i ==> b == Min(i, n)
  {
    if i < 0 then (if i + n < 0 then 0 else i + n)
    else if i < n then i
    else n
  }

  /** Rows `top..bottom` and columns `left..right` (half-open) of an image. */
  datatype Region = Region(top: nat, bottom: nat, left: nat, right: nat)

  predicate Inside(r: Region, height: nat, width: nat) {
    r.top <= r.bottom <= height && r.left <= r.right <= width
  }

  /** Row `y` of the image lies in the region. */
  predicate HasRow(r: Region, y: int) {
    r.top <= y < r.bottom
  }

  /** Column `x` of the image lies in the region. */
  predicate HasColumn(r: Region, x: int) {
    r.left <= x < r.right
  }

  predicate IsEmpty(r: Region) {
    r.top == r.bottom || r.left == r.right
  }

  /** The region `img[r0:r1, c0:c1]` selects, for an image of the given size. */
  function SliceRegion(r0: int, r1: int, c0: int, c1: int, height: nat, width: nat): (r: Region)
    ensures Inside(r, height, width)
  {
    var top := SliceBound(r0, height);
    var bottom := SliceBound(r1, height);
    var left := SliceBound(c0, width);
    var right := SliceBound(c1, width);
    Region(top, if bottom < top then top else bottom, left, if right < left then left else right)
  }

  /** The crop of an InsightFace box: `image[max(0,y1):min(y2,H), max(0,x1):min(x2,W)]`. */
  function ModelCrop(b: Box, height: nat, width: nat): (r: Region)
    ensures Inside(r, height, width)
  {
    SliceRegion(Max(0, b.y1), Min(b.y2, height), Max(0, b.x1), Min(b.x2, width), height, width)
  }

  /** The crop of a Haar rectangle: `image[y:y+h, x:x+w]`. */
  function HaarCrop(f: HaarFace, height: nat, width: nat): (r: Region)
    ensures Inside(r, height, width)
  {
    SliceRegion(f.y, f.y + f.h, f.x, f.x + f.w, height, width)
  }

  function Max(a: int, b: int): int { if a < b then b else a }
  function Min(a: int, b: int): int { if a < b then a else b }

  /** The pixels of region `r` of `img`; Dafny's bounds checks show it never reads outside. */
  function Crop(img: Image, r: Region): (c: seq<seq<Pixel>>)
    requires WellFormed(img) && Inside(r, |img.rows|, img.width)
    ensures |c| == r.bottom - r.top
    ensures forall i :: 0 <= i < |c| ==> |c[i]| == r.right - r.left
    ensures forall i, j :: 0 <= i < |c| && 0 <= j < r.right - r.left ==>
              c[i][j] == img.rows[r.top + i][r.left + j]
  {
    seq(r.bottom - r.top, i requires 0 <= i < r.bottom - r.top => img.rows[r.top + i][r.left..r.right])
  }

  /**
   * When the box does not end above or left of the image, the crop of an
   * InsightFace box is exactly the part of the box that lies in the image.
   */
  lemma ModelCropIsClampedBox(b: Box, height: nat, width: nat)
    requires b.y2 >= 0 && b.x2 >= 0
    ensures var r := ModelCrop(b, height, width);
      && (forall y: int :: HasRow(r, y) <==> 0 <= y < height && b.y1 <= y < b.y2)
      && (forall x: int :: HasColumn(r, x) <==> 0 <= x < width && b.x1 <= x < b.x2)
  {
  }

  /**
   * A box that ends above the image, by less than its height, gives
   * `min(y2, H)` negative, and Python reads a negative slice stop from the
   * end of the rows: the crop then keeps the top `H + y2` rows, not none.
   */
  lemma ModelCropNegativeStop(b: Box, height: nat, width: nat)
    requires b.y1 <= b.y2 < 0 && -(height as int) < b.y2
    ensures ModelCrop(b, height, width).top == 0
    ensures ModelCrop(b, height, width).bottom == height + b.y2
  {
  }

  /** The crop of a Haar rectangle is the part of the rectangle inside the image. */
  lemma HaarCropIsClampedRect(f: HaarFace, height: nat, width: nat)
    ensures var r := HaarCrop(f, height, width);
      && (forall y: int :: HasRow(r, y) <==> 0 <= y < height && f.y <= y < f.y + f.h)
      && (forall x: int :: HasColumn(r, x) <==> 0 <= x < width && f.x <= x < f.x + f.w)
  {
  }

  // ---------------------------------------------------------------------------
  // get_face_embedding
  // ---------------------------------------------------------------------------

  /** `(face_embedding, face_image, status, message)`. */
  datatype EmbeddingResult = EmbeddingResult(
    embedding: Option<Embedding>,
    faceImage: Option<seq<seq<Pixel>>>,
    status: bool,
    message: string)

  const NoFaceMessage := "No face detected in the image"

  /**
   * `sorted(s, key=key, reverse=True)[0]` when there are several faces,
   * `s[0]` otherwise: the first detected among those of largest area.
   */
  function Largest<T>(s: seq<T>, key: T -> int): (r: T)
    requires s != []
    ensures r == s[StableSort.FirstLargest(s, key)]
    ensures forall j :: 0 <= j < |s| ==> key(s[j]) <= key(r)
  {
    if |s| > 1 then
      StableSort.SortDescHead(s, key);
      StableSort.SortDesc(s, key)[0]
    else s[0]
  }

  /** `get_face_embedding`, for either backend. */
  function GetFaceEmbedding(img: Image, dets: Detections): (r: EmbeddingResult)
    requires WellFormed(img)
    ensures r.status <==> r.embedding.Some?
    ensures r.status <==> r.faceImage.Some?
    ensures !r.status <==> r == EmbeddingResult(None, None, false, NoFaceMessage)
    ensures r.status <==> DetectionCount(dets) > 0
  {
    var height := |img.rows|;
    match dets
    case ModelFaces(faces) =>
      if |faces| == 0 then EmbeddingResult(None, None, false, NoFaceMessage)
      else
        var face := Largest(faces, ModelArea);
        EmbeddingResult(Some(face.embedding), Some(Crop(img, ModelCrop(face.bbox, height, img.width))),
                        true, "Face detected successfully")
    case HaarFaces(rects) =>
      if |rects| == 0 then EmbeddingResult(None, None, false, NoFaceMessage)
      else
        var face := Largest(rects, HaarArea);
        EmbeddingResult(Some(face.embedding), Some(Crop(img, HaarCrop(face, height, img.width))),
                        true, "Face detected (using OpenCV fallback)")
  }

  /**
   * With at least one InsightFace detection, the result is the embedding and
   * the clamped crop of a face of maximal area, the first one detected among
   * equals.
   */
  lemma GetFaceEmbeddingPicksLargestModelFace(img: Image, faces: seq<ModelFace>)
    requires WellFormed(img) && faces != []
    ensures var r := GetFaceEmbedding(img, ModelFaces(faces));
      exists k :: 0 <= k < |faces|
        && (forall j :: 0 <= j < |faces| ==> ModelArea(faces[j]) <= ModelArea(faces[k]))
        && (forall j :: 0 <= j < k ==> ModelArea(faces[j]) < ModelArea(faces[k]))
        && r == EmbeddingResult(Some(faces[k].embedding),
                                Some(Crop(img, ModelCrop(faces[k].bbox, |img.rows|, img.width))),
                                true, "Face detected successfully")
  {
    var k := StableSort.FirstLargest(faces, ModelArea);
    assert Largest(faces, ModelArea) == faces[k];
  }

  /** The same for the Haar fallback, whose area is `w * h`. */
  lemma GetFaceEmbeddingPicksLargestHaarFace(img: Image, rects: seq<HaarFace>)
    requires WellFormed(img) && rects != []
    ensures var r := GetFaceEmbedding(img, HaarFaces(rects));
      exists k :: 0 <= k < |rects|
        && (forall j :: 0 <= j < |rects| ==> rects[j].w * rects[j].h <= rects[k].w * rects[k].h)
        && (forall j :: 0 <= j < k ==> rects[j].w * rects[j].h < rects[k].w * rects[k].h)
        && r == EmbeddingResult(Some(rects[k].embedding),
                                Some(Crop(img, HaarCrop(rects[k], |img.rows|, img.width))),
                                true, "Face detected (using OpenCV fallback)")
  {
    var k := StableSort.FirstLargest(rects, HaarArea);
    assert Largest(rects, HaarArea) == rects[k];
    forall j | 0 <= j < |rects| ensures HaarArea(rects[j]) <= HaarArea(rects[k]) { }
  }

  // ---------------------------------------------------------------------------
  // detect_face_realtime: the gallery scan
  // ---------------------------------------------------------------------------

  /** One element of `get_all_embeddings()`: `(user_id, user_data, embedding)`. */
  datatype GalleryEntry = GalleryEntry(userId: string, userData: PyVal, embedding: Embedding)

  /**
   * How one backend compares a probe with the gallery: its threshold, its
   * similarity (cosine for InsightFace, `1 / (1 + distance)` for the
   * fallback), and whether an entry of another dimension is skipped (the
   * fallback's length test) or reaches numpy, which raises.
   */
  datatype Matcher = Matcher(threshold: real, skipsOtherDims: bool, sim: (Embedding, Embedding) -> Score)

  const ModelThreshold: real := 0.5
  const FallbackThreshold: real := 0.8

  /** numpy's `ValueError` for a dot product of vectors of different lengths. */
  datatype Error = ShapesNotAligned(probeDim: nat, storedDim: nat)

  /** The loop's state: `best_match` as an index into the gallery and `best_score`; or the error raised. */
  datatype ScanState = Scanning(best: Option<nat>, bestScore: real) | Raised(error: Error)

  function ScoreOf(m: Matcher, probe: Embedding, e: GalleryEntry): Score {
    m.sim(probe, e.embedding)
  }

  /** The entry can be accepted: same dimension, similarity strictly above the threshold. */
  predicate Eligible(m: Matcher, probe: Embedding, e: GalleryEntry) {
    |e.embedding| == |probe| && Exceeds(ScoreOf(m, probe, e), m.threshold)
  }

  /** One iteration of the loop over `stored_embeddings`, on entry `i`. */
  function ScanStep(m: Matcher, probe: Embedding, st: ScanState, g: seq<GalleryEntry>, i: nat): ScanState
    requires i < |g|
  {
    match st
    case Raised(_) => st
    case Scanning(_, bestScore) =>
      var e := g[i];
      if |e.embedding| != |probe| then
        if m.skipsOtherDims then st else Raised(ShapesNotAligned(|probe|, |e.embedding|))
      else
        var s := ScoreOf(m, probe, e);
        if Exceeds(s, m.threshold) && s.value > bestScore then Scanning(Some(i), s.value) else st
  }

  /** The state after the first `n` entries, from `best_match = None`, `best_score = -1`. */
  function ScanPrefix(m: Matcher, probe: Embedding, g: seq<GalleryEntry>, n: nat): (st: ScanState)
    requires n <= |g|
    ensures st.Scanning? && st.best.Some? ==> st.best.value < n
  {
    if n == 0 then Scanning(None, -1.0)
    else ScanStep(m, probe, ScanPrefix(m, probe, g, n - 1), g, n - 1)
  }

  /**
   * Entry `k` is the match among the first `n`: it is eligible, no eligible
   * entry scores higher, and every eligible entry before it scores lower.
   */
  ghost predicate IsFirstBest(m: Matcher, probe: Embedding, g: seq<GalleryEntry>, n: nat, k: nat)
    requires n <= |g|
  {
    && k < n
    && Eligible(m, probe, g[k])
    && (forall j :: 0 <= j < n && Eligible(m, probe, g[j]) ==>
          ScoreOf(m, probe, g[j]).value <= ScoreOf(m, probe, g[k]).value)
    && (forall j :: 0 <= j < k && Eligible(m, probe, g[j]) ==>
          ScoreOf(m, probe, g[j]).value < ScoreOf(m, probe, g[k]).value)
  }

  /** Entry `j` is the first among the first `n` whose dimension differs from the probe's. */
  ghost predicate IsFirstMismatch(probe: Embedding, g: seq<GalleryEntry>, n: nat, j: nat)
    requires n <= |g|
  {
    j < n && |g[j].embedding| != |probe| && forall i :: 0 <= i < j ==> |g[i].embedding| == |probe|
  }

  /**
   * What the scan decides.  It raises exactly when numpy meets an entry of
   * another dimension, at the first one.  Otherwise it ends with no match
   * when no entry is eligible, and else with the first of the highest-scoring
   * eligible entries; `best_score` is then that entry's similarity.
   */
  lemma {:induction false} ScanPrefixSpec(m: Matcher, probe: Embedding, g: seq<GalleryEntry>, n: nat)
    requires n <= |g| && m.threshold >= -1.0
    ensures ScanPrefix(m, probe, g, n).Raised? <==>
              !m.skipsOtherDims && exists j :: 0 <= j < n && |g[j].embedding| != |probe|
    ensures match ScanPrefix(m, probe, g, n)
      case Raised(e) =>
        exists j: nat :: IsFirstMismatch(probe, g, n, j) && e == ShapesNotAligned(|probe|, |g[j].embedding|)
      case Scanning(None, b) =>
        b == -1.0 && forall j :: 0 <= j < n ==> !Eligible(m, probe, g[j])
      case Scanning(Some(k), b) =>
        IsFirstBest(m, probe, g, n, k) && b == ScoreOf(m, probe, g[k]).value
  {
    if n > 0 {
      ScanPrefixSpec(m, probe, g, n - 1);
      var prev := ScanPrefix(m, probe, g, n - 1);
      var e := g[n - 1];
      match prev
      case Raised(err) =>
        var j: nat :| IsFirstMismatch(probe, g, n - 1, j) && err == ShapesNotAligned(|probe|, |g[j].embedding|);
        assert IsFirstMismatch(probe, g, n, j);
      case Scanning(best, b) =>
        if |e.embedding| != |probe| && !m.skipsOtherDims {
          assert IsFirstMismatch(probe, g, n, n - 1);
        }
    }
  }

  /** Once the scan has raised, it stays raised. */
  lemma {:induction false} ScanRaisedStays(m: Matcher, probe: Embedding, g: seq<GalleryEntry>, i: nat, n: nat)
    requires i <= n <= |g| && ScanPrefix(m, probe, g, i).Raised?
    ensures ScanPrefix(m, probe, g, n) == ScanPrefix(m, probe, g, i)
    decreases n - i
  {
    if i < n {
      ScanRaisedStays(m, probe, g, i, n - 1);
    }
  }

  /** The loop over `stored_embeddings` that keeps the running best. */
  method BestMatch(m: Matcher, probe: Embedding, g: seq<GalleryEntry>) returns (st: ScanState)
    ensures st == ScanPrefix(m, probe, g, |g|)
  {
    var bestMatch: Option<nat> := None;
    var bestScore: real := -1.0;
    var i := 0;
    while i < |g|
      invariant i <= |g|
      invariant ScanPrefix(m, probe, g, i) == Scanning(bestMatch, bestScore)
    {
      var stored := g[i].embedding;
      if |stored| == |probe| {
        var similarity := m.sim(probe, stored);
        if similarity.Num? && similarity.value > m.threshold && similarity.value > bestScore {
          bestScore := similarity.value;
          bestMatch := Some(i);
        }
      } else if !m.skipsOtherDims {
        st := Raised(ShapesNotAligned(|probe|, |stored|));
        ScanRaisedStays(m, probe, g, i + 1, |g|);
        return;
      }
      i := i + 1;
    }
    st := Scanning(bestMatch, bestScore);
  }

  // ---------------------------------------------------------------------------
  // detect_face_realtime: one outcome per face
  // ---------------------------------------------------------------------------

  /** A `face_data` record: `bbox`, `match`, `user_id`, `confidence`, `recognized`, `face_image`. */
  datatype FaceOutcome = FaceOutcome(
    bbox: Box,
    matched: PyVal,
    userId: Option<string>,
    confidence: real,
    recognized: bool,
    faceImage: Option<seq<seq<Pixel>>>)

  /**
   * A detected face once the backend's geometry is applied: the box it
   * reports, its embedding, the region it crops and the two corners of the
   * rectangle drawn for it.
   */
  datatype Candidate = Candidate(
    bbox: Box, probe: Embedding, crop: Region, corner1: (int, int), corner2: (int, int))

  /** InsightFace: crop and rectangle are clamped to the image, `bbox` is reported as detected. */
  function ModelCandidate(f: ModelFace, height: nat, width: nat): Candidate {
    Candidate(f.bbox, f.embedding, ModelCrop(f.bbox, height, width),
              (Max(0, f.bbox.x1), Max(0, f.bbox.y1)), (Min(f.bbox.x2, width), Min(f.bbox.y2, height)))
  }

  /** Haar: `bbox` is `[x, y, x+w, y+h]`, the rectangle is drawn unclamped. */
  function HaarCandidate(f: HaarFace, height: nat, width: nat): Candidate {
    Candidate(Box(f.x, f.y, f.x + f.w, f.y + f.h), f.embedding, HaarCrop(f, height, width),
              (f.x, f.y), (f.x + f.w, f.y + f.h))
  }

  function Candidates(img: Image, dets: Detections): (cs: seq<Candidate>)
    ensures |cs| == DetectionCount(dets)
    ensures forall i :: 0 <= i < |cs| ==> Inside(cs[i].crop, |img.rows|, img.width)
  {
    match dets
    case ModelFaces(faces) =>
      seq(|faces|, i requires 0 <= i < |faces| => ModelCandidate(faces[i], |img.rows|, img.width))
    case HaarFaces(rects) =>
      seq(|rects|, i requires 0 <= i < |rects| => HaarCandidate(rects[i], |img.rows|, img.width))
  }

  /** The backend's matcher: InsightFace (threshold 0.5, numpy raises on other dimensions) or the fallback (0.8, skips them). */
  function MatcherFor(dets: Detections, sim: (Embedding, Embedding) -> Score): Matcher {
    if dets.ModelFaces? then Matcher(ModelThreshold, false, sim) else Matcher(FallbackThreshold, true, sim)
  }

  /**
   * `encode_image_to_base64(face_crop)`: None for an empty crop.  The JPEG and
   * base64 text is not modelled; the cropped pixels stand for it.
   */
  function EncodedCrop(img: Image, r: Region): (e: Option<seq<seq<Pixel>>>)
    requires WellFormed(img) && Inside(r, |img.rows|, img.width)
    ensures e.None? <==> r.bottom - r.top == 0 || r.right - r.left == 0
    ensures e.Some? ==> e.value == Crop(img, r)
  {
    if IsEmpty(r) then None else Some(Crop(img, r))
  }

  function Unrecognized(img: Image, c: Candidate): FaceOutcome
    requires WellFormed(img) && Inside(c.crop, |img.rows|, img.width)
  {
    FaceOutcome(c.bbox, PyNone, None, 0.0, false, EncodedCrop(img, c.crop))
  }

  /** The outcome for one face; `stored_embeddings` that is None or empty skips the scan. */
  function FaceResult(m: Matcher, img: Image, c: Candidate, gallery: Option<seq<GalleryEntry>>)
    : Result<FaceOutcome, Error>
    requires WellFormed(img) && Inside(c.crop, |img.rows|, img.width)
  {
    if gallery.None? || gallery.value == [] then Success(Unrecognized(img, c))
    else
      var g := gallery.value;
      match ScanPrefix(m, c.probe, g, |g|)
      case Raised(e) => Failure(e)
      case Scanning(None, _) => Success(Unrecognized(img, c))
      case Scanning(Some(k), b) =>
        Success(FaceOutcome(c.bbox, g[k].userData, Some(g[k].userId), b, true, EncodedCrop(img, c.crop)))
  }

  /** The outcomes of the first `n` faces, or the first error raised. */
  function OutcomesPrefix(m: Matcher, img: Image, cs: seq<Candidate>, gallery: Option<seq<GalleryEntry>>, n: nat)
    : (r: Result<seq<FaceOutcome>, Error>)
    requires WellFormed(img) && n <= |cs|
    requires forall i :: 0 <= i < |cs| ==> Inside(cs[i].crop, |img.rows|, img.width)
    ensures r.Success? ==> |r.value| == n
  {
    if n == 0 then Success([])
    else
      match OutcomesPrefix(m, img, cs, gallery, n - 1)
      case Failure(e) => Failure(e)
      case Success(os) =>
        match FaceResult(m, img, cs[n - 1], gallery)
        case Failure(e) => Failure(e)
        case Success(o) => Success(os + [o])
  }

  datatype Color = Green | Red

  /** A `cv2.rectangle` drawn on the copy: green for a recognized face, red otherwise. */
  datatype Mark = Mark(corner1: (int, int), corner2: (int, int), color: Color)

  /** The annotated copy: the caller's pixels and the rectangles drawn over them. */
  datatype Frame = Frame(image: Image, marks: seq<Mark>)

  function MarkFor(c: Candidate, o: FaceOutcome): Mark {
    Mark(c.corner1, c.corner2, if o.recognized then Green else Red)
  }

  function Marks(cs: seq<Candidate>, os: seq<FaceOutcome>): (ms: seq<Mark>)
    requires |os| <= |cs|
  {
    seq(|os|, i requires 0 <= i < |os| => MarkFor(cs[i], os[i]))
  }

  /** Drawing one more face appends its rectangle to the marks drawn so far. */
  lemma MarksAppend(cs: seq<Candidate>, os: seq<FaceOutcome>, o: FaceOutcome)
    requires |os| < |cs|
    ensures Marks(cs, os + [o]) == Marks(cs, os) + [MarkFor(cs[|os|], o)]
  {
    var l := Marks(cs, os + [o]);
    var r := Marks(cs, os) + [MarkFor(cs[|os|], o)];
    assert |l| == |r|;
    forall k | 0 <= k < |l| ensures l[k] == r[k] {
      if k < |os| { assert (os + [o])[k] == os[k]; }
    }
  }

  /** `(image_with_boxes, matches)`, or the error numpy raises. */
  function Recognize(img: Image, dets: Detections, gallery: Option<seq<GalleryEntry>>,
                     sim: (Embedding, Embedding) -> Score): Result<(Frame, seq<FaceOutcome>), Error>
    requires WellFormed(img)
  {
    var cs := Candidates(img, dets);
    match OutcomesPrefix(MatcherFor(dets, sim), img, cs, gallery, |cs|)
    case Failure(e) => Failure(e)
    case Success(os) => Success((Frame(img, Marks(cs, os)), os))
  }

  /** A face that does not raise appends its outcome to those of the faces before it. */
  lemma OutcomesStep(m: Matcher, img: Image, cs: seq<Candidate>, gallery: Option<seq<GalleryEntry>>,
                     i: nat, os: seq<FaceOutcome>, o: FaceOutcome)
    requires WellFormed(img) && i < |cs|
    requires forall j :: 0 <= j < |cs| ==> Inside(cs[j].crop, |img.rows|, img.width)
    requires OutcomesPrefix(m, img, cs, gallery, i) == Success(os)
    requires FaceResult(m, img, cs[i], gallery) == Success(o)
    ensures OutcomesPrefix(m, img, cs, gallery, i + 1) == Success(os + [o])
  {
  }

  /** Once a face has raised, the whole call has raised with that error. */
  lemma {:induction false} OutcomesFailureStays(m: Matcher, img: Image, cs: seq<Candidate>,
                                                gallery: Option<seq<GalleryEntry>>, i: nat, n: nat)
    requires WellFormed(img) && i <= n <= |cs|
    requires forall j :: 0 <= j < |cs| ==> Inside(cs[j].crop, |img.rows|, img.width)
    requires OutcomesPrefix(m, img, cs, gallery, i).Failure?
    ensures OutcomesPrefix(m, img, cs, gallery, n) == OutcomesPrefix(m, img, cs, gallery, i)
    decreases n - i
  {
    if i < n {
      OutcomesFailureStays(m, img, cs, gallery, i, n - 1);
    }
  }

  /** The body of the per-face loop: the gallery scan and the face's outcome. */
  method MatchFace(m: Matcher, img: Image, c: Candidate, gallery: Option<seq<GalleryEntry>>)
    returns (r: Result<FaceOutcome, Error>)
    requires WellFormed(img) && Inside(c.crop, |img.rows|, img.width)
    ensures r == FaceResult(m, img, c, gallery)
  {
    var outcome := Unrecognized(img, c);
    if gallery.Some? && gallery.value != [] {
      var g := gallery.value;
      var st := BestMatch(m, c.probe, g);
      match st
      case Raised(e) =>
        return Failure(e);
      case Scanning(best, bestScore) =>
        if best.Some? {
          var k := best.value;
          outcome := FaceOutcome(c.bbox, g[k].userData, Some(g[k].userId), bestScore, true,
                                 EncodedCrop(img, c.crop));
        }
    }
    return Success(outcome);
  }

  /**
   * One pass of the per-face loop: the outcome of face `i`, which extends the
   * outcomes so far, or the error that the whole call then raises.
   */
  method MatchNext(m: Matcher, img: Image, cs: seq<Candidate>, gallery: Option<seq<GalleryEntry>>,
                   i: nat, matches: seq<FaceOutcome>)
    returns (r: Result<FaceOutcome, Error>)
    requires WellFormed(img) && i < |cs|
    requires forall j :: 0 <= j < |cs| ==> Inside(cs[j].crop, |img.rows|, img.width)
    requires OutcomesPrefix(m, img, cs, gallery, i) == Success(matches)
    ensures r.Success? ==> OutcomesPrefix(m, img, cs, gallery, i + 1) == Success(matches + [r.value])
    ensures r.Failure? ==> OutcomesPrefix(m, img, cs, gallery, |cs|) == Failure(r.error)
  {
    r := MatchFace(m, img, cs[i], gallery);
    if r.Failure? {
      OutcomesFailureStays(m, img, cs, gallery, i + 1, |cs|);
    } else {
      OutcomesStep(m, img, cs, gallery, i, matches, r.value);
    }
  }

  /**
   * `detect_face_realtime`: draws on a copy of the image, and for each
   * detected face in order scans the whole gallery and appends one outcome.
   */
  method DetectFaceRealtime(img: Image, dets: Detections, gallery: Option<seq<GalleryEntry>>,
                            sim: (Embedding, Embedding) -> Score)
    returns (r: Result<(Frame, seq<FaceOutcome>), Error>)
    requires WellFormed(img)
    ensures r == Recognize(img, dets, gallery, sim)
  {
    var display := img;
    var cs := Candidates(img, dets);
    var m := MatcherFor(dets, sim);
    var matches: seq<FaceOutcome> := [];
    var marks: seq<Mark> := [];
    var i := 0;
    while i < |cs|
      invariant i <= |cs|
      invariant OutcomesPrefix(m, img, cs, gallery, i) == Success(matches)
      invariant |matches| == i && marks == Marks(cs, matches)
    {
      var result := MatchNext(m, img, cs, gallery, i, matches);
      if result.Failure? {
        return Failure(result.error);
      }
      var outcome := result.value;
      MarksAppend(cs, matches, outcome);
      marks := marks + [MarkFor(cs[i], outcome)];
      matches := matches + [outcome];
      i := i + 1;
    }
    r := Success((Frame(display, marks), matches));
  }

  // ---------------------------------------------------------------------------
  // What detect_face_realtime promises
  // ---------------------------------------------------------------------------

  /** The gallery holds an entry whose dimension differs from the probe's. */
  ghost predicate HasOtherDim(probe: Embedding, gallery: Option<seq<GalleryEntry>>) {
    gallery.Some? && exists j :: 0 <= j < |gallery.value| && |gallery.value[j].embedding| != |probe|
  }

  /** Some entry of the gallery is eligible for the probe. */
  ghost predicate HasEligible(m: Matcher, probe: Embedding, gallery: Option<seq<GalleryEntry>>) {
    gallery.Some? && exists j :: 0 <= j < |gallery.value| && Eligible(m, probe, gallery.value[j])
  }

  /**
   * One face: it raises only on an entry of another dimension under
   * InsightFace; otherwise it is recognized exactly when some entry is
   * eligible, and then it names the first of the best entries and reports
   * its similarity, which is strictly above the threshold.  An unrecognized
   * face has no match, no user id and confidence 0.
   */
  lemma FaceResultSpec(m: Matcher, img: Image, c: Candidate, gallery: Option<seq<GalleryEntry>>)
    requires WellFormed(img) && Inside(c.crop, |img.rows|, img.width) && m.threshold >= -1.0
    ensures FaceResult(m, img, c, gallery).Failure? <==> !m.skipsOtherDims && HasOtherDim(c.probe, gallery)
    ensures match FaceResult(m, img, c, gallery)
      case Failure(_) => true
      case Success(o) =>
        && o.bbox == c.bbox
        && o.faceImage == EncodedCrop(img, c.crop)
        && (o.recognized <==> o.userId.Some?)
        && (o.recognized <==> HasEligible(m, c.probe, gallery))
        && (!o.recognized ==> o.matched == PyNone && o.confidence == 0.0)
        && (o.recognized ==> o.confidence > m.threshold)
        && (o.recognized ==>
              exists k: nat :: IsFirstBest(m, c.probe, gallery.value, |gallery.value|, k)
                          && o.userId == Some(gallery.value[k].userId)
                          && o.matched == gallery.value[k].userData
                          && o.confidence == ScoreOf(m, c.probe, gallery.value[k]).value)
  {
    if gallery.Some? && gallery.value != [] {
      ScanPrefixSpec(m, c.probe, gallery.value, |gallery.value|);
    }
  }

  /** The outcomes are the faces' outcomes in detection order, unless one face raised. */
  lemma {:induction false} OutcomesPrefixSpec(m: Matcher, img: Image, cs: seq<Candidate>,
                                              gallery: Option<seq<GalleryEntry>>, n: nat)
    requires WellFormed(img) && n <= |cs|
    requires forall i :: 0 <= i < |cs| ==> Inside(cs[i].crop, |img.rows|, img.width)
    ensures OutcomesPrefix(m, img, cs, gallery, n).Success? <==>
              forall i :: 0 <= i < n ==> FaceResult(m, img, cs[i], gallery).Success?
    ensures OutcomesPrefix(m, img, cs, gallery, n).Success? ==>
              forall i :: 0 <= i < n ==>
                OutcomesPrefix(m, img, cs, gallery, n).value[i] == FaceResult(m, img, cs[i], gallery).value
  {
    if n > 0 {
      OutcomesPrefixSpec(m, img, cs, gallery, n - 1);
    }
  }

  /**
   * The whole call: it raises exactly when InsightFace meets a gallery entry
   * whose dimension differs from some face's; otherwise the copy keeps the
   * caller's pixels, there is one outcome and one rectangle per detected
   * face in detection order, each outcome is that face's, and a rectangle is
   * green exactly when its face was recognized.
   */
  lemma RecognizeSpec(img: Image, dets: Detections, gallery: Option<seq<GalleryEntry>>,
                      sim: (Embedding, Embedding) -> Score)
    requires WellFormed(img)
    ensures var cs := Candidates(img, dets);
      Recognize(img, dets, gallery, sim).Failure? <==>
        dets.ModelFaces? && exists i :: 0 <= i < |cs| && HasOtherDim(cs[i].probe, gallery)
    ensures var cs := Candidates(img, dets);
            var m := MatcherFor(dets, sim);
      match Recognize(img, dets, gallery, sim)
      case Failure(_) => true
      case Success(res) =>
        && res.0.image == img
        && |res.1| == |res.0.marks| == DetectionCount(dets)
        && forall i :: 0 <= i < |res.1| ==>
             && FaceResult(m, img, cs[i], gallery) == Success(res.1[i])
             && res.0.marks[i] == Mark(cs[i].corner1, cs[i].corner2, if res.1[i].recognized then Green else Red)
  {
    var cs := Candidates(img, dets);
    var m := MatcherFor(dets, sim);
    OutcomesPrefixSpec(m, img, cs, gallery, |cs|);
    forall i | 0 <= i < |cs|
      ensures FaceResult(m, img, cs[i], gallery).Failure? <==> dets.ModelFaces? && HasOtherDim(cs[i].probe, gallery)
    {
      FaceResultSpec(m, img, cs[i], gallery);
    }
  }

  /** No stored embeddings (None or empty): every face is unrecognized and nothing raises. */
  lemma RecognizeWithoutGallery(img: Image, dets: Detections, gallery: Option<seq<GalleryEntry>>,
                                sim: (Embedding, Embedding) -> Score)
    requires WellFormed(img) && (gallery.None? || gallery.value == [])
    ensures Recognize(img, dets, gallery, sim).Success?
    ensures var os := Recognize(img, dets, gallery, sim).value.1;
      |os| == DetectionCount(dets) &&
      forall i :: 0 <= i < |os| ==> !os[i].recognized && os[i].matched == PyNone && os[i].userId == None
  {
    RecognizeSpec(img, dets, gallery, sim);
    var cs := Candidates(img, dets);
    forall i | 0 <= i < |cs| ensures FaceResult(MatcherFor(dets, sim), img, cs[i], gallery).Success? {
      FaceResultSpec(MatcherFor(dets, sim), img, cs[i], gallery);
    }
  }

  /** No face detected: no outcome, and the copy is returned unannotated. */
  lemma RecognizeNoFaces(img: Image, dets: Detections, gallery: Option<seq<GalleryEntry>>,
                         sim: (Embedding, Embedding) -> Score)
    requires WellFormed(img) && DetectionCount(dets) == 0
    ensures Recognize(img, dets, gallery, sim) == Success((Frame(img, []), []))
  {
    var cs := Candidates(img, dets);
    assert cs == [];
    assert OutcomesPrefix(MatcherFor(dets, sim), img, cs, gallery, 0) == Success([]);
    assert Marks(cs, []) == [];
  }
}
