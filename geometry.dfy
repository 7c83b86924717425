/**
 * The containment test of the monitor: a face detection counts only when its
 * rectangle lies entirely inside the fixed square region of interest, and a
 * frame shows a face "in the box" when at least one of its detections does.
 */
module Geometry {

  /** A detection as the face detector reports it: top-left corner, width and height, in pixels. */
  datatype Rect = Rect(x: int, y: int, w: int, h: int)

  /** A square region: top-left corner and side length, in pixels. */
  datatype Square = Square(x: int, y: int, size: int)

  /** The monitored region: corner (200, 150), side 200. */
  const Box: Square := Square(200, 150, 200)

  /** is_face_in_box: all four edges of `r` within the edges of `box`; touching edges count as inside. */
  predicate IsFaceInBox(r: Rect, box: Square)
  {
    r.x >= box.x && r.y >= box.y && r.x + r.w <= box.x + box.size && r.y + r.h <= box.y + box.size
  }

  /**
   * Point (px, py) lies in the closed rectangle with corners (x, y) and
   * (x + w, y + h). This takes the edges as lines at those coordinates, the same
   * convention the edge test uses; it is not the pixel set x .. x + w - 1.
   */
  predicate Covers(r: Rect, px: int, py: int)
  {
    r.x <= px <= r.x + r.w && r.y <= py <= r.y + r.h
  }

  /** Point (px, py) lies in the closed square `b`, edges included. */
  predicate InSquare(b: Square, px: int, py: int)
  {
    b.x <= px <= b.x + b.size && b.y <= py <= b.y + b.size
  }

  /**
   * For a detection of non-negative size, the edge test is exactly "every point
   * of the closed detection rectangle is a point of the closed region".
   */
  lemma InsideIffEveryPointInside(r: Rect, box: Square)
    requires r.w >= 0 && r.h >= 0
    ensures IsFaceInBox(r, box) <==> forall px, py :: Covers(r, px, py) ==> InSquare(box, px, py)
  {
    if forall px, py :: Covers(r, px, py) ==> InSquare(box, px, py) {
      assert Covers(r, r.x, r.y);
      assert Covers(r, r.x + r.w, r.y + r.h);
    }
  }

  /**
   * The reference detections: (210,160,50,50) is inside, (190,160,50,50) sticks
   * out on the left. The box itself is inside, one a pixel wider is not. And
   * (250,160,-10,50), of negative width, passes although it holds no point.
   */
  lemma ReferenceDetections()
    ensures IsFaceInBox(Rect(210, 160, 50, 50), Box)
    ensures !IsFaceInBox(Rect(190, 160, 50, 50), Box)
    ensures IsFaceInBox(Rect(200, 150, 200, 200), Box)
    ensures !IsFaceInBox(Rect(200, 150, 201, 200), Box)
    ensures IsFaceInBox(Rect(250, 160, -10, 50), Box)
    ensures !exists px, py :: Covers(Rect(250, 160, -10, 50), px, py)
  {
  }

  /**
   * The edge test does not reject rectangles of non-positive size: when neither
   * width nor height is positive, a corner in the region is enough, even when
   * the closed rectangle holds no point at all.
   */
  lemma NegativeSizeAccepted(r: Rect, box: Square)
    requires r.w <= 0 && r.h <= 0 && InSquare(box, r.x, r.y)
    ensures IsFaceInBox(r, box)
    ensures r.w < 0 || r.h < 0 ==> !exists px, py :: Covers(r, px, py)
  {
  }

  /**
   * The per-frame presence flag: some detection of the frame is inside `box`.
   */
  function AnyInBox(faces: seq<Rect>, box: Square): (r: bool)
    ensures r <==> exists i :: 0 <= i < |faces| && IsFaceInBox(faces[i], box)
  {
    if faces == [] then false
    else IsFaceInBox(faces[0], box) || AnyInBox(faces[1..], box)
  }

  /**
   * The loop over the detections of one frame that sets `face_in_box`: it is
   * set exactly when some detection passes the containment test.
   */
  method ScanFaces(faces: seq<Rect>, box: Square) returns (faceInBox: bool)
    ensures faceInBox == AnyInBox(faces, box)
  {
    faceInBox := false;
    for i := 0 to |faces|
      invariant faceInBox <==> exists j :: 0 <= j < i && IsFaceInBox(faces[j], box)
    {
      if IsFaceInBox(faces[i], box) {
        faceInBox := true;
      }
    }
  }

  /**
   * Presence depends only on which detections a frame holds, not on the order
   * the detector lists them in.
   */
  lemma {:induction false} PresenceIgnoresOrder(a: seq<Rect>, b: seq<Rect>, box: Square)
    requires multiset(a) == multiset(b)
    ensures AnyInBox(a, box) == AnyInBox(b, box)
  {
    if AnyInBox(a, box) {
      var i :| 0 <= i < |a| && IsFaceInBox(a[i], box);
      assert a[i] in multiset(b);
      var j :| 0 <= j < |b| && b[j] == a[i];
    }
    if AnyInBox(b, box) {
      var j :| 0 <= j < |b| && IsFaceInBox(b[j], box);
      assert b[j] in multiset(a);
      var i :| 0 <= i < |a| && a[i] == b[j];
    }
  }
}
