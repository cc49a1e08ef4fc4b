/**
 * The region detector of the QR renaming tool: the quadrilateral the QR
 * detector reports is reduced to an axis-aligned bounding box, and the page is
 * cropped to that box, or kept whole when nothing usable was detected.
 */
module RegionDetector {
  import opened Wrappers

  /** A corner point reported by the detector, in pixel coordinates. */
  datatype Point = Point(x: int, y: int)

  /** An axis-aligned box, given by its left, top, right and bottom edges. */
  datatype Box = Box(xMin: int, yMin: int, xMax: int, yMax: int)

  /** The image handed to the decoders: the whole page, or the page cropped to a box. */
  datatype Crop = Full | Cropped(box: Box)

  predicate Encloses(b: Box, p: Point) {
    b.xMin <= p.x <= b.xMax && b.yMin <= p.y <= b.yMax
  }

  /** `b` is the bounding box of `ps`: it encloses every point and each edge touches one. */
  ghost predicate IsBoundingBox(b: Box, ps: seq<Point>) {
    && (forall p | p in ps :: Encloses(b, p))
    && (exists p | p in ps :: p.x == b.xMin)
    && (exists p | p in ps :: p.y == b.yMin)
    && (exists p | p in ps :: p.x == b.xMax)
    && (exists p | p in ps :: p.y == b.yMax)
  }

  /** The column of X coordinates of the corners. */
  function Xs(ps: seq<Point>): seq<int> {
    seq(|ps|, i requires 0 <= i < |ps| => ps[i].x)
  }

  /** The column of Y coordinates of the corners. */
  function Ys(ps: seq<Point>): seq<int> {
    seq(|ps|, i requires 0 <= i < |ps| => ps[i].y)
  }

  /** Python's `min` over a non-empty sequence of integers. */
  function Min(s: seq<int>): (m: int)
    requires |s| > 0
    ensures forall i :: 0 <= i < |s| ==> m <= s[i]
    ensures exists i :: 0 <= i < |s| && s[i] == m
  {
    if |s| == 1 then s[0]
    else
      var rest := Min(s[1..]);
      if s[0] <= rest then s[0] else rest
  }

  /** Python's `max` over a non-empty sequence of integers. */
  function Max(s: seq<int>): (m: int)
    requires |s| > 0
    ensures forall i :: 0 <= i < |s| ==> s[i] <= m
    ensures exists i :: 0 <= i < |s| && s[i] == m
  {
    if |s| == 1 then s[0]
    else
      var rest := Max(s[1..]);
      if s[0] >= rest then s[0] else rest
  }

  /**
   * The min and max of the X and Y columns, each taken separately. With no
   * corners at all `min` raises, which the detector's handler turns into "no box".
   */
  function BoundingBox(corners: seq<Point>): (r: Option<Box>)
    ensures r.None? <==> corners == []
    ensures r.Some? ==> IsBoundingBox(r.value, corners)
  {
    if corners == [] then None
    else
      var xs, ys := Xs(corners), Ys(corners);
      var b := Box(Min(xs), Min(ys), Max(xs), Max(ys));
      assert forall i :: 0 <= i < |corners| ==> xs[i] == corners[i].x && ys[i] == corners[i].y;
      assert forall p | p in corners :: Encloses(b, p) by {
        forall p | p in corners ensures Encloses(b, p) {
          var i :| 0 <= i < |corners| && corners[i] == p;
        }
      }
      Some(b)
  }

  /**
   * What the detector step hands on: the crop to the bounding box of the
   * detected corners, or the whole image when the detector found nothing
   * (`None`, which also stands for the detector raising) or gave no corners.
   */
  function DetectAndCrop(detected: Option<seq<Point>>): (r: Crop)
    ensures r.Full? <==> (detected.None? || detected.value == [])
    ensures r.Cropped? ==> IsBoundingBox(r.box, detected.value)
  {
    match detected
    case None => Full
    case Some(corners) =>
      match BoundingBox(corners)
      case None => Full
      case Some(b) => Cropped(b)
  }

  /** The bounding box is determined by its defining property: two boxes that both satisfy it coincide. */
  lemma BoundingBoxUnique(b1: Box, b2: Box, ps: seq<Point>)
    requires IsBoundingBox(b1, ps) && IsBoundingBox(b2, ps)
    ensures b1 == b2
  {
    var p1 :| p1 in ps && p1.x == b1.xMin;
    var p2 :| p2 in ps && p2.x == b2.xMin;
    assert Encloses(b1, p2) && Encloses(b2, p1);
    var q1 :| q1 in ps && q1.y == b1.yMin;
    var q2 :| q2 in ps && q2.y == b2.yMin;
    assert Encloses(b1, q2) && Encloses(b2, q1);
    var r1 :| r1 in ps && r1.x == b1.xMax;
    var r2 :| r2 in ps && r2.x == b2.xMax;
    assert Encloses(b1, r2) && Encloses(b2, r1);
    var s1 :| s1 in ps && s1.y == b1.yMax;
    var s2 :| s2 in ps && s2.y == b2.yMax;
    assert Encloses(b1, s2) && Encloses(b2, s1);
  }

  /** Every box that encloses all corners also encloses the computed box: it is the smallest one. */
  lemma BoundingBoxIsSmallest(corners: seq<Point>, b: Box)
    requires corners != []
    requires forall p | p in corners :: Encloses(b, p)
    ensures var r := BoundingBox(corners).value;
      b.xMin <= r.xMin && b.yMin <= r.yMin && r.xMax <= b.xMax && r.yMax <= b.yMax
  {
    var r := BoundingBox(corners).value;
    var p1 :| p1 in corners && p1.x == r.xMin;
    var p2 :| p2 in corners && p2.y == r.yMin;
    var p3 :| p3 in corners && p3.x == r.xMax;
    var p4 :| p4 in corners && p4.y == r.yMax;
    assert Encloses(b, p1) && Encloses(b, p2) && Encloses(b, p3) && Encloses(b, p4);
  }

  /** The box depends on the corners, not on the order the detector lists them in. */
  lemma BoundingBoxOrderIndependent(ps: seq<Point>, qs: seq<Point>)
    requires multiset(ps) == multiset(qs)
    ensures BoundingBox(ps) == BoundingBox(qs)
  {
    assert forall p :: p in ps <==> p in qs by {
      forall p ensures p in ps <==> p in qs {
        assert p in ps <==> p in multiset(ps);
        assert p in qs <==> p in multiset(qs);
      }
    }
    if ps != [] {
      assert ps[0] in qs;
      BoundingBoxUnique(BoundingBox(ps).value, BoundingBox(qs).value, ps);
    } else {
      assert |multiset(qs)| == 0;
    }
  }

  /** A box with the defining property is the computed bounding box. */
  lemma BoundingBoxCharacterized(ps: seq<Point>, b: Box)
    requires IsBoundingBox(b, ps)
    ensures BoundingBox(ps) == Some(b)
  {
    var p :| p in ps && p.x == b.xMin;
    BoundingBoxUnique(BoundingBox(ps).value, b, ps);
  }

  /** The four corners (10,10), (50,10), (50,60), (10,60) give the box (10,10)-(50,60). */
  lemma SquareCornersExample()
    ensures BoundingBox([Point(10, 10), Point(50, 10), Point(50, 60), Point(10, 60)])
         == Some(Box(10, 10, 50, 60))
  {
    var ps := [Point(10, 10), Point(50, 10), Point(50, 60), Point(10, 60)];
    var b := Box(10, 10, 50, 60);
    assert IsBoundingBox(b, ps) by {
      assert ps[0] in ps && ps[2] in ps;
      forall p | p in ps ensures Encloses(b, p) {
      }
    }
    BoundingBoxCharacterized(ps, b);
  }
}
