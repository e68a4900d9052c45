/** Face boxes in dynamic_libs/image_framework/src/picture_adapter.cpp: RotateFaceCoordinate (98-149)
    and the checks and the per-face loop of RotateFaceExif (155-173), with `float` taken as exact reals. */
module FaceRotation {
  const FACE_X1 := 0
  const FACE_Y1 := 1
  const FACE_X2 := 2
  const FACE_Y2 := 3
  const FACE_ANGLE_INDEX := 6
  const INFO_COUNT_PER_FACE := 10
  const FACE_NUM_UB := 100

  // ---------------------------------------------------------------------------------------------
  // One box
  // ---------------------------------------------------------------------------------------------

  datatype Box = Box(x1: real, y1: real, x2: real, y2: real, angle: real)

  predicate IsTurn(degree: int) {
    degree == 0 || degree == 90 || degree == 180 || degree == 270
  }

  function Turned(b: Box, degree: int): Box
    requires IsTurn(degree)
  {
    if degree == 90 then Box(1.0 - b.y2, b.x1, 1.0 - b.y1, b.x2, b.angle + 90.0)
    else if degree == 180 then Box(1.0 - b.x2, 1.0 - b.y2, 1.0 - b.x1, 1.0 - b.y1, b.angle + 180.0)
    else if degree == 270 then Box(b.y1, 1.0 - b.x2, b.y2, 1.0 - b.x1, b.angle - 90.0)
    else b
  }

  datatype Point = Point(x: real, y: real)

  /** The picture turns clockwise by quarters: the point (x, y) of the unit square goes to (1 - y, x). */
  function QuarterTurns(p: Point, quarters: nat): Point {
    if quarters == 0 then p
    else var q := QuarterTurns(p, quarters - 1); Point(1.0 - q.y, q.x)
  }

  predicate Contains(b: Box, p: Point) {
    b.x1 <= p.x <= b.x2 && b.y1 <= p.y <= b.y2
  }

  /** The turned box holds exactly the turned points of the box. */
  lemma TurnedHoldsTheTurnedPoints(b: Box, degree: int, p: Point)
    requires IsTurn(degree)
    ensures Contains(Turned(b, degree), QuarterTurns(p, degree / 90)) <==> Contains(b, p)
  {
    assert QuarterTurns(p, 0) == p;
    assert QuarterTurns(p, 1) == Point(1.0 - p.y, p.x);
    assert QuarterTurns(p, 2) == Point(1.0 - p.x, 1.0 - p.y);
    assert QuarterTurns(p, 3) == Point(p.y, 1.0 - p.x);
  }

  /** An ordered box inside the unit square. */
  predicate Proper(b: Box) {
    0.0 <= b.x1 <= b.x2 <= 1.0 && 0.0 <= b.y1 <= b.y2 <= 1.0
  }

  predicate SameCorners(a: Box, b: Box) {
    a == b.(angle := a.angle)
  }

  /** Two turns are one turn by the sum, up to whole rounds in the angle. */
  lemma TurnsAdd(b: Box, d: int, e: int)
    requires IsTurn(d) && IsTurn(e)
    ensures IsTurn((d + e) % 360)
    ensures var twice, once := Turned(Turned(b, d), e), Turned(b, (d + e) % 360);
      && SameCorners(twice, once)
      && (var rounds := twice.angle - once.angle; rounds == 0.0 || rounds == 360.0 || rounds == -360.0)
      && (twice.angle == once.angle <==> (d, e) !in {(90, 180), (180, 90), (180, 180), (270, 270)})
  {
  }

  // ---------------------------------------------------------------------------------------------
  // All records
  // ---------------------------------------------------------------------------------------------

  predicate IsBoxSlot(k: nat) {
    var r := k % INFO_COUNT_PER_FACE;
    r == FACE_X1 || r == FACE_Y1 || r == FACE_X2 || r == FACE_Y2 || r == FACE_ANGLE_INDEX
  }

  function BoxAt(s: seq<real>, st: nat): Box
    requires st + FACE_ANGLE_INDEX < |s|
  {
    Box(s[st + FACE_X1], s[st + FACE_Y1], s[st + FACE_X2], s[st + FACE_Y2], s[st + FACE_ANGLE_INDEX])
  }

  predicate Records(s: seq<real>, faceNum: nat) {
    |s| == faceNum * INFO_COUNT_PER_FACE
  }

  function Face(s: seq<real>, faceNum: nat, i: nat): Box
    requires Records(s, faceNum) && i < faceNum
  {
    BoxAt(s, i * INFO_COUNT_PER_FACE)
  }

  /** r is s with every face turned and every other slot of a record as it was. */
  predicate AllTurned(s: seq<real>, r: seq<real>, faceNum: nat, degree: int)
    requires IsTurn(degree) && Records(s, faceNum)
  {
    && Records(r, faceNum)
    && (forall i :: 0 <= i < faceNum ==> Face(r, faceNum, i) == Turned(Face(s, faceNum, i), degree))
    && (forall k :: 0 <= k < |s| && !IsBoxSlot(k) ==> r[k] == s[k])
  }

  lemma SameRecords(s: seq<real>, r: seq<real>, faceNum: nat)
    requires Records(s, faceNum) && Records(r, faceNum)
    requires forall i :: 0 <= i < faceNum ==> Face(r, faceNum, i) == Face(s, faceNum, i)
    requires forall k :: 0 <= k < |s| && !IsBoxSlot(k) ==> r[k] == s[k]
    ensures r == s
  {
    forall k | 0 <= k < |s|
      ensures r[k] == s[k]
    {
      if IsBoxSlot(k) {
        assert Face(r, faceNum, k / 10) == Face(s, faceNum, k / 10);
      }
    }
  }

  /** Turning by 90 and then by 270, or the other way round, restores the whole array. */
  lemma TurningBackRestores(s: seq<real>, r: seq<real>, q: seq<real>, faceNum: nat, degree: int)
    requires degree == 90 || degree == 270
    requires Records(s, faceNum) && AllTurned(s, r, faceNum, degree) && AllTurned(r, q, faceNum, 360 - degree)
    ensures q == s
  {
    forall i | 0 <= i < faceNum
      ensures Face(q, faceNum, i) == Face(s, faceNum, i)
    {
      assert Face(r, faceNum, i) == Turned(Face(s, faceNum, i), degree);
    }
    SameRecords(s, q, faceNum);
  }

  /** Turning by 90 twice is turning by 180. */
  lemma TwoQuartersAreAHalf(s: seq<real>, r: seq<real>, q: seq<real>, h: seq<real>, faceNum: nat)
    requires Records(s, faceNum) && AllTurned(s, r, faceNum, 90) && AllTurned(r, q, faceNum, 90)
    requires AllTurned(s, h, faceNum, 180)
    ensures q == h
  {
    forall i | 0 <= i < faceNum
      ensures Face(q, faceNum, i) == Face(h, faceNum, i)
    {
      assert Face(r, faceNum, i) == Turned(Face(s, faceNum, i), 90);
    }
    SameRecords(h, q, faceNum);
  }

  /** Two half turns bring every box back but leave each angle a round further, so they restore the
      array exactly when there is no face. */
  lemma TwoHalvesRestoreExactlyWhen(s: seq<real>, r: seq<real>, q: seq<real>, faceNum: nat)
    requires Records(s, faceNum) && AllTurned(s, r, faceNum, 180) && AllTurned(r, q, faceNum, 180)
    ensures forall i :: 0 <= i < faceNum ==>
      Face(q, faceNum, i) == Face(s, faceNum, i).(angle := Face(s, faceNum, i).angle + 360.0)
    ensures q == s <==> faceNum == 0
  {
    forall i | 0 <= i < faceNum
      ensures Face(q, faceNum, i) == Face(s, faceNum, i).(angle := Face(s, faceNum, i).angle + 360.0)
    {
      assert Face(r, faceNum, i) == Turned(Face(s, faceNum, i), 180);
    }
    if faceNum > 0 {
      assert Face(q, faceNum, 0).angle == q[6] && Face(s, faceNum, 0).angle == s[6];
    }
  }

  /** Boxes that are ordered and inside the unit square stay so, and others do not become so. */
  lemma ProperBoxesStayProper(s: seq<real>, r: seq<real>, faceNum: nat, degree: int)
    requires IsTurn(degree) && Records(s, faceNum) && AllTurned(s, r, faceNum, degree)
    ensures forall i :: 0 <= i < faceNum ==> (Proper(Face(r, faceNum, i)) <==> Proper(Face(s, faceNum, i)))
  {
    forall i | 0 <= i < faceNum
      ensures Proper(Face(r, faceNum, i)) <==> Proper(Face(s, faceNum, i))
    {
      assert Face(r, faceNum, i) == Turned(Face(s, faceNum, i), degree);
    }
  }

  // ---------------------------------------------------------------------------------------------
  // The code
  // ---------------------------------------------------------------------------------------------

  method RotateFaceCoordinate(floatValues: array<real>, stIdx: int, degree: int) returns (ok: bool)
    modifies floatValues
    ensures ok <==> 0 <= stIdx && stIdx + FACE_ANGLE_INDEX < floatValues.Length && IsTurn(degree)
    ensures !ok ==> floatValues[..] == old(floatValues[..])
    ensures ok ==> BoxAt(floatValues[..], stIdx) == Turned(BoxAt(old(floatValues[..]), stIdx), degree)
    ensures ok && degree == 90 ==>
      && floatValues[stIdx] == 1.0 - old(floatValues[stIdx + 3]) && floatValues[stIdx + 1] == old(floatValues[stIdx])
      && floatValues[stIdx + 2] == 1.0 - old(floatValues[stIdx + 1])
      && floatValues[stIdx + 3] == old(floatValues[stIdx + 2])
      && floatValues[stIdx + 6] == old(floatValues[stIdx + 6]) + 90.0
    ensures ok && degree == 180 ==>
      && floatValues[stIdx] == 1.0 - old(floatValues[stIdx + 2])
      && floatValues[stIdx + 1] == 1.0 - old(floatValues[stIdx + 3])
      && floatValues[stIdx + 2] == 1.0 - old(floatValues[stIdx])
      && floatValues[stIdx + 3] == 1.0 - old(floatValues[stIdx + 1])
      && floatValues[stIdx + 6] == old(floatValues[stIdx + 6]) + 180.0
    ensures ok && degree == 270 ==>
      && floatValues[stIdx] == old(floatValues[stIdx + 1])
      && floatValues[stIdx + 1] == 1.0 - old(floatValues[stIdx + 2])
      && floatValues[stIdx + 2] == old(floatValues[stIdx + 3])
      && floatValues[stIdx + 3] == 1.0 - old(floatValues[stIdx])
      && floatValues[stIdx + 6] == old(floatValues[stIdx + 6]) - 90.0
    ensures ok && degree == 0 ==> floatValues[..] == old(floatValues[..])
    ensures forall k :: 0 <= k < floatValues.Length && k - stIdx !in {0, 1, 2, 3, 6} ==>
      floatValues[k] == old(floatValues[k])
  {
    if stIdx < 0 {
      return false;
    }
    if floatValues.Length <= stIdx + FACE_ANGLE_INDEX {
      return false;
    }
    var ix1 := floatValues[stIdx + FACE_X1];
    var iy1 := floatValues[stIdx + FACE_Y1];
    var ix2 := floatValues[stIdx + FACE_X2];
    var iy2 := floatValues[stIdx + FACE_Y2];
    var angle := floatValues[stIdx + FACE_ANGLE_INDEX];
    if degree == 90 {
      floatValues[stIdx + FACE_X1] := 1.0 - iy2;
      floatValues[stIdx + FACE_Y1] := ix1;
      floatValues[stIdx + FACE_X2] := 1.0 - iy1;
      floatValues[stIdx + FACE_Y2] := ix2;
      floatValues[stIdx + FACE_ANGLE_INDEX] := angle + 90.0;
    } else if degree == 180 {
      floatValues[stIdx + FACE_X1] := 1.0 - ix2;
      floatValues[stIdx + FACE_Y1] := 1.0 - iy2;
      floatValues[stIdx + FACE_X2] := 1.0 - ix1;
      floatValues[stIdx + FACE_Y2] := 1.0 - iy1;
      floatValues[stIdx + FACE_ANGLE_INDEX] := angle + 180.0;
    } else if degree == 270 {
      floatValues[stIdx + FACE_X1] := iy1;
      floatValues[stIdx + FACE_Y1] := 1.0 - ix2;
      floatValues[stIdx + FACE_X2] := iy2;
      floatValues[stIdx + FACE_Y2] := 1.0 - ix1;
      floatValues[stIdx + FACE_ANGLE_INDEX] := angle - 90.0;
    } else if degree != 0 {
      return false;
    }
    ok := true;
  }

  /** The first i faces are turned, and nothing else has changed. */
  predicate TurnedUpTo(s: seq<real>, r: seq<real>, faceNum: nat, i: nat, degree: int)
    requires Records(s, faceNum) && i <= faceNum && (i > 0 ==> IsTurn(degree))
  {
    && Records(r, faceNum)
    && (forall j :: 0 <= j < i ==> Face(r, faceNum, j) == Turned(Face(s, faceNum, j), degree))
    && (forall k :: 0 <= k < |s| && (k >= i * INFO_COUNT_PER_FACE || !IsBoxSlot(k)) ==> r[k] == s[k])
  }

  lemma OneMoreTurned(s: seq<real>, r: seq<real>, r': seq<real>, faceNum: nat, i: nat, degree: int)
    requires Records(s, faceNum) && i < faceNum && IsTurn(degree) && TurnedUpTo(s, r, faceNum, i, degree)
    requires |r'| == |r| && Face(r', faceNum, i) == Turned(Face(r, faceNum, i), degree)
    requires forall k :: 0 <= k < |r| && k - i * INFO_COUNT_PER_FACE !in {0, 1, 2, 3, 6} ==> r'[k] == r[k]
    ensures TurnedUpTo(s, r', faceNum, i + 1, degree)
  {
    assert Face(r, faceNum, i) == Face(s, faceNum, i);
    forall j | 0 <= j < i
      ensures Face(r', faceNum, j) == Face(r, faceNum, j)
    {
    }
    forall k | 0 <= k < |s| && (k >= (i + 1) * INFO_COUNT_PER_FACE || !IsBoxSlot(k))
      ensures r'[k] == s[k]
    {
      OutsideTheBox(k, i);
    }
  }

  lemma OutsideTheBox(k: nat, i: nat)
    requires k >= (i + 1) * INFO_COUNT_PER_FACE || !IsBoxSlot(k)
    ensures k - i * INFO_COUNT_PER_FACE !in {0, 1, 2, 3, 6}
  {
  }

  /** RotateFaceExif without the text around it: the values are given, and what the source writes out
      are the values left in the array. */
  method RotateFaces(floatValues: array<real>, faceNum: int, degree: int) returns (ok: bool)
    modifies floatValues
    ensures ok <==> 1 <= faceNum <= 100 && floatValues.Length == 10 * faceNum && degree in {0, 90, 180, 270}
    ensures !ok ==> floatValues[..] == old(floatValues[..])
    ensures ok ==> AllTurned(old(floatValues[..]), floatValues[..], faceNum, degree)
  {
    if faceNum == 0 {
      return false;
    }
    if faceNum < 0 || faceNum > FACE_NUM_UB {
      return false;
    }
    if floatValues.Length != faceNum * INFO_COUNT_PER_FACE {
      return false;
    }
    ghost var s := floatValues[..];
    for i := 0 to faceNum
      invariant i > 0 ==> IsTurn(degree)
      invariant TurnedUpTo(s, floatValues[..], faceNum, i, degree)
      invariant i == 0 ==> floatValues[..] == s
    {
      ghost var r := floatValues[..];
      var stIdx := i * INFO_COUNT_PER_FACE;
      var isSucc := RotateFaceCoordinate(floatValues, stIdx, degree);
      if !isSucc {
        return false;
      }
      OneMoreTurned(s, r, floatValues[..], faceNum, i, degree);
    }
    ok := true;
  }
}
