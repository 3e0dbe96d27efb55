/** What placing something means for what is drawn: points are turned about the
    origin by quarters, and arcs, texts and pictures are turned and mirrored in
    the same way as points. */
module PlainGeometry {
  import opened ObjectData
  import opened PlainFormat

  /** A point after a number of quarter turns, counterclockwise. */
  function Turned(q: Point, quarters: nat): Point {
    if quarters == 0 then q
    else
      var r := Turned(q, quarters - 1);
      Point(-r.y, r.x)
  }

  /** A point seen in a mirror which stands on the vertical axis. */
  function Mirrored(q: Point): Point {
    Point(-q.x, q.y)
  }

  function Moved(q: Point, x: int, y: int): Point {
    Point(q.x + x, q.y + y)
  }

  lemma TurnedByQuarters(q: Point)
    ensures Turned(q, 0) == q && Turned(q, 1) == Point(-q.y, q.x)
    ensures Turned(q, 2) == Point(-q.x, -q.y) && Turned(q, 3) == Point(q.y, -q.x)
  {
    assert Turned(q, 1) == Point(-q.y, q.x);
    assert Turned(q, 2) == Point(-q.x, -q.y);
  }

  /** Mirror first, turn then, and move at last. */
  lemma PlaceTurns(x: int, y: int, p: Placement)
    requires AngleIsValid(p.angle)
    ensures
      var q := if p.mirror then Mirrored(Point(x, y)) else Point(x, y);
      Place(x, y, p) == Moved(Turned(q, p.angle / 90), p.x, p.y)
  {
    TurnedByQuarters(if p.mirror then Mirrored(Point(x, y)) else Point(x, y));
  }

  // Arcs

  /** The direction which belongs to a multiple of 90 degrees. */
  function Direction(quarters: nat): Point {
    Turned(Point(1, 0), quarters)
  }

  /** An angle is taken from a quarter direction on, counterclockwise; in a mirror,
      it is taken from the image of this direction on, clockwise. */
  lemma StartIsMapped(quarters: nat, degrees: int, p: Placement) returns (image: nat)
    requires AngleIsValid(p.angle) && quarters < 4
    ensures image < 4
    ensures
      var d := Direction(quarters);
      Direction(image) == Rotate(d.x, d.y, p.angle, p.mirror)
    ensures TurnStart(90 * quarters + degrees, p) == Reduce(90 * image + if p.mirror then -degrees else degrees)
  {
    var k := if p.mirror then 2 - quarters + p.angle / 90 else quarters + p.angle / 90;
    image := k % 4;
    QuarterIsMapped(quarters, p, image);
    hide Rotate, Direction, Turned;
    var rest := if p.mirror then -degrees else degrees;
    SameRemainder(90 * k + rest, k / 4);
    assert k == 4 * (k / 4) + image;
    assert 90 * k + rest - 360 * (k / 4) == 90 * image + rest;
  }

  lemma QuarterIsMapped(quarters: nat, p: Placement, image: nat)
    requires AngleIsValid(p.angle) && quarters < 4
    requires image == (if p.mirror then 2 - quarters + p.angle / 90 else quarters + p.angle / 90) % 4
    ensures
      var d := Direction(quarters);
      Direction(image) == Rotate(d.x, d.y, p.angle, p.mirror)
  {
    TurnedByQuarters(Point(1, 0));
    hide Turned;
  }

  /** The end of an arc is where its end would be by itself. */
  lemma ArcEndIsMapped<S, P>(a: Arc, p: Placement)
    requires AngleIsValid(p.angle)
    ensures
      var d: Data<S, P> := Transform(ArcData(a), p);
      && d.ArcData? && Point(d.arc.x, d.arc.y) == Place(a.x, a.y, p) && d.arc.radius == a.radius
      && d.arc.startangle == TurnStart(a.startangle, p)
      && Reduce(d.arc.startangle + d.arc.sweepangle) == TurnStart(a.startangle + a.sweepangle, p)
  {
    hide Place, Reduce;
    ReduceTwice((if p.mirror then 180 - a.startangle else a.startangle) + p.angle,
                if p.mirror then -a.sweepangle else a.sweepangle);
  }

  // Texts

  /** On which side of a text its position is: the vector from its middle to its
      position, in multiples of half its width and height, turned with it. */
  function Anchor(t: Text): Point
    requires AngleIsValid(t.angle)
  {
    Rotate(t.alignment / 3 - 1, t.alignment % 3 - 1, t.angle, false)
  }

  /** The direction in which a text is read. */
  function ReadingDirection(t: Text): Point
    requires AngleIsValid(t.angle)
  {
    Rotate(1, 0, t.angle, false)
  }

  lemma AlignmentIsMirrored(alignment: int, isVertical: bool)
    requires 0 <= alignment < 9
    ensures
      var r := MirrorAlignment(alignment, isVertical);
      && 0 <= r < 9
      && r / 3 - 1 == (if isVertical then alignment / 3 - 1 else -(alignment / 3 - 1))
      && r % 3 - 1 == (if isVertical then -(alignment % 3 - 1) else alignment % 3 - 1)
  {
  }

  /** A text which has been placed is on the side of its position where it would
      be seen to be, although it is always written such that it can be read: it
      is turned, but not mirrored. */
  lemma TextIsMapped(t: Text, p: Placement)
    requires AngleIsValid(p.angle) && AngleIsValid(t.angle) && 0 <= t.alignment < 9
    ensures
      var r := TransformText(t, p);
      && AngleIsValid(r.angle) && 0 <= r.alignment < 9
      && Point(r.x, r.y) == Place(t.x, t.y, p)
      && Anchor(r) == (var a := Anchor(t); Rotate(a.x, a.y, p.angle, p.mirror))
      && ReadingDirection(r) == (var d := ReadingDirection(t); Rotate(d.x, d.y, p.angle, false))
  {
    hide MirrorAlignment, Rotate, Reduce, Place;
    var h, v := t.alignment / 3 - 1, t.alignment % 3 - 1;
    AlignmentIsMirrored(t.alignment, t.angle % 180 == 90);
    SumIsValid(t.angle, p.angle);
    VectorIsMapped(h, v, t.angle, p);
    VectorIsMapped(1, 0, t.angle, p.(mirror := false));
  }

  /** Turning after mirroring is mirroring after turning back; for a quarter turn
      this amounts to a mirror on the other axis. */
  lemma VectorIsMapped(x: int, y: int, angle: int, p: Placement)
    requires AngleIsValid(p.angle) && AngleIsValid(angle)
    ensures AngleIsValid(Reduce(angle + p.angle))
    ensures
      var q := if !p.mirror then Point(x, y) else if angle % 180 == 90 then Point(x, -y) else Point(-x, y);
      Rotate(q.x, q.y, Reduce(angle + p.angle), false) ==
        (var r := Rotate(x, y, angle, false); Rotate(r.x, r.y, p.angle, p.mirror))
  {
    SumIsValid(angle, p.angle);
    assert Reduce(angle + p.angle) == if angle + p.angle >= 360 then angle + p.angle - 360 else angle + p.angle;
    hide Reduce;
  }

  // Everything else

  /** A picture which has been placed is turned and mirrored in the same way as
      the area which it fills. */
  lemma PictureIsMapped<S, P>(i: Picture<P>, p: Placement, x: int, y: int)
    requires AngleIsValid(p.angle) && AngleIsValid(i.angle)
    ensures
      var d: Data<S, P> := Transform(PictureData(i), p);
      && d.PictureData? && AngleIsValid(d.picture.angle)
      && Rect(d.picture.x, d.picture.y, d.picture.width, d.picture.height)
           == PlaceRect(Rect(i.x, i.y, i.width, i.height), p)
      && Rotate(x, y, d.picture.angle, d.picture.mirror) ==
         (var r := Rotate(x, y, i.angle, i.mirror); Rotate(r.x, r.y, p.angle, p.mirror))
  {
    hide PlaceRect, Place;
    ComposeRotates(p, Placement(0, 0, i.angle, i.mirror), x, y);
  }

  /** Only positions, sizes, angles, alignments and mirror flags change, and
      nothing at all in a path. */
  lemma RestIsKept<S, P>(d: Data<S, P>, p: Placement)
    requires AngleIsValid(p.angle)
    ensures
      var r := Transform(d, p);
      match d
      case ArcData(a) =>
        r.ArcData? &&
        r.arc == a.(x := r.arc.x, y := r.arc.y, startangle := r.arc.startangle, sweepangle := r.arc.sweepangle)
      case BoxData(b) =>
        r.BoxData?
        && Rect(r.box.x, r.box.y, r.box.width, r.box.height) == PlaceRect(Rect(b.x, b.y, b.width, b.height), p)
        && r.box == b.(x := r.box.x, y := r.box.y, width := r.box.width, height := r.box.height)
      case CircleData(c) =>
        r.CircleData? && r.circle == c.(x := r.circle.x, y := r.circle.y)
        && Point(r.circle.x, r.circle.y) == Place(c.x, c.y, p)
      case ComponentData(c) =>
        r.ComponentData? &&
        r.component == c.(x := r.component.x, y := r.component.y, angle := r.component.angle, mirror := r.component.mirror)
      case LineData(l) =>
        r.LineData? && r.line == l.(x := r.line.x, y := r.line.y, width := r.line.width, height := r.line.height)
      case NetData(n) =>
        r.NetData? && r.net == n.(x := r.net.x, y := r.net.y, width := r.net.width, height := r.net.height)
      case PathData(_) => r == d
      case PictureData(i) =>
        r.PictureData? &&
        r.picture == i.(x := r.picture.x, y := r.picture.y, width := r.picture.width, height := r.picture.height,
                        angle := r.picture.angle, mirror := r.picture.mirror)
      case TextData(t) =>
        r.TextData? &&
        r.text == t.(x := r.text.x, y := r.text.y, angle := r.text.angle, alignment := r.text.alignment)
  {
    hide Place, Rotate, PlaceRect, TurnStart, TurnAngle, MirrorAlignment, Reduce;
  }
}
