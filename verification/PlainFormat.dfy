/** Placing the contents of an embedded symbol on a schematic, and taking them
    back off. */
module PlainFormat {
  import opened ObjectData

  /** Where a component is: mirror at the vertical axis if requested, rotate
      counterclockwise about the origin, then move. */
  datatype Placement = Placement(x: int, y: int, angle: int, mirror: bool)

  datatype Point = Point(x: int, y: int)

  // Points

  function Rotate(x: int, y: int, angle: int, mirror: bool): Point
    requires AngleIsValid(angle)
  {
    if !mirror then
      if angle == 0 then Point(x, y)
      else if angle == 90 then Point(-y, x)
      else if angle == 180 then Point(-x, -y)
      else Point(y, -x)
    else
      if angle == 0 then Point(-x, y)
      else if angle == 90 then Point(-y, -x)
      else if angle == 180 then Point(x, -y)
      else Point(y, x)
  }

  function Unrotate(x: int, y: int, angle: int, mirror: bool): Point
    requires AngleIsValid(angle)
  {
    if !mirror then
      if angle == 0 then Point(x, y)
      else if angle == 90 then Point(y, -x)
      else if angle == 180 then Point(-x, -y)
      else Point(-y, x)
    else
      if angle == 0 then Point(-x, y)
      else if angle == 90 then Point(-y, -x)
      else if angle == 180 then Point(x, -y)
      else Point(y, x)
  }

  function Place(x: int, y: int, p: Placement): Point
    requires AngleIsValid(p.angle)
  {
    var r := Rotate(x, y, p.angle, p.mirror);
    Point(r.x + p.x, r.y + p.y)
  }

  function Unplace(x: int, y: int, p: Placement): Point
    requires AngleIsValid(p.angle)
  {
    Unrotate(x - p.x, y - p.y, p.angle, p.mirror)
  }

  // Rectangles

  datatype Rect = Rect(x: int, y: int, width: int, height: int)

  function RotateRect(r: Rect, angle: int, mirror: bool): Rect
    requires AngleIsValid(angle)
  {
    if !mirror then
      if angle == 0 then r
      else if angle == 90 then Rect(-r.y - r.height, r.x, r.height, r.width)
      else if angle == 180 then Rect(-r.x - r.width, -r.y - r.height, r.width, r.height)
      else Rect(r.y, -r.x - r.width, r.height, r.width)
    else
      if angle == 0 then Rect(-r.x - r.width, r.y, r.width, r.height)
      else if angle == 90 then Rect(-r.y - r.height, -r.x - r.width, r.height, r.width)
      else if angle == 180 then Rect(r.x, -r.y - r.height, r.width, r.height)
      else Rect(r.y, r.x, r.height, r.width)
  }

  function UnrotateRect(r: Rect, angle: int, mirror: bool): Rect
    requires AngleIsValid(angle)
  {
    if !mirror then
      if angle == 0 then r
      else if angle == 90 then Rect(r.y, -r.x - r.width, r.height, r.width)
      else if angle == 180 then Rect(-r.x - r.width, -r.y - r.height, r.width, r.height)
      else Rect(-r.y - r.height, r.x, r.height, r.width)
    else
      if angle == 0 then Rect(-r.x - r.width, r.y, r.width, r.height)
      else if angle == 90 then Rect(-r.y - r.height, -r.x - r.width, r.height, r.width)
      else if angle == 180 then Rect(r.x, -r.y - r.height, r.width, r.height)
      else Rect(r.y, r.x, r.height, r.width)
  }

  function PlaceRect(r: Rect, p: Placement): Rect
    requires AngleIsValid(p.angle)
  {
    var s := RotateRect(r, p.angle, p.mirror);
    Rect(s.x + p.x, s.y + p.y, s.width, s.height)
  }

  function UnplaceRect(r: Rect, p: Placement): Rect
    requires AngleIsValid(p.angle)
  {
    UnrotateRect(Rect(r.x - p.x, r.y - p.y, r.width, r.height), p.angle, p.mirror)
  }

  // Angles and text alignment

  function Reduce(angle: int): int {
    angle % 360
  }

  function TurnAngle(angle: int, p: Placement): int {
    if p.mirror then Reduce(p.angle - angle) else Reduce(p.angle + angle)
  }

  function TurnBackAngle(angle: int, p: Placement): int {
    if p.mirror then Reduce(p.angle - angle) else Reduce(angle - p.angle)
  }

  /** The start angle of an arc. */
  function TurnStart(start: int, p: Placement): int {
    Reduce((if p.mirror then 180 - start else start) + p.angle)
  }

  function TurnBackStart(start: int, p: Placement): int {
    Reduce(if p.mirror then 180 - (start - p.angle) else start - p.angle)
  }

  /** The alignment as seen in a mirror; which of its two components changes
      depends on whether the text is vertical. */
  function MirrorAlignment(alignment: int, isVertical: bool): int {
    var vAlign := alignment % 3;
    if isVertical then (alignment - vAlign) + (2 - vAlign)
    else 6 - (alignment - vAlign) + vAlign
  }

  // Objects

  function Transform<S, P>(d: Data<S, P>, p: Placement): Data<S, P>
    requires AngleIsValid(p.angle)
  {
    match d
    case ArcData(a) =>
      var pos := Place(a.x, a.y, p);
      ArcData(a.(x := pos.x, y := pos.y,
                 startangle := TurnStart(a.startangle, p),
                 sweepangle := if p.mirror then -a.sweepangle else a.sweepangle))
    case BoxData(b) =>
      var r := PlaceRect(Rect(b.x, b.y, b.width, b.height), p);
      BoxData(b.(x := r.x, y := r.y, width := r.width, height := r.height))
    case CircleData(c) =>
      var pos := Place(c.x, c.y, p);
      CircleData(c.(x := pos.x, y := pos.y))
    case ComponentData(c) =>
      var pos := Place(c.x, c.y, p);
      ComponentData(c.(x := pos.x, y := pos.y, angle := TurnAngle(c.angle, p), mirror := c.mirror != p.mirror))
    case LineData(l) =>
      var pos, size := Place(l.x, l.y, p), Rotate(l.width, l.height, p.angle, p.mirror);
      LineData(l.(x := pos.x, y := pos.y, width := size.x, height := size.y))
    case NetData(n) =>
      var pos, size := Place(n.x, n.y, p), Rotate(n.width, n.height, p.angle, p.mirror);
      NetData(n.(x := pos.x, y := pos.y, width := size.x, height := size.y))
    case PathData(_) => d
    case PictureData(i) =>
      var r := PlaceRect(Rect(i.x, i.y, i.width, i.height), p);
      PictureData(i.(x := r.x, y := r.y, width := r.width, height := r.height,
                     angle := TurnAngle(i.angle, p), mirror := i.mirror != p.mirror))
    case TextData(t) => TextData(TransformText(t, p))
  }

  function TransformText(t: Text, p: Placement): Text
    requires AngleIsValid(p.angle)
  {
    var pos := Place(t.x, t.y, p);
    t.(x := pos.x, y := pos.y,
       alignment := if p.mirror then MirrorAlignment(t.alignment, t.angle % 180 == 90) else t.alignment,
       angle := Reduce(t.angle + p.angle))
  }

  function Untransform<S, P>(d: Data<S, P>, p: Placement): Data<S, P>
    requires AngleIsValid(p.angle)
  {
    match d
    case ArcData(a) =>
      var pos := Unplace(a.x, a.y, p);
      ArcData(a.(x := pos.x, y := pos.y,
                 startangle := TurnBackStart(a.startangle, p),
                 sweepangle := if p.mirror then -a.sweepangle else a.sweepangle))
    case BoxData(b) =>
      var r := UnplaceRect(Rect(b.x, b.y, b.width, b.height), p);
      BoxData(b.(x := r.x, y := r.y, width := r.width, height := r.height))
    case CircleData(c) =>
      var pos := Unplace(c.x, c.y, p);
      CircleData(c.(x := pos.x, y := pos.y))
    case ComponentData(c) =>
      var pos := Unplace(c.x, c.y, p);
      ComponentData(c.(x := pos.x, y := pos.y, angle := TurnBackAngle(c.angle, p), mirror := c.mirror != p.mirror))
    case LineData(l) =>
      var pos, size := Unplace(l.x, l.y, p), Unrotate(l.width, l.height, p.angle, p.mirror);
      LineData(l.(x := pos.x, y := pos.y, width := size.x, height := size.y))
    case NetData(n) =>
      var pos, size := Unplace(n.x, n.y, p), Unrotate(n.width, n.height, p.angle, p.mirror);
      NetData(n.(x := pos.x, y := pos.y, width := size.x, height := size.y))
    case PathData(_) => d
    case PictureData(i) =>
      var r := UnplaceRect(Rect(i.x, i.y, i.width, i.height), p);
      PictureData(i.(x := r.x, y := r.y, width := r.width, height := r.height,
                     angle := TurnBackAngle(i.angle, p), mirror := i.mirror != p.mirror))
    case TextData(t) => TextData(UntransformText(t, p))
  }

  function UntransformText(t: Text, p: Placement): Text
    requires AngleIsValid(p.angle)
  {
    var pos := Unplace(t.x, t.y, p);
    t.(x := pos.x, y := pos.y,
       alignment := if p.mirror then MirrorAlignment(t.alignment, (t.angle - p.angle) % 180 == 90) else t.alignment,
       angle := Reduce(t.angle - p.angle))
  }

  // Untransforming undoes transforming

  /** The data with the start angle of an arc reduced to the range from 0 to
      359 degrees. */
  function ReduceAngle<S, P>(d: Data<S, P>): Data<S, P> {
    if d.ArcData? then ArcData(d.arc.(startangle := Reduce(d.arc.startangle))) else d
  }

  lemma MirrorAlignmentTwice(alignment: int, isVertical: bool)
    requires 0 <= alignment < 9
    ensures 0 <= MirrorAlignment(alignment, isVertical) < 9
    ensures MirrorAlignment(MirrorAlignment(alignment, isVertical), isVertical) == alignment
  {
  }

  lemma ReduceTwice(x: int, y: int)
    ensures Reduce(Reduce(x) + y) == Reduce(x + y)
    ensures Reduce(y - Reduce(x)) == Reduce(y - x)
  {
    var k := x / 360;
    assert x % 360 == x - 360 * k;
    SameRemainder(x + y, k);
    SameRemainder(y - x, -k);
  }

  lemma {:induction false} SameRemainder(x: int, k: int)
    ensures (x - 360 * k) % 360 == x % 360
    decreases if k < 0 then -k else k
  {
    if k > 0 {
      SameRemainder(x - 360, k - 1);
    } else if k < 0 {
      SameRemainder(x + 360, k + 1);
    }
  }

  lemma StartAngleReturns(start: int, p: Placement)
    ensures TurnBackStart(TurnStart(start, p), p) == Reduce(start)
    ensures TurnStart(TurnBackStart(start, p), p) == Reduce(start)
  {
    hide Reduce;
    if p.mirror {
      ReduceTwice(180 - start + p.angle, 180 + p.angle);
    } else {
      ReduceTwice(start + p.angle, -p.angle);
      ReduceTwice(start - p.angle, p.angle);
    }
  }

  lemma SumIsValid(a: int, b: int)
    requires AngleIsValid(a) && AngleIsValid(b)
    ensures AngleIsValid(Reduce(a + b)) && AngleIsValid(Reduce(a - b))
    ensures Reduce(a) == a
  {
  }

  lemma AngleReturns(angle: int, p: Placement)
    requires AngleIsValid(angle) && AngleIsValid(p.angle)
    ensures TurnBackAngle(TurnAngle(angle, p), p) == angle
    ensures TurnAngle(TurnBackAngle(angle, p), p) == angle
    ensures AngleIsValid(TurnAngle(angle, p)) && AngleIsValid(TurnBackAngle(angle, p))
  {
    hide Reduce, AngleIsValid;
    SumIsValid(p.angle, angle);
    SumIsValid(angle, p.angle);
    if p.mirror {
      ReduceTwice(p.angle - angle, p.angle);
    } else {
      ReduceTwice(p.angle + angle, -p.angle);
      ReduceTwice(angle - p.angle, p.angle);
    }
  }

  lemma PointReturns(x: int, y: int, p: Placement)
    requires AngleIsValid(p.angle)
    ensures (var q := Place(x, y, p); Unplace(q.x, q.y, p)) == Point(x, y)
    ensures (var q := Unplace(x, y, p); Place(q.x, q.y, p)) == Point(x, y)
    ensures (var q := Rotate(x, y, p.angle, p.mirror); Unrotate(q.x, q.y, p.angle, p.mirror)) == Point(x, y)
    ensures (var q := Unrotate(x, y, p.angle, p.mirror); Rotate(q.x, q.y, p.angle, p.mirror)) == Point(x, y)
  {
  }

  lemma RectReturns(r: Rect, p: Placement)
    requires AngleIsValid(p.angle)
    ensures UnplaceRect(PlaceRect(r, p), p) == r
    ensures PlaceRect(UnplaceRect(r, p), p) == r
  {
  }

  lemma TextAngleReturns(angle: int, p: Placement)
    requires AngleIsValid(angle) && AngleIsValid(p.angle)
    ensures Reduce(Reduce(angle + p.angle) - p.angle) == angle
    ensures Reduce(Reduce(angle - p.angle) + p.angle) == angle
    ensures (Reduce(angle + p.angle) - p.angle) % 180 == angle % 180
    ensures Reduce(angle - p.angle) % 180 == (angle - p.angle) % 180
    ensures AngleIsValid(Reduce(angle + p.angle)) && AngleIsValid(Reduce(angle - p.angle))
  {
  }

  lemma UntransformUndoesText(t: Text, p: Placement)
    requires AngleIsValid(p.angle) && AngleIsValid(t.angle) && 0 <= t.alignment < 9
    ensures UntransformText(TransformText(t, p), p) == t
    ensures TransformText(UntransformText(t, p), p) == t
  {
    hide Place, Unplace, MirrorAlignment, AngleIsValid, Reduce;
    PointReturns(t.x, t.y, p);
    TextAngleReturns(t.angle, p);
    MirrorAlignmentTwice(t.alignment, t.angle % 180 == 90);
    MirrorAlignmentTwice(t.alignment, (t.angle - p.angle) % 180 == 90);
  }

  lemma UntransformUndoes<S, P>(d: Data<S, P>, p: Placement)
    requires AngleIsValid(p.angle) && DataIsValid(d)
    ensures Untransform(Transform(d, p), p) == ReduceAngle(d)
    ensures Transform(Untransform(d, p), p) == ReduceAngle(d)
  {
    hide Place, Unplace, Rotate, Unrotate, PlaceRect, UnplaceRect, TurnStart, TurnBackStart, TurnAngle, TurnBackAngle,
      TransformText, UntransformText, Reduce;
    match d
    case ArcData(a) =>
      PointReturns(a.x, a.y, p);
      StartAngleReturns(a.startangle, p);
    case BoxData(b) => RectReturns(Rect(b.x, b.y, b.width, b.height), p);
    case CircleData(c) => PointReturns(c.x, c.y, p);
    case ComponentData(c) =>
      PointReturns(c.x, c.y, p);
      AngleReturns(c.angle, p);
    case LineData(l) =>
      PointReturns(l.x, l.y, p);
      PointReturns(l.width, l.height, p);
    case NetData(n) =>
      PointReturns(n.x, n.y, p);
      PointReturns(n.width, n.height, p);
    case PathData(_) =>
    case PictureData(i) =>
      RectReturns(Rect(i.x, i.y, i.width, i.height), p);
      AngleReturns(i.angle, p);
    case TextData(t) => UntransformUndoesText(t, p);
  }

  /** The exact condition for getting the identical data back. */
  lemma UntransformRestoresExactlyIf<S, P>(d: Data<S, P>, p: Placement)
    requires AngleIsValid(p.angle) && DataIsValid(d)
    ensures Untransform(Transform(d, p), p) == d <==> (d.ArcData? ==> 0 <= d.arc.startangle < 360)
  {
    UntransformUndoes(d, p);
  }

  /** Transformed data can be stored if the original data can. */
  lemma TransformKeepsStorable<S, P>(d: Data<S, P>, p: Placement)
    requires AngleIsValid(p.angle) && Storable(d)
    ensures Storable(Transform(d, p)) && Storable(Untransform(d, p))
    ensures CanHaveChildren(Transform(d, p)) == CanHaveChildren(d)
    ensures Transform(d, p).TextData? == d.TextData?
  {
    hide Place, Unplace, Rotate, Unrotate, PlaceRect, UnplaceRect, TurnStart, TurnBackStart, TurnAngle, TurnBackAngle,
      MirrorAlignment;
    match d
    case ComponentData(c) => AngleReturns(c.angle, p);
    case PictureData(i) => AngleReturns(i.angle, p);
    case TextData(t) =>
      TextAngleReturns(t.angle, p);
      MirrorAlignmentTwice(t.alignment, t.angle % 180 == 90);
      MirrorAlignmentTwice(t.alignment, (t.angle - p.angle) % 180 == 90);
    case _ =>
  }

  // Placements form a group which acts on points and objects

  /** Applying q, then p. */
  function Compose(p: Placement, q: Placement): Placement
    requires AngleIsValid(p.angle)
  {
    var pos := Place(q.x, q.y, p);
    Placement(pos.x, pos.y, TurnAngle(q.angle, p), q.mirror != p.mirror)
  }

  lemma ComposeComposes(p: Placement, q: Placement, x: int, y: int)
    requires AngleIsValid(p.angle) && AngleIsValid(q.angle)
    ensures AngleIsValid(Compose(p, q).angle)
    ensures Place(x, y, Compose(p, q)) == (var r := Place(x, y, q); Place(r.x, r.y, p))
  {
    ComposeRotates(p, q, x, y);
    var r := Rotate(x, y, q.angle, q.mirror);
    RotateIsLinear(r.x, r.y, q.x, q.y, p);
    hide Rotate;
  }

  lemma RotateIsLinear(x: int, y: int, dx: int, dy: int, p: Placement)
    requires AngleIsValid(p.angle)
    ensures
      var r, d := Rotate(x, y, p.angle, p.mirror), Rotate(dx, dy, p.angle, p.mirror);
      Rotate(x + dx, y + dy, p.angle, p.mirror) == Point(r.x + d.x, r.y + d.y)
  {
  }

  lemma ComposeAngles(p: Placement, q: Placement)
    requires AngleIsValid(p.angle) && AngleIsValid(q.angle)
    ensures AngleIsValid(Compose(p, q).angle)
    ensures AngleIsValid(TurnAngle(q.angle, p))
  {
    hide Place;
  }

  lemma ComposeRotates(p: Placement, q: Placement, x: int, y: int)
    requires AngleIsValid(p.angle) && AngleIsValid(q.angle)
    ensures AngleIsValid(Compose(p, q).angle)
    ensures
      var pq := Compose(p, q);
      Rotate(x, y, pq.angle, pq.mirror) ==
        (var r := Rotate(x, y, q.angle, q.mirror); Rotate(r.x, r.y, p.angle, p.mirror))
  {
    ComposeAngles(p, q);
    hide Place;
  }

  function PlacementOf<S>(c: Component<S>): Placement {
    Placement(c.x, c.y, c.angle, c.mirror)
  }

  /** The new placement of a component inside the symbol is the composition of
      the two placements: each point of the inner symbol ends up where it would
      by placing it in the symbol, then placing the result. */
  lemma ComponentIsComposed<S, P>(c: Component<S>, p: Placement, x: int, y: int)
    requires AngleIsValid(p.angle) && AngleIsValid(c.angle)
    ensures
      var d: Data<S, P> := Transform(ComponentData(c), p);
      && d.ComponentData? && AngleIsValid(d.component.angle)
      && Place(x, y, PlacementOf(d.component)) ==
         (var r := Place(x, y, PlacementOf(c)); Place(r.x, r.y, p))
  {
    ComposeComposes(p, PlacementOf(c), x, y);
  }

  /** Both ends of lines and nets are mapped to their images. */
  lemma EndpointsAreMapped<S, P>(d: Data<S, P>, p: Placement)
    requires AngleIsValid(p.angle)
    ensures d.LineData? ==>
      var l, m := d.line, Transform(d, p).line;
      && Point(m.x, m.y) == Place(l.x, l.y, p)
      && Point(m.x + m.width, m.y + m.height) == Place(l.x + l.width, l.y + l.height, p)
    ensures d.NetData? ==>
      var l, m := d.net, Transform(d, p).net;
      && Point(m.x, m.y) == Place(l.x, l.y, p)
      && Point(m.x + m.width, m.y + m.height) == Place(l.x + l.width, l.y + l.height, p)
  {
  }

  predicate Contains(r: Rect, x: int, y: int) {
    r.x <= x <= r.x + r.width && r.y <= y <= r.y + r.height
  }

  /** The placed rectangle consists of exactly the images of the points of the
      rectangle. */
  lemma RectIsMapped(r: Rect, p: Placement, x: int, y: int)
    requires AngleIsValid(p.angle)
    ensures Contains(r, x, y) <==> (var q := Place(x, y, p); Contains(PlaceRect(r, p), q.x, q.y))
    ensures Contains(PlaceRect(r, p), x, y) <==> (var q := Unplace(x, y, p); Contains(r, q.x, q.y))
    ensures (var q := Unplace(x, y, p); Place(q.x, q.y, p)) == Point(x, y)
  {
  }

  lemma RectIsComposed(r: Rect, p: Placement, q: Placement)
    requires AngleIsValid(p.angle) && AngleIsValid(q.angle)
    ensures AngleIsValid(Compose(p, q).angle)
    ensures PlaceRect(r, Compose(p, q)) == PlaceRect(PlaceRect(r, q), p)
  {
    RotateRectIsComposed(r, p, q);
    RotateRectMoves(RotateRect(r, q.angle, q.mirror), q.x, q.y, p);
    hide RotateRect, Rotate;
  }

  lemma RotateRectIsComposed(r: Rect, p: Placement, q: Placement)
    requires AngleIsValid(p.angle) && AngleIsValid(q.angle)
    ensures AngleIsValid(Compose(p, q).angle)
    ensures
      var pq := Compose(p, q);
      RotateRect(r, pq.angle, pq.mirror) == RotateRect(RotateRect(r, q.angle, q.mirror), p.angle, p.mirror)
  {
    ComposeAngles(p, q);
    hide Place;
  }

  lemma RotateRectMoves(r: Rect, dx: int, dy: int, p: Placement)
    requires AngleIsValid(p.angle)
    ensures
      var s, d := RotateRect(r, p.angle, p.mirror), Rotate(dx, dy, p.angle, p.mirror);
      RotateRect(Rect(r.x + dx, r.y + dy, r.width, r.height), p.angle, p.mirror) ==
        Rect(s.x + d.x, s.y + d.y, s.width, s.height)
  {
  }

  /** Placing something twice is the same as placing it once with the composed
      placement.  Texts are an exception: their angle isn't reversed by
      mirroring, so a quarter turn followed by mirroring adds up wrongly. */
  lemma TransformIsAction<S, P>(d: Data<S, P>, p: Placement, q: Placement)
    requires AngleIsValid(p.angle) && AngleIsValid(q.angle) && DataIsValid(d)
    ensures AngleIsValid(Compose(p, q).angle)
    ensures Transform(Transform(d, q), p) == Transform(d, Compose(p, q)) <==>
      (d.TextData? ==> !(p.mirror && (q.angle == 90 || q.angle == 270)))
  {
    ComposeAngles(p, q);
    hide Place, Rotate, PlaceRect, TurnStart, TurnAngle, TransformText;
    match d
    case ArcData(a) =>
      ComposeComposes(p, q, a.x, a.y);
      StartIsComposed(a.startangle, p, q);
    case BoxData(b) => RectIsComposed(Rect(b.x, b.y, b.width, b.height), p, q);
    case CircleData(c) => ComposeComposes(p, q, c.x, c.y);
    case ComponentData(c) =>
      ComposeComposes(p, q, c.x, c.y);
      AngleIsComposed(c.angle, p, q);
    case LineData(l) =>
      ComposeComposes(p, q, l.x, l.y);
      ComposeRotates(p, q, l.width, l.height);
    case NetData(n) =>
      ComposeComposes(p, q, n.x, n.y);
      ComposeRotates(p, q, n.width, n.height);
    case PathData(_) =>
    case PictureData(i) =>
      RectIsComposed(Rect(i.x, i.y, i.width, i.height), p, q);
      AngleIsComposed(i.angle, p, q);
    case TextData(t) => TextIsComposed(t, p, q);
  }

  /** An arc which starts at 400 degrees starts at 40 degrees after being placed
      and taken back. */
  lemma FullTurnIsLost(p: Placement)
    requires AngleIsValid(p.angle)
    ensures
      var line := LineAttr(10, 0, 0, 0, 0);
      var d: Data<(), ()> := ArcData(Arc(0, 0, 100, 400, 90, 3, line));
      Storable(d) && Untransform(Transform(d, p), p) == ArcData(Arc(0, 0, 100, 40, 90, 3, line))
  {
    hide Place, Unplace, Transform, Untransform;
    var d: Data<(), ()> := ArcData(Arc(0, 0, 100, 400, 90, 3, LineAttr(10, 0, 0, 0, 0)));
    UntransformUndoes(d, p);
  }

  /** A text which is turned by a quarter and then mirrored doesn't end up as if
      it had been placed once. */
  lemma TurnedThenMirrored()
    ensures
      var t := Text(0, 0, 3, 10, true, 0, 0, 0, "a");
      var q, p := Placement(0, 0, 90, false), Placement(0, 0, 0, true);
      && TransformText(TransformText(t, q), p) == t.(angle := 90, alignment := 2)
      && Compose(p, q) == Placement(0, 0, 270, true)
      && TransformText(t, Compose(p, q)) == t.(angle := 270, alignment := 6)
  {
    hide Place, MirrorAlignment, Reduce;
    var q, p := Placement(0, 0, 90, false), Placement(0, 0, 0, true);
    OriginStays(q);
    OriginStays(p);
    OriginStays(Placement(0, 0, 270, true));
    QuarterAngles();
  }

  lemma QuarterAngles()
    ensures Reduce(0 + 90) == 90 && Reduce(90 + 0) == 90 && Reduce(0 + 270) == 270 && Reduce(0 - 90) == 270
    ensures MirrorAlignment(0, true) == 2 && MirrorAlignment(0, false) == 6
  {
  }

  lemma OriginStays(p: Placement)
    requires AngleIsValid(p.angle) && p.x == 0 && p.y == 0
    ensures Place(0, 0, p) == Point(0, 0)
  {
  }

  lemma StartIsComposed(start: int, p: Placement, q: Placement)
    requires AngleIsValid(p.angle)
    ensures TurnStart(TurnStart(start, q), p) == TurnStart(start, Compose(p, q))
  {
    hide Place, Reduce;
    var s := if q.mirror then 180 - start else start;
    if p.mirror {
      ReduceTwice(s + q.angle, 180 + p.angle);
      ReduceTwice(p.angle - q.angle, if q.mirror then start else 180 - start);
    } else {
      ReduceTwice(s + q.angle, p.angle);
      ReduceTwice(p.angle + q.angle, s);
    }
  }

  lemma AngleIsComposed(angle: int, p: Placement, q: Placement)
    requires AngleIsValid(p.angle)
    ensures TurnAngle(TurnAngle(angle, q), p) == TurnAngle(angle, Compose(p, q))
  {
    hide Place, Reduce;
    ReduceTwice(if q.mirror then q.angle - angle else q.angle + angle, p.angle);
    if p.mirror {
      ReduceTwice(p.angle - q.angle, if q.mirror then angle else -angle);
    } else {
      ReduceTwice(p.angle + q.angle, if q.mirror then -angle else angle);
    }
  }

  lemma TextIsComposed(t: Text, p: Placement, q: Placement)
    requires AngleIsValid(p.angle) && AngleIsValid(q.angle)
    requires AngleIsValid(t.angle) && 0 <= t.alignment < 9
    ensures AngleIsValid(Compose(p, q).angle)
    ensures TransformText(TransformText(t, q), p) == TransformText(t, Compose(p, q)) <==>
      !(p.mirror && (q.angle == 90 || q.angle == 270))
  {
    hide Place, MirrorAlignment, AngleIsValid, Reduce;
    ComposeComposes(p, q, t.x, t.y);
    TextAngleIsComposed(t.angle, p, q);
    assert q.angle == 0 || q.angle == 90 || q.angle == 180 || q.angle == 270 by {
      AngleCases(q.angle);
    }
    if q.angle == 0 || q.angle == 180 {
      AxisStays(t.angle, q.angle);
    }
    MirrorAlignmentTwice(t.alignment, t.angle % 180 == 90);
  }

  lemma TextAngleIsComposed(angle: int, p: Placement, q: Placement)
    requires AngleIsValid(p.angle) && AngleIsValid(q.angle)
    ensures Reduce(Reduce(angle + q.angle) + p.angle) == Reduce(angle + TurnAngle(q.angle, p)) <==>
      !(p.mirror && (q.angle == 90 || q.angle == 270))
  {
    hide Reduce;
    ReduceTwice(angle + q.angle, p.angle);
    if p.mirror {
      ReduceTwice(p.angle - q.angle, angle);
      var x := angle + p.angle - q.angle;
      HalfTurn(x);
      FullTurn(x);
      FullTurn(x + 180);
    } else {
      ReduceTwice(p.angle + q.angle, angle);
    }
  }

  lemma AngleCases(angle: int)
    requires AngleIsValid(angle)
    ensures angle == 0 || angle == 90 || angle == 180 || angle == 270
  {
  }

  lemma FullTurn(x: int)
    ensures Reduce(x + 360) == Reduce(x)
  {
  }

  lemma AxisStays(angle: int, turn: int)
    requires AngleIsValid(angle) && (turn == 0 || turn == 180)
    ensures Reduce(angle + turn) % 180 == angle % 180
  {
  }

  lemma HalfTurn(x: int)
    ensures Reduce(x + 180) != Reduce(x)
  {
  }

  /** The neutral placement changes nothing. */
  lemma TransformByNothing<S, P>(d: Data<S, P>)
    requires DataIsValid(d)
    ensures Transform(d, Placement(0, 0, 0, false)) == ReduceAngle(d)
  {
  }
}
