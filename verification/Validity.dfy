/** What the validity of object data and its normalization mean for each single
    field. */
module Validity {
  import opened ObjectData

  // Normalization, field by field

  /** Whether a line style is what remains of another one: the width and the
      styles are kept, and lengths are kept if the dash style uses them and zero
      otherwise.  A dotted line has got a space, all other ones which aren't solid
      have got a length, too. */
  ghost predicate IsLineWithUsed(r: LineAttr, l: LineAttr) {
    && r.width == l.width && r.capStyle == l.capStyle && r.dashStyle == l.dashStyle
    && (l.dashStyle == 0 ==> r.dashLength == 0 && r.dashSpace == 0)
    && (l.dashStyle == 1 ==> r.dashLength == 0 && r.dashSpace == l.dashSpace)
    && (l.dashStyle != 0 && l.dashStyle != 1 ==> r.dashLength == l.dashLength && r.dashSpace == l.dashSpace)
  }

  /** The same for a fill style: a mesh has got two hatches, a hatch has got one,
      and all others haven't got any. */
  ghost predicate IsFillWithUsed(r: FillAttr, f: FillAttr) {
    && r.kind == f.kind
    && (f.kind == 2 ==> r == f)
    && (f.kind == 3 ==> r == FillAttr(3, f.width, f.angle0, f.pitch0, 0, 0))
    && (f.kind != 2 && f.kind != 3 ==> r == FillAttr(f.kind, 0, 0, 0, 0, 0))
  }

  /** Only fields which aren't used are cleared, and no other field of any object
      is changed. */
  lemma NormalizeKeepsUsed<S, P>(d: Data<S, P>)
    ensures
      var r := Normalize(d);
      match d
      case ArcData(a) => r.ArcData? && IsLineWithUsed(r.arc.line, a.line) && r.arc == a.(line := r.arc.line)
      case BoxData(b) =>
        && r.BoxData? && IsLineWithUsed(r.box.line, b.line) && IsFillWithUsed(r.box.fill, b.fill)
        && r.box == b.(line := r.box.line, fill := r.box.fill)
      case CircleData(c) =>
        && r.CircleData? && IsLineWithUsed(r.circle.line, c.line) && IsFillWithUsed(r.circle.fill, c.fill)
        && r.circle == c.(line := r.circle.line, fill := r.circle.fill)
      case LineData(l) => r.LineData? && IsLineWithUsed(r.line.line, l.line) && r.line == l.(line := r.line.line)
      case PathData(p) =>
        && r.PathData? && IsLineWithUsed(r.path.line, p.line) && IsFillWithUsed(r.path.fill, p.fill)
        && r.path == p.(line := r.path.line, fill := r.path.fill)
      case ComponentData(_) => r == d
      case NetData(_) => r == d
      case PictureData(_) => r == d
      case TextData(_) => r == d
  {
  }

  /** Which data is stored as it is: that in which nothing is set but what the
      styles use. */
  lemma StorableExactlyIf<S, P>(d: Data<S, P>)
    ensures Storable(d) <==>
      && DataIsValid(d)
      && (d.ArcData? ==> IsLineWithUsed(d.arc.line, d.arc.line))
      && (d.BoxData? ==> IsLineWithUsed(d.box.line, d.box.line) && IsFillWithUsed(d.box.fill, d.box.fill))
      && (d.CircleData? ==>
            IsLineWithUsed(d.circle.line, d.circle.line) && IsFillWithUsed(d.circle.fill, d.circle.fill))
      && (d.LineData? ==> IsLineWithUsed(d.line.line, d.line.line))
      && (d.PathData? ==> IsLineWithUsed(d.path.line, d.path.line) && IsFillWithUsed(d.path.fill, d.path.fill))
  {
  }

  /** A mesh keeps both of its hatches. */
  lemma MeshIsKept<S, P>()
    ensures
      var line, fill := LineAttr(0, 0, 0, 7, 8), FillAttr(2, 10, 45, 100, 135, 50);
      var d: Data<S, P> := BoxData(Box(0, 0, 100, 100, 3, line, fill));
      DataIsValid(d) && Normalize(d) == BoxData(Box(0, 0, 100, 100, 3, LineAttr(0, 0, 0, 0, 0), fill))
  {
  }

  // Validity, field by field

  /** The permitted values of each field of a line style. */
  lemma LineRanges(l: LineAttr, v: int)
    requires LineIsValid(l)
    ensures LineIsValid(l.(width := v)) <==> v >= 0
    ensures LineIsValid(l.(capStyle := v)) <==> v in {0, 1, 2}
    ensures LineIsValid(l.(dashStyle := v)) <==> v in {0, 1, 2, 3, 4}
    ensures LineIsValid(l.(dashLength := v)) <==> v >= 0
    ensures LineIsValid(l.(dashSpace := v)) <==> v >= 0
  {
  }

  lemma FillRanges(f: FillAttr, v: int)
    requires FillIsValid(f)
    ensures FillIsValid(f.(kind := v)) <==> v in {0, 1, 2, 3, 4}
    ensures FillIsValid(f.(width := v)) <==> v >= 0
    ensures FillIsValid(f.(angle0 := v)) && FillIsValid(f.(angle1 := v))
    ensures FillIsValid(f.(pitch0 := v)) <==> v >= 0
    ensures FillIsValid(f.(pitch1 := v)) <==> v >= 0
  {
  }

  ghost predicate IsColor(v: int) {
    0 <= v <= 20
  }

  ghost predicate IsQuarter(v: int) {
    v in {0, 90, 180, 270}
  }

  function TextOf(v: Text): Data<nat, nat> {
    TextData(v)
  }

  /** The permitted values of each field of a text. */
  lemma TextRanges(t: Text, v: int, b: bool, s: string)
    requires DataIsValid(TextOf(t))
    ensures DataIsValid(TextOf(t.(color := v))) <==> IsColor(v)
    ensures DataIsValid(TextOf(t.(textSize := v))) <==> v >= 0
    ensures DataIsValid(TextOf(t.(showNameValue := v))) <==> v in {0, 1, 2}
    ensures DataIsValid(TextOf(t.(angle := v))) <==> IsQuarter(v)
    ensures DataIsValid(TextOf(t.(alignment := v))) <==> v in {0, 1, 2, 3, 4, 5, 6, 7, 8}
    ensures DataIsValid(TextOf(t.(x := v))) && DataIsValid(TextOf(t.(y := v)))
    ensures DataIsValid(TextOf(t.(visibility := b))) && DataIsValid(TextOf(t.(text := s)))
  {
  }

  function NetOf(v: Net): Data<nat, nat> {
    NetData(v)
  }

  /** Only pins can have their active end swapped. */
  lemma NetRanges(n: Net, v: int, b: bool)
    requires DataIsValid(NetOf(n))
    ensures DataIsValid(NetOf(n.(color := v))) <==> IsColor(v)
    ensures DataIsValid(NetOf(n.(isPin := b))) <==> b || !n.isInverted
    ensures DataIsValid(NetOf(n.(isInverted := b))) <==> n.isPin || !b
    ensures DataIsValid(NetOf(n.(isBus := b)))
    ensures DataIsValid(NetOf(n.(x := v))) && DataIsValid(NetOf(n.(y := v)))
    ensures DataIsValid(NetOf(n.(width := v))) && DataIsValid(NetOf(n.(height := v)))
  {
  }

  /** Shapes are valid exactly if their color, their styles and their radius are. */
  lemma ShapeRanges(a: Arc, b: Box, c: Circle, l: Line, p: Path)
    ensures
      var d: Data<nat, nat> := ArcData(a);
      DataIsValid(d) <==> IsColor(a.color) && LineIsValid(a.line) && a.radius >= 0
    ensures
      var d: Data<nat, nat> := BoxData(b);
      DataIsValid(d) <==> IsColor(b.color) && LineIsValid(b.line) && FillIsValid(b.fill)
    ensures
      var d: Data<nat, nat> := CircleData(c);
      DataIsValid(d) <==> IsColor(c.color) && LineIsValid(c.line) && FillIsValid(c.fill) && c.radius >= 0
    ensures
      var d: Data<nat, nat> := LineData(l);
      DataIsValid(d) <==> IsColor(l.color) && LineIsValid(l.line)
    ensures
      var d: Data<nat, nat> := PathData(p);
      DataIsValid(d) <==> IsColor(p.color) && LineIsValid(p.line) && FillIsValid(p.fill)
  {
  }

  /** Components and pictures are valid exactly if they are turned by quarters. */
  lemma PlacedRanges(c: Component<nat>, i: Picture<nat>)
    ensures
      var d: Data<nat, nat> := ComponentData(c);
      DataIsValid(d) <==> IsQuarter(c.angle)
    ensures
      var d: Data<nat, nat> := PictureData(i);
      DataIsValid(d) <==> IsQuarter(i.angle)
  {
  }

  /** There is valid data of each kind; all zeros are valid. */
  lemma ZerosAreValid()
    ensures LineIsValid(LineAttr(0, 0, 0, 0, 0)) && FillIsValid(FillAttr(0, 0, 0, 0, 0, 0))
    ensures DataIsValid(TextOf(Text(0, 0, 0, 0, false, 0, 0, 0, "")))
    ensures DataIsValid(NetOf(Net(0, 0, 0, 0, 0, false, false, false)))
  {
  }
}
