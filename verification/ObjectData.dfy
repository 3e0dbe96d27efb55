/** The data of schematic objects: one constructor per object type, the
    validity predicate of the storage library and the normalization which
    every stored object state undergoes.

    Symbols and pixmaps are opaque to the storage library, so their types are
    parameters; coordinates and lengths are exact integers. */
module ObjectData {

  const MAX_OBJECT_COLORS := 21
  const DEFAULT_COLOR := 3

  datatype LineAttr = LineAttr(
    width: int, capStyle: int, dashStyle: int, dashLength: int, dashSpace: int)

  datatype FillAttr = FillAttr(
    kind: int, width: int, angle0: int, pitch0: int, angle1: int, pitch1: int)

  datatype Arc = Arc(x: int, y: int, radius: int, startangle: int,
                     sweepangle: int, color: int, line: LineAttr)
  datatype Box = Box(x: int, y: int, width: int, height: int,
                     color: int, line: LineAttr, fill: FillAttr)
  datatype Circle = Circle(x: int, y: int, radius: int,
                           color: int, line: LineAttr, fill: FillAttr)
  datatype Component<+S> = Component(x: int, y: int, selectable: bool,
                                     angle: int, mirror: bool, symbol: S)
  datatype Line = Line(x: int, y: int, width: int, height: int,
                       color: int, line: LineAttr)
  datatype Net = Net(x: int, y: int, width: int, height: int, color: int,
                     isBus: bool, isPin: bool, isInverted: bool)
  datatype Path = Path(pathdata: string, color: int, line: LineAttr, fill: FillAttr)
  datatype Picture<+P> = Picture(x: int, y: int, width: int, height: int,
                                 angle: int, mirror: bool, pixmap: P)
  datatype Text = Text(x: int, y: int, color: int, textSize: int,
                       visibility: bool, showNameValue: int, angle: int,
                       alignment: int, text: string)

  datatype Data<+S, +P> =
    | ArcData(arc: Arc)
    | BoxData(box: Box)
    | CircleData(circle: Circle)
    | ComponentData(component: Component<S>)
    | LineData(line: Line)
    | NetData(net: Net)
    | PathData(path: Path)
    | PictureData(picture: Picture<P>)
    | TextData(text: Text)

  /** Only nets and components can have other objects attached to them. */
  predicate CanHaveChildren<S, P>(d: Data<S, P>) {
    d.NetData? || d.ComponentData?
  }

  // Validity of object data

  predicate AngleIsValid(angle: int) {
    angle == 0 || angle == 90 || angle == 180 || angle == 270
  }

  predicate ColorIsValid(color: int) {
    0 <= color < MAX_OBJECT_COLORS
  }

  predicate LineIsValid(line: LineAttr) {
    && line.width >= 0
    && 0 <= line.capStyle < 3
    && 0 <= line.dashStyle < 5
    && line.dashLength >= 0
    && line.dashSpace >= 0
  }

  predicate FillIsValid(fill: FillAttr) {
    && 0 <= fill.kind < 5
    && fill.width >= 0
    && fill.pitch0 >= 0
    && fill.pitch1 >= 0
  }

  predicate DataIsValid<S, P>(d: Data<S, P>) {
    match d
    case ArcData(a) =>
      a.radius >= 0 && ColorIsValid(a.color) && LineIsValid(a.line)
    case BoxData(b) =>
      ColorIsValid(b.color) && LineIsValid(b.line) && FillIsValid(b.fill)
    case CircleData(c) =>
      c.radius >= 0 && ColorIsValid(c.color) && LineIsValid(c.line) && FillIsValid(c.fill)
    case ComponentData(c) =>
      AngleIsValid(c.angle)
    case LineData(l) =>
      ColorIsValid(l.color) && LineIsValid(l.line)
    case NetData(n) =>
      ColorIsValid(n.color) && (n.isPin || !n.isInverted)
    case PathData(p) =>
      ColorIsValid(p.color) && LineIsValid(p.line) && FillIsValid(p.fill)
    case PictureData(p) =>
      AngleIsValid(p.angle)
    case TextData(t) =>
      && ColorIsValid(t.color)
      && t.textSize >= 0
      && 0 <= t.showNameValue < 3
      && AngleIsValid(t.angle)
      && 0 <= t.alignment < 9
  }

  // Normalization: fields which the dash style or the fill type doesn't use
  // are set to zero.

  function NormalizeLine(line: LineAttr): LineAttr {
    line.(dashLength := if line.dashStyle == 0 || line.dashStyle == 1 then 0 else line.dashLength,
          dashSpace := if line.dashStyle == 0 then 0 else line.dashSpace)
  }

  function NormalizeFill(fill: FillAttr): FillAttr {
    var hatched := fill.kind == 2 || fill.kind == 3;
    fill.(width := if hatched then fill.width else 0,
          angle0 := if hatched then fill.angle0 else 0,
          pitch0 := if hatched then fill.pitch0 else 0,
          angle1 := if fill.kind == 2 then fill.angle1 else 0,
          pitch1 := if fill.kind == 2 then fill.pitch1 else 0)
  }

  function Normalize<S, P>(d: Data<S, P>): Data<S, P> {
    match d
    case ArcData(a) => ArcData(a.(line := NormalizeLine(a.line)))
    case BoxData(b) =>
      BoxData(b.(line := NormalizeLine(b.line), fill := NormalizeFill(b.fill)))
    case CircleData(c) =>
      CircleData(c.(line := NormalizeLine(c.line), fill := NormalizeFill(c.fill)))
    case LineData(l) => LineData(l.(line := NormalizeLine(l.line)))
    case PathData(p) =>
      PathData(p.(line := NormalizeLine(p.line), fill := NormalizeFill(p.fill)))
    case ComponentData(_) => d
    case NetData(_) => d
    case PictureData(_) => d
    case TextData(_) => d
  }

  /** What the library guarantees about the data of every stored state. */
  ghost predicate Storable<S, P>(d: Data<S, P>) {
    DataIsValid(d) && Normalize(d) == d
  }

  lemma NormalizeMakesStorable<S, P>(d: Data<S, P>)
    requires DataIsValid(d)
    ensures Storable(Normalize(d))
    ensures Normalize(d).TextData? == d.TextData?
    ensures CanHaveChildren(Normalize(d)) == CanHaveChildren(d)
  {
  }
}
