/** Reading and writing an attribute of many objects at once. */
module Attributes {
  import opened ObjectData
  import opened Forest
  import opened Storage
  import opened Wrappers
  import opened Cursors

  datatype Attribute =
    | Angle
    | Color
    | FillType
    | FillWidth
    | IsInverted
    | IsPin
    | LineStyle
    | LineDashLength
    | LineDashStyle
    | Visibility

  datatype Value = Number(n: int) | Flag(b: bool) | Stroke(line: LineAttr)

  /** The value whose representation is all zeros. */
  function Zero(attr: Attribute): Value {
    match attr
    case IsInverted => Flag(false)
    case IsPin => Flag(false)
    case Visibility => Flag(false)
    case LineStyle => Stroke(LineAttr(0, 0, 0, 0, 0))
    case _ => Number(0)
  }

  /** Whether a value has the type of an attribute. */
  predicate HasType(attr: Attribute, v: Value) {
    match Zero(attr)
    case Number(_) => v.Number?
    case Flag(_) => v.Flag?
    case Stroke(_) => v.Stroke?
  }

  type Datum = Data<nat, nat>

  // Access to the data of a single object

  function GetLine(d: Datum): Option<LineAttr> {
    match d
    case ArcData(a) => Some(a.line)
    case BoxData(b) => Some(b.line)
    case CircleData(c) => Some(c.line)
    case LineData(l) => Some(l.line)
    case PathData(p) => Some(p.line)
    case _ => None
  }

  function SetLine(d: Datum, line: LineAttr): Option<Datum> {
    match d
    case ArcData(a) => Some(ArcData(a.(line := line)))
    case BoxData(b) => Some(BoxData(b.(line := line)))
    case CircleData(c) => Some(CircleData(c.(line := line)))
    case LineData(l) => Some(LineData(l.(line := line)))
    case PathData(p) => Some(PathData(p.(line := line)))
    case _ => None
  }

  function GetFill(d: Datum): Option<FillAttr> {
    match d
    case BoxData(b) => Some(b.fill)
    case CircleData(c) => Some(c.fill)
    case PathData(p) => Some(p.fill)
    case _ => None
  }

  function SetFill(d: Datum, fill: FillAttr): Option<Datum> {
    match d
    case BoxData(b) => Some(BoxData(b.(fill := fill)))
    case CircleData(c) => Some(CircleData(c.(fill := fill)))
    case PathData(p) => Some(PathData(p.(fill := fill)))
    case _ => None
  }

  function GetColor(d: Datum): Option<Value> {
    match d
    case ArcData(a) => Some(Number(a.color))
    case BoxData(b) => Some(Number(b.color))
    case CircleData(c) => Some(Number(c.color))
    case LineData(l) => Some(Number(l.color))
    case NetData(n) => Some(Number(n.color))
    case PathData(p) => Some(Number(p.color))
    case TextData(t) => Some(Number(t.color))
    case _ => None
  }

  function SetColor(d: Datum, color: int): Option<Datum> {
    match d
    case ArcData(a) => Some(ArcData(a.(color := color)))
    case BoxData(b) => Some(BoxData(b.(color := color)))
    case CircleData(c) => Some(CircleData(c.(color := color)))
    case LineData(l) => Some(LineData(l.(color := color)))
    case NetData(n) => Some(NetData(n.(color := color)))
    case PathData(p) => Some(PathData(p.(color := color)))
    case TextData(t) => Some(TextData(t.(color := color)))
    case _ => None
  }

  function GetAngle(d: Datum): Option<Value> {
    match d
    case ComponentData(c) => Some(Number(c.angle))
    case PictureData(p) => Some(Number(p.angle))
    case TextData(t) => Some(Number(t.angle))
    case _ => None
  }

  function SetAngle(d: Datum, angle: int): Option<Datum> {
    match d
    case ComponentData(c) => Some(ComponentData(c.(angle := angle)))
    case PictureData(p) => Some(PictureData(p.(angle := angle)))
    case TextData(t) => Some(TextData(t.(angle := angle)))
    case _ => None
  }

  /** The value of an attribute, if the type of the object has it. */
  function Get(attr: Attribute, d: Datum): (v: Option<Value>)
    ensures v.Some? ==> HasType(attr, v.value)
  {
    match attr
    case Angle => GetAngle(d)
    case Color => GetColor(d)
    case FillType => if GetFill(d).Some? then Some(Number(GetFill(d).value.kind)) else None
    case FillWidth => if GetFill(d).Some? then Some(Number(GetFill(d).value.width)) else None
    case IsInverted => if d.NetData? then Some(Flag(d.net.isInverted)) else None
    case IsPin => if d.NetData? then Some(Flag(d.net.isPin)) else None
    case LineStyle => if GetLine(d).Some? then Some(Stroke(GetLine(d).value)) else None
    case LineDashLength => if GetLine(d).Some? then Some(Number(GetLine(d).value.dashLength)) else None
    case LineDashStyle => if GetLine(d).Some? then Some(Number(GetLine(d).value.dashStyle)) else None
    case Visibility => if d.TextData? then Some(Flag(d.text.visibility)) else None
  }

  /** The data with another value of an attribute, if the type of the object
      has it. */
  function With(attr: Attribute, d: Datum, v: Value): Option<Datum>
    requires HasType(attr, v)
  {
    match attr
    case Angle => SetAngle(d, v.n)
    case Color => SetColor(d, v.n)
    case FillType => if GetFill(d).Some? then SetFill(d, GetFill(d).value.(kind := v.n)) else None
    case FillWidth => if GetFill(d).Some? then SetFill(d, GetFill(d).value.(width := v.n)) else None
    case IsInverted => if d.NetData? then Some(NetData(d.net.(isInverted := v.b))) else None
    case IsPin => if d.NetData? then Some(NetData(d.net.(isPin := v.b))) else None
    case LineStyle => SetLine(d, v.line)
    case LineDashLength =>
      if GetLine(d).Some? then SetLine(d, GetLine(d).value.(dashLength := v.n)) else None
    case LineDashStyle =>
      if GetLine(d).Some? then SetLine(d, GetLine(d).value.(dashStyle := v.n)) else None
    case Visibility => if d.TextData? then Some(TextData(d.text.(visibility := v.b))) else None
  }

  /** Writing stores the value, is undone by writing the previous value, and
      is possible exactly if reading is. */
  lemma WithStores(attr: Attribute, d: Datum, v: Value)
    requires HasType(attr, v)
    ensures With(attr, d, v).Some? <==> Get(attr, d).Some?
    ensures With(attr, d, v).Some? ==> Get(attr, With(attr, d, v).value) == Some(v)
    ensures With(attr, d, v).Some? ==> With(attr, With(attr, d, v).value, Get(attr, d).value) == Some(d)
  {
  }

  /** Writing one attribute doesn't affect another one, unless one of them is
      part of the other. */
  lemma WithStoresNothingElse(attr: Attribute, d: Datum, v: Value, other: Attribute)
    requires HasType(attr, v) && With(attr, d, v).Some?
    requires attr != other
    requires attr == LineStyle ==> !other.LineDashLength? && !other.LineDashStyle?
    requires other == LineStyle ==> !attr.LineDashLength? && !attr.LineDashStyle?
    ensures Get(other, With(attr, d, v).value) == Get(other, d)
  {
  }

  /** Whether an object gets a new state if it is selected: it has the
      attribute, and its data is still valid with the new value. */
  predicate Applies(attr: Attribute, d: Datum, v: Value)
    requires HasType(attr, v)
  {
    With(attr, d, v).Some? && DataIsValid(With(attr, d, v).value)
  }

  function NewData(attr: Attribute, d: Datum, v: Value): Datum
    requires HasType(attr, v) && Applies(attr, d, v)
  {
    Normalize(With(attr, d, v).value)
  }

  /** When setting an attribute of an object which has it applies. */
  lemma AppliesExactlyIf(attr: Attribute, d: Datum, v: Value)
    requires HasType(attr, v) && DataIsValid(d) && Get(attr, d).Some?
    ensures Applies(attr, d, v) <==>
      match attr
      case Angle => AngleIsValid(v.n)
      case Color => 0 <= v.n < MAX_OBJECT_COLORS
      case FillType => 0 <= v.n < 5
      case FillWidth => v.n >= 0
      case IsInverted => v.b ==> d.net.isPin
      case IsPin => d.net.isInverted ==> v.b
      case LineStyle => LineIsValid(v.line)
      case LineDashLength => v.n >= 0
      case LineDashStyle => 0 <= v.n < 5
      case Visibility => true
  {
  }

  /** Whether an object uses an attribute as it is, so that it survives the
      normalization. */
  predicate Uses(d: Datum, attr: Attribute) {
    match attr
    case FillWidth => GetFill(d).Some? && (GetFill(d).value.kind == 2 || GetFill(d).value.kind == 3)
    case LineDashLength => GetLine(d).Some? && GetLine(d).value.dashStyle !in {0, 1}
    case _ => true
  }

  /** What can be read after a value has been written.  Fields which aren't
      used read as zero. */
  lemma ReadAfterWrite(attr: Attribute, d: Datum, v: Value)
    requires HasType(attr, v) && Applies(attr, d, v) && attr != LineStyle
    ensures Get(attr, NewData(attr, d, v)) == Some(if Uses(d, attr) then v else Zero(attr))
  {
  }

  /** A line style is read as it has been normalized. */
  lemma ReadAfterWriteLine(d: Datum, line: LineAttr)
    requires Applies(LineStyle, d, Stroke(line))
    ensures Get(LineStyle, NewData(LineStyle, d, Stroke(line))) == Some(Stroke(NormalizeLine(line)))
  {
  }

  // Reading

  datatype AttrState = NotAvailable | Consistent | Inconsistent

  /** The values of an attribute which occur in some objects. */
  ghost function ValuesOf(m: map<Id, ObState>, obs: set<Id>, attr: Attribute): set<Value> {
    set ob | ob in obs && ob in m && Get(attr, m[ob].data).Some? :: Get(attr, m[ob].data).value
  }

  lemma ValuesOfOneMore(m: map<Id, ObState>, obs: set<Id>, ob: Id, attr: Attribute)
    requires ob in m
    ensures ValuesOf(m, obs + {ob}, attr) == ValuesOf(m, obs, attr) +
      if Get(attr, m[ob].data).Some? then {Get(attr, m[ob].data).value} else {}
  {
    var more := ValuesOf(m, obs + {ob}, attr);
    var v := Get(attr, m[ob].data);
    assert v.Some? ==> ob in obs + {ob} && v.value in more;
    forall x | x in ValuesOf(m, obs, attr)
      ensures x in more
    {
      var k :| k in obs && k in m && Get(attr, m[k].data).Some? && Get(attr, m[k].data).value == x;
      assert k in obs + {ob};
    }
  }

  /** What is reported about some values: whether there is any, and the value
      itself if there is only one. */
  ghost predicate IsSummary(attr: Attribute, values: set<Value>, state: AttrState, value: Value) {
    match state
    case NotAvailable => values == {} && value == Zero(attr)
    case Consistent => values == {value}
    case Inconsistent => value == Zero(attr) && exists v, w :: v in values && w in values && v != w
  }

  /** Get the value of an attribute for all selected objects which have it. */
  method GetAttr(rev: Revision, sel: set<Id>, attr: Attribute) returns (state: AttrState, value: Value)
    ensures IsSummary(attr, ValuesOf(rev.obstates, sel, attr), state, value)
  {
    var found, result := false, Zero(attr);
    var keys := rev.obstates.Keys;
    ghost var done: set<Id> := {};
    var i, j := Begin(keys), Begin(sel);
    MergeBegins(keys, sel);
    while i.Some? && j.Some?
      invariant InStep(keys, sel, i, j) && done == Common(keys, sel, i)
      invariant IsSummary(attr, ValuesOf(rev.obstates, done, attr), if found then Consistent else NotAvailable, result)
      decreases Ahead(keys, i), Ahead(sel, j)
    {
      hide Common, ValuesOf, Get, IsSummary, Ahead;
      if i.value < j.value {
        MergeSkipsKey(keys, sel, i, j);
        NextIsAhead(keys, i.value);
        i := Next(keys, i.value);
      } else if i.value > j.value {
        MergeSkipsSelected(keys, sel, i, j);
        NextIsAhead(sel, j.value);
        j := Next(sel, j.value);
      } else {
        var v := Get(attr, rev.obstates[i.value].data);
        MergeMeets(keys, sel, i, j);
        NextIsAhead(keys, i.value);
        OneMoreValue(rev.obstates, done, i.value, attr, found, result);
        done := done + {i.value};
        i, j := Next(keys, i.value), Next(sel, j.value);
        if v.None? {
          continue;
        }
        if !found {
          found := true;
          result := v.value;
        } else if v.value != result {
          CommonIsSelected(keys, sel, i);
          InconsistentIsFinal(rev.obstates, done, sel, attr);
          return Inconsistent, Zero(attr);
        }
      }
    }
    MergeEnds(keys, sel, i, j);
    ValuesOfSelected(rev.obstates, sel, attr);
    return if found then Consistent else NotAvailable, result;
  }

  lemma OneMoreValue(m: map<Id, ObState>, obs: set<Id>, ob: Id, attr: Attribute, found: bool, result: Value)
    requires ob in m
    requires IsSummary(attr, ValuesOf(m, obs, attr), if found then Consistent else NotAvailable, result)
    ensures
      var v := Get(attr, m[ob].data);
      var values := ValuesOf(m, obs + {ob}, attr);
      if v.None? then IsSummary(attr, values, if found then Consistent else NotAvailable, result)
      else if found && v.value != result then IsSummary(attr, values, Inconsistent, Zero(attr))
      else IsSummary(attr, values, Consistent, v.value)
  {
    ValuesOfOneMore(m, obs, ob, attr);
    var v := Get(attr, m[ob].data);
    var values := ValuesOf(m, obs + {ob}, attr);
    if v.Some? && found && v.value != result {
      assert v.value in values && result in values;
    }
  }

  lemma InconsistentIsFinal(m: map<Id, ObState>, obs: set<Id>, all: set<Id>, attr: Attribute)
    requires obs <= all
    requires IsSummary(attr, ValuesOf(m, obs, attr), Inconsistent, Zero(attr))
    ensures IsSummary(attr, ValuesOf(m, all, attr), Inconsistent, Zero(attr))
  {
    var v, w :| v in ValuesOf(m, obs, attr) && w in ValuesOf(m, obs, attr) && v != w;
    assert v in ValuesOf(m, all, attr) && w in ValuesOf(m, all, attr);
  }

  lemma CommonIsSelected(keys: set<Id>, sel: set<Id>, i: Cursor)
    ensures Common(keys, sel, i) <= sel
  {
  }

  lemma ValuesOfSelected(m: map<Id, ObState>, sel: set<Id>, attr: Attribute)
    ensures ValuesOf(m, m.Keys * sel, attr) == ValuesOf(m, sel, attr)
  {
    forall x | x in ValuesOf(m, sel, attr)
      ensures x in ValuesOf(m, m.Keys * sel, attr)
    {
      var k :| k in sel && k in m && Get(attr, m[k].data).Some? && Get(attr, m[k].data).value == x;
      assert k in m.Keys * sel;
    }
  }

  /** Select the objects for which an attribute has a certain value. */
  method SelectByAttr(rev: Revision, attr: Attribute, value: Value) returns (r: Option<set<Id>>)
    ensures r.Some? ==> r.value == set ob | ob in rev.obstates && Get(attr, rev.obstates[ob].data) == Some(value)
  {
    var outOfMemory := *;
    if outOfMemory {
      return None;
    }
    var rsel: set<Id> := {};
    var keys := rev.obstates.Keys;
    var i := Begin(keys);
    while i.Some?
      invariant i.Some? ==> i.value in keys
      invariant rsel == set ob | ob in keys && Passed(i, ob) && Get(attr, rev.obstates[ob].data) == Some(value)
      decreases Ahead(keys, i)
    {
      hide Get;
      if Get(attr, rev.obstates[i.value].data) == Some(value) {
        outOfMemory := *;
        if outOfMemory {
          return None;
        }
        rsel := rsel + {i.value};
      }
      NextIsAhead(keys, i.value);
      i := Next(keys, i.value);
    }
    return Some(rsel);
  }
}
