/** What the elementary changes of a revision mean for each single object and each
    list, and which field each attribute stands for. */
module Changes {
  import opened ObjectData
  import opened Forest
  import opened Storage
  import opened Wrappers
  import opened Attributes

  // Objects

  /** A new object is the last one in its list; nothing else changes. */
  lemma PutAppends(t: Tree, ob: Id, s: ObState, p: Id, k: Id)
    requires ob !in t.states && ob !in t.parent
    ensures
      var u := Put(t, ob, s, p);
      && ob in u.states && u.states[ob] == s && ob in u.parent && u.parent[ob] == p
      && (k != ob ==> (k in u.states <==> k in t.states) && (k in u.parent <==> k in t.parent))
      && (k in t.states ==> u.states[k] == t.states[k]) && (k in t.parent ==> u.parent[k] == t.parent[k])
      && |Kids(u, p)| == |Kids(t, p)| + 1 && Kids(u, p)[|Kids(t, p)|] == ob && Kids(u, p)[..|Kids(t, p)|] == Kids(t, p)
      && (k != p ==> Kids(u, k) == Kids(t, k))
  {
  }

  /** Setting an existing object changes its state and nothing else; a new one
      becomes the last one at the top level. */
  lemma SetReplaces(t: Tree, ob: Id, s: ObState, k: Id)
    requires IsForest(t)
    ensures
      var u := Set(t, ob, s);
      && ob in u.states && u.states[ob] == s
      && (k != ob ==> (k in u.states <==> k in t.states) && (k in t.states ==> u.states[k] == t.states[k]))
      && (k != ob ==> (k in u.parent <==> k in t.parent) && (k in t.parent ==> u.parent[k] == t.parent[k]))
      && (ob in t.states ==> u.parent == t.parent && Kids(u, k) == Kids(t, k))
      && (ob !in t.states ==> ob in u.parent && u.parent[ob] == NULL)
      && (ob !in t.states ==> Kids(u, k) == if k == NULL then Kids(t, k) + [ob] else Kids(t, k))
  {
  }

  /** Deleting an object removes it and the objects attached to it, and leaves the
      states and places of all others. */
  lemma DeleteRemoves(t: Tree, ob: Id, k: Id)
    requires IsForest(t) && ob in t.parent
    ensures
      var u := Delete(t, ob);
      && (k in u.states <==> k in t.states && k != ob && t.parent[k] != ob)
      && (k in u.parent <==> k in u.states)
      && (k in u.states ==> u.states[k] == t.states[k] && u.parent[k] == t.parent[k])
      && (k in Kids(u, t.parent[ob]) <==> k in Kids(t, t.parent[ob]) && k != ob)
  {
    KidsAreChildren(t, ob);
    DeleteKeepsList(t, ob, t.parent[ob]);
    ParentIsOutside(t, ob);
  }

  /** Relocating an object changes what it is attached to, and no state. */
  lemma RelocateAttaches(t: Tree, ob: Id, to: Id, before: Id, k: Id)
    requires IsForest(t) && ob in t.parent
    ensures
      var u := Relocate(t, ob, to, before);
      && u.states == t.states && ob in u.parent && u.parent[ob] == to
      && (k != ob ==> (k in u.parent <==> k in t.parent) && (k in t.parent ==> u.parent[k] == t.parent[k]))
  {
  }

  // Attributes

  function Stored(attr: Attribute, d: Datum, v: Value): Option<Datum>
    requires HasType(attr, v)
  {
    With(attr, d, v)
  }

  /** Flags have a truth value, the line style is a style, and everything else is a
      number; all are zero by default. */
  lemma ZeroValues(attr: Attribute)
    ensures Zero(attr) in {Number(0), Flag(false), Stroke(LineAttr(0, 0, 0, 0, 0))}
    ensures Zero(attr).Flag? <==> attr in {IsInverted, IsPin, Visibility}
    ensures Zero(attr).Stroke? <==> attr == LineStyle
  {
  }

  /** The angle of components, pictures and texts. */
  lemma AngleIsField(c: Component<nat>, i: Picture<nat>, t: Text, v: int)
    ensures Stored(Angle, ComponentData(c), Number(v)) == Some(ComponentData(c.(angle := v)))
    ensures Stored(Angle, PictureData(i), Number(v)) == Some(PictureData(i.(angle := v)))
    ensures Stored(Angle, TextData(t), Number(v)) == Some(TextData(t.(angle := v)))
  {
  }

  /** The color of everything but components and pictures. */
  lemma ColorIsField(a: Arc, b: Box, c: Circle, l: Line, n: Net, p: Path, t: Text, v: int)
    ensures Stored(Color, ArcData(a), Number(v)) == Some(ArcData(a.(color := v)))
    ensures Stored(Color, BoxData(b), Number(v)) == Some(BoxData(b.(color := v)))
    ensures Stored(Color, CircleData(c), Number(v)) == Some(CircleData(c.(color := v)))
    ensures Stored(Color, LineData(l), Number(v)) == Some(LineData(l.(color := v)))
    ensures Stored(Color, NetData(n), Number(v)) == Some(NetData(n.(color := v)))
    ensures Stored(Color, PathData(p), Number(v)) == Some(PathData(p.(color := v)))
    ensures Stored(Color, TextData(t), Number(v)) == Some(TextData(t.(color := v)))
  {
  }

  /** The line styles of shapes and their parts. */
  lemma LineStyleIsField(a: Arc, b: Box, c: Circle, l: Line, p: Path, v: LineAttr)
    ensures Stored(LineStyle, ArcData(a), Stroke(v)) == Some(ArcData(a.(line := v)))
    ensures Stored(LineStyle, BoxData(b), Stroke(v)) == Some(BoxData(b.(line := v)))
    ensures Stored(LineStyle, CircleData(c), Stroke(v)) == Some(CircleData(c.(line := v)))
    ensures Stored(LineStyle, LineData(l), Stroke(v)) == Some(LineData(l.(line := v)))
    ensures Stored(LineStyle, PathData(p), Stroke(v)) == Some(PathData(p.(line := v)))
  {
  }

  lemma DashesAreFields(l: Line, v: int)
    ensures Stored(LineDashLength, LineData(l), Number(v)) == Some(LineData(l.(line := l.line.(dashLength := v))))
    ensures Stored(LineDashStyle, LineData(l), Number(v)) == Some(LineData(l.(line := l.line.(dashStyle := v))))
  {
  }

  /** Parts of styles are the same for all objects with styles. */
  lemma PartsOfStyles(d: Datum, v: int)
    ensures
      var line := Get(LineStyle, d);
      && (Get(LineDashLength, d) == if line.Some? then Some(Number(line.value.line.dashLength)) else None)
      && (Get(LineDashStyle, d) == if line.Some? then Some(Number(line.value.line.dashStyle)) else None)
    ensures
      var line := Get(LineStyle, d);
      line.Some? ==>
        && Stored(LineDashLength, d, Number(v)) == Stored(LineStyle, d, Stroke(line.value.line.(dashLength := v)))
        && Stored(LineDashStyle, d, Number(v)) == Stored(LineStyle, d, Stroke(line.value.line.(dashStyle := v)))
  {
  }

  /** The fill styles of boxes, circles and paths. */
  lemma FillIsField(b: Box, c: Circle, p: Path, v: int)
    ensures Stored(FillType, BoxData(b), Number(v)) == Some(BoxData(b.(fill := b.fill.(kind := v))))
    ensures Stored(FillType, CircleData(c), Number(v)) == Some(CircleData(c.(fill := c.fill.(kind := v))))
    ensures Stored(FillType, PathData(p), Number(v)) == Some(PathData(p.(fill := p.fill.(kind := v))))
    ensures Stored(FillWidth, BoxData(b), Number(v)) == Some(BoxData(b.(fill := b.fill.(width := v))))
    ensures Stored(FillWidth, CircleData(c), Number(v)) == Some(CircleData(c.(fill := c.fill.(width := v))))
    ensures Stored(FillWidth, PathData(p), Number(v)) == Some(PathData(p.(fill := p.fill.(width := v))))
  {
  }

  /** Flags of nets and texts. */
  lemma FlagsAreFields(n: Net, t: Text, b: bool)
    ensures Stored(IsInverted, NetData(n), Flag(b)) == Some(NetData(n.(isInverted := b)))
    ensures Stored(IsPin, NetData(n), Flag(b)) == Some(NetData(n.(isPin := b)))
    ensures Stored(Visibility, TextData(t), Flag(b)) == Some(TextData(t.(visibility := b)))
  {
  }

  /** Other objects don't have these attributes. */
  lemma MissingAttributes(d: Datum)
    ensures Get(Angle, d).None? <==> !d.ComponentData? && !d.PictureData? && !d.TextData?
    ensures Get(Color, d).None? <==> d.ComponentData? || d.PictureData?
    ensures Get(FillType, d).None? <==> !d.BoxData? && !d.CircleData? && !d.PathData?
    ensures Get(FillWidth, d).None? <==> Get(FillType, d).None?
    ensures Get(IsInverted, d).None? <==> !d.NetData?
    ensures Get(IsPin, d).None? <==> !d.NetData?
    ensures Get(Visibility, d).None? <==> !d.TextData?
    ensures Get(LineStyle, d).None? <==> d.ComponentData? || d.NetData? || d.PictureData? || d.TextData?
  {
  }
}
