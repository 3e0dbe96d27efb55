/** Schematics and symbols as the file format sees them: a list of objects,
    some of which have texts attached, and some of which are components whose
    symbol contains a list of objects in turn. */
module Drawings {
  import opened Wrappers
  import opened ObjectData
  import opened PlainFormat
  import opened Base64

  datatype Pixmap = Pixmap(filename: Option<string>, data: seq<Byte>, embedded: bool)

  /** The objects in a symbol, if these are there. */
  datatype Contents = Missing | Contents(objs: seq<Obj>)

  datatype Symbol = Symbol(basename: string, contents: Contents, embedded: bool)

  datatype Obj = Obj(data: Data<Symbol, Pixmap>, attached: seq<Text>)

  predicate IsEmbedded(o: Obj) {
    o.data.ComponentData? && o.data.component.symbol.embedded
  }

  predicate HasContents(o: Obj) {
    o.data.ComponentData? && o.data.component.symbol.contents.Contents?
  }

  /** The objects in the symbol of a component. */
  function Inner(o: Obj): (objs: seq<Obj>)
    ensures HasContents(o) ==> HeightAll(objs) < Height(o)
  {
    if HasContents(o) then o.data.component.symbol.contents.objs else []
  }

  /** How deeply symbols are nested in an object. */
  function Height(o: Obj): nat {
    if o.data.ComponentData? then SymbolHeight(o.data.component.symbol) else 0
  }

  function SymbolHeight(s: Symbol): nat {
    if s.contents.Contents? then 1 + HeightAll(s.contents.objs) else 0
  }

  function HeightAll(objs: seq<Obj>): (h: nat)
    ensures forall i :: 0 <= i < |objs| ==> Height(objs[i]) <= h
  {
    if objs == [] then 0
    else
      var h, rest := Height(objs[0]), HeightAll(objs[1..]);
      if h > rest then h else rest
  }

  // Validity as guaranteed by the storage library

  /** Whether an object and everything in it could be stored. */
  ghost predicate IsStored(o: Obj)
    decreases Height(o), 0
  {
    && Storable(o.data)
    && (o.attached != [] ==> CanHaveChildren(o.data))
    && (forall i :: 0 <= i < |o.attached| ==> TextIsStored(o.attached[i]))
    && (HasContents(o) ==> AreStored(Inner(o)))
  }

  ghost predicate TextIsStored(t: Text) {
    var d: Data<Symbol, Pixmap> := TextData(t);
    Storable(d)
  }

  ghost predicate AreStored(objs: seq<Obj>)
    decreases HeightAll(objs), 1
  {
    forall i :: 0 <= i < |objs| ==> IsStored(objs[i])
  }

  // Placing lists of objects

  function PlaceTexts(texts: seq<Text>, p: Placement): (r: seq<Text>)
    requires AngleIsValid(p.angle)
    ensures |r| == |texts|
    ensures forall i :: 0 <= i < |r| ==> r[i] == TransformText(texts[i], p)
  {
    seq(|texts|, i requires 0 <= i < |texts| => TransformText(texts[i], p))
  }

  function PlaceObject(o: Obj, p: Placement): (r: Obj)
    requires AngleIsValid(p.angle)
    ensures Height(r) == Height(o) && Inner(r) == Inner(o) && IsEmbedded(r) == IsEmbedded(o)
  {
    Obj(Transform(o.data, p), PlaceTexts(o.attached, p))
  }

  function PlaceAll(objs: seq<Obj>, p: Placement): (r: seq<Obj>)
    requires AngleIsValid(p.angle)
    ensures |r| == |objs|
    ensures forall i :: 0 <= i < |r| ==> r[i] == PlaceObject(objs[i], p)
    ensures HeightAll(r) == HeightAll(objs)
  {
    if objs == [] then [] else [PlaceObject(objs[0], p)] + PlaceAll(objs[1..], p)
  }

  lemma PlacedIsStored(o: Obj, p: Placement)
    requires AngleIsValid(p.angle) && IsStored(o)
    ensures IsStored(PlaceObject(o, p))
  {
    TransformKeepsStorable(o.data, p);
    forall i | 0 <= i < |o.attached|
      ensures TextIsStored(TransformText(o.attached[i], p))
    {
      var d: Data<Symbol, Pixmap> := TextData(o.attached[i]);
      assert TextIsStored(o.attached[i]);
      TransformKeepsStorable(d, p);
    }
    hide Transform, TransformText, Storable;
  }

  lemma PlacedAreStored(objs: seq<Obj>, p: Placement)
    requires AngleIsValid(p.angle) && AreStored(objs)
    ensures AreStored(PlaceAll(objs, p))
  {
    forall i | 0 <= i < |objs|
      ensures IsStored(PlaceAll(objs, p)[i])
    {
      PlacedIsStored(objs[i], p);
    }
  }

  // Taking lists of objects back

  function UnplaceTexts(texts: seq<Text>, p: Placement): (r: seq<Text>)
    requires AngleIsValid(p.angle)
    ensures |r| == |texts|
    ensures forall i :: 0 <= i < |r| ==> r[i] == UntransformText(texts[i], p)
  {
    seq(|texts|, i requires 0 <= i < |texts| => UntransformText(texts[i], p))
  }

  function UnplaceObject(o: Obj, p: Placement): Obj
    requires AngleIsValid(p.angle)
  {
    Obj(Untransform(o.data, p), UnplaceTexts(o.attached, p))
  }

  function UnplaceAll(objs: seq<Obj>, p: Placement): (r: seq<Obj>)
    requires AngleIsValid(p.angle)
    ensures |r| == |objs|
    ensures forall i :: 0 <= i < |r| ==> r[i] == UnplaceObject(objs[i], p)
  {
    if objs == [] then [] else [UnplaceObject(objs[0], p)] + UnplaceAll(objs[1..], p)
  }
}
