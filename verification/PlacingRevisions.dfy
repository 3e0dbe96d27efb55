/** Transforming all objects of a revision in place. */
module PlacingRevisions {
  import opened ObjectData
  import opened Forest
  import opened Storage
  import opened Wrappers
  import opened Manipulate
  import opened Deleting
  import opened Objects
  import opened PlainFormat

  type Datum = Data<nat, nat>

  /** The data of an object after placing it or, with `back`, after taking it
      back to its original place. */
  function Moved(d: Datum, p: Placement, back: bool): Datum
    requires AngleIsValid(p.angle)
  {
    if back then Untransform(d, p) else Transform(d, p)
  }

  /** Whether u is t with some objects moved.  Moving an object doesn't affect
      its location in the object structure. */
  ghost predicate IsMoved(t: Tree, u: Tree, obs: set<Id>, p: Placement, back: bool)
    requires AngleIsValid(p.angle)
  {
    && u.children == t.children && u.parent == t.parent
    && u.states.Keys == t.states.Keys
    && forall ob {:trigger u.states[ob]} :: ob in t.states ==>
         u.states[ob].data == if ob in obs then Moved(t.states[ob].data, p, back) else t.states[ob].data
  }

  /** Moving all objects of a revision and moving them back restores their data
      up to full turns of arcs. */
  lemma MovingBackRestores(t: Tree, u: Tree, v: Tree, p: Placement, ob: Id)
    requires AngleIsValid(p.angle)
    requires IsMoved(t, u, t.states.Keys, p, false) && IsMoved(u, v, t.states.Keys, p, true)
    requires ob in t.states && DataIsValid(t.states[ob].data)
    ensures v.children == t.children && v.parent == t.parent
    ensures ob in v.states && v.states[ob].data == ReduceAngle(t.states[ob].data)
  {
    hide Transform, Untransform, ReduceAngle;
    UntransformUndoes(t.states[ob].data, p);
    assert ob in u.states;
  }

  lemma MoveNothing(t: Tree, p: Placement, back: bool)
    requires AngleIsValid(p.angle)
    ensures IsMoved(t, t, {}, p, back)
  {
  }

  lemma MoveOneMore(t: Tree, u: Tree, obs: set<Id>, p: Placement, back: bool, ob: Id, s: ObState)
    requires AngleIsValid(p.angle) && IsMoved(t, u, obs, p, back)
    requires ob in t.parent && ob in t.states && ob !in obs
    requires s.data == Moved(t.states[ob].data, p, back)
    ensures IsMoved(t, Set(u, ob, s), obs + {ob}, p, back)
  {
    hide Moved;
  }

  /** Changing the data of an object to moved data is never an error. */
  lemma MovingIsPermitted(t: Tree, ob: Id, p: Placement, back: bool)
    requires AngleIsValid(p.angle) && IsForest(t) && ob in t.states && Storable(t.states[ob].data)
    ensures
      var d := Moved(t.states[ob].data, p, back);
      && SetError(t, true, ob, Some(d)) == None
      && Normalize(d) == d
  {
    var d := t.states[ob].data;
    TransformKeepsStorable(d, p);
    UntransformKeepsType(d, p);
    assert EntryIsValid(t, ob);
    if !CanHaveChildren(d) {
      LeafIfNotHolder(t, ob);
    }
    hide Transform, Untransform;
  }

  lemma UntransformKeepsType(d: Datum, p: Placement)
    requires AngleIsValid(p.angle)
    ensures CanHaveChildren(Untransform(d, p)) == CanHaveChildren(d)
    ensures Untransform(d, p).TextData? == d.TextData?
  {
  }

  /** Store the moved data of an object. */
  method StoreMoved(lib: Library, rev: Revision, ob: Id, data: Datum,
                    ghost t: Tree, ghost obs: set<Id>, ghost p: Placement, ghost back: bool)
    returns (ok: bool)
    requires lib.Valid() && rev in lib.live && rev.isTransient
    requires AngleIsValid(p.angle) && IsMoved(t, rev.View(), obs, p, back)
    requires ob in t.states && ob !in obs && data == Moved(t.states[ob].data, p, back)
    modifies lib`states, lib`held, lib.states, rev
    ensures lib.Valid() && lib.OthersUntouched(rev) && rev.isTransient
    ensures forall s :: s in lib.states ==> s in old(lib.states) || fresh(s)
    ensures ok ==> IsMoved(t, rev.View(), obs + {ob}, p, back)
  {
    assert lib.IsWellFormed(rev);
    lib.StatesAreAllocated(rev);
    assert rev.obstates[ob].data == t.states[ob].data;
    MovingIsPermitted(rev.View(), ob, p, back);
    ghost var u := rev.View();
    hide Library.Valid, IsForest, Moved, Set, SetError, IsMoved;
    var r := SetObjectData(lib, rev, ob, Some(data));
    ok := r.Ok?;
    if ok {
      assert ob in t.parent by {
        KeysAgree(t, u, obs, p, back, ob);
      }
      MoveOneMore(t, u, obs, p, back, ob, rev.obstates[ob]);
    }
  }

  lemma KeysAgree(t: Tree, u: Tree, obs: set<Id>, p: Placement, back: bool, ob: Id)
    requires AngleIsValid(p.angle) && IsMoved(t, u, obs, p, back) && IsForest(u) && ob in t.states
    ensures ob in t.parent
  {
  }

  lemma StateIsThere(t: Tree, u: Tree, obs: set<Id>, p: Placement, back: bool, ob: Id)
    requires AngleIsValid(p.angle) && IsMoved(t, u, obs, p, back) && ob in t.states && ob !in obs
    ensures ob in u.states && u.states[ob].data == t.states[ob].data
  {
  }

  /** Rotate and translate all objects, for saving an embedded symbol. */
  method TransformObjects(lib: Library, rev: Revision, p: Placement) returns (r: Result<()>)
    requires lib.Valid() && rev in lib.live && rev.isTransient && AngleIsValid(p.angle)
    modifies lib`states, lib`held, lib.states, rev
    ensures lib.Valid() && lib.live == old(lib.live)
    ensures forall o :: o in lib.live && o != rev ==> o.View() == old(o.View())
    ensures r.Err? ==> r == Err(OutOfMemory)
    ensures r.Ok? ==> IsMoved(old(rev.View()), rev.View(), old(rev.obstates.Keys), p, false)
  {
    r := MoveObjects(lib, rev, p, false);
  }

  /** Rotate and translate all objects of an embedded symbol back to normal. */
  method UntransformObjects(lib: Library, rev: Revision, p: Placement) returns (r: Result<()>)
    requires lib.Valid() && rev in lib.live && rev.isTransient && AngleIsValid(p.angle)
    modifies lib`states, lib`held, lib.states, rev
    ensures lib.Valid() && lib.live == old(lib.live)
    ensures forall o :: o in lib.live && o != rev ==> o.View() == old(o.View())
    ensures r.Err? ==> r == Err(OutOfMemory)
    ensures r.Ok? ==> IsMoved(old(rev.View()), rev.View(), old(rev.obstates.Keys), p, true)
  {
    r := MoveObjects(lib, rev, p, true);
  }

  method MoveObjects(lib: Library, rev: Revision, p: Placement, back: bool) returns (r: Result<()>)
    requires lib.Valid() && rev in lib.live && rev.isTransient && AngleIsValid(p.angle)
    modifies lib`states, lib`held, lib.states, rev
    ensures lib.Valid() && lib.live == old(lib.live)
    ensures forall o :: o in lib.live && o != rev ==> o.View() == old(o.View())
    ensures r.Err? ==> r == Err(OutOfMemory)
    ensures r.Ok? ==> IsMoved(old(rev.View()), rev.View(), old(rev.obstates.Keys), p, back)
  {
    var objects, count := GetObjects(lib, rev);
    if objects.None? {
      return Err(OutOfMemory);
    }
    assert lib.IsWellFormed(rev);
    AllObjectsOnce(rev.View());
    hide Library.Valid, IsMoved, AllObjects, NoDuplicates;
    r := MoveEach(lib, rev, p, back, objects.value[..]);
  }

  method MoveEach(lib: Library, rev: Revision, p: Placement, back: bool, objects: seq<Id>) returns (r: Result<()>)
    requires lib.Valid() && rev in lib.live && rev.isTransient && AngleIsValid(p.angle)
    requires NoDuplicates(objects) && forall k :: k in objects <==> k in rev.obstates
    modifies lib`states, lib`held, lib.states, rev
    ensures lib.Valid() && lib.live == old(lib.live)
    ensures forall o :: o in lib.live && o != rev ==> o.View() == old(o.View())
    ensures r.Err? ==> r == Err(OutOfMemory)
    ensures r.Ok? ==> IsMoved(old(rev.View()), rev.View(), old(rev.obstates.Keys), p, back)
  {
    ghost var t := rev.View();
    MoveNothing(t, p, back);
    var k := 0;
    ghost var done: set<Id> := {};
    while k < |objects|
      invariant k <= |objects| && IsPrefix(done, objects, k)
      invariant lib.Valid() && lib.live == old(lib.live) && rev.isTransient
      invariant forall o :: o in lib.live && o != rev ==> o.View() == old(o.View())
      invariant forall s :: s in lib.states ==> s in old(lib.states) || fresh(s)
      invariant IsMoved(t, rev.View(), done, p, back)
    {
      hide Library.Valid, IsMoved, IsPrefix, NoDuplicates, Moved;
      var ob := objects[k];
      assert ob in t.states;
      NextInPrefix(done, objects, k);
      StateIsThere(t, rev.View(), done, p, back, ob);
      var data := Moved(rev.obstates[ob].data, p, back);
      var ok := StoreMoved(lib, rev, ob, data, t, done, p, back);
      if !ok {
        return Err(OutOfMemory);
      }
      done := done + {ob};
      k := k + 1;
    }
    assert done == t.states.Keys;
    return Ok(());
  }
}
