/** Adding, changing, relocating and deleting objects.  Every allocation may
    fail, in which case the work done so far is undone by hand. */
module Manipulate {
  import opened ObjectData
  import opened Forest
  import opened Storage
  import opened Wrappers

  /** Append an object to a child list.  The access to the list may create
      an empty one even if the append fails. */
  method PushBack(rev: Revision, p: Id, ob: Id) returns (ok: bool)
    modifies rev`children
    ensures ok ==> rev.children == old(rev.children)[p := Kids(old(rev.View()), p) + [ob]]
    ensures !ok ==> rev.children == old(rev.children) || rev.children == old(rev.children)[p := Kids(old(rev.View()), p)]
  {
    var outOfMemory := *;
    if outOfMemory {
      return false;
    }
    if p !in rev.children {
      rev.children := rev.children[p := []];
    }
    outOfMemory := *;
    if outOfMemory {
      return false;
    }
    rev.children := rev.children[p := rev.children[p] + [ob]];
    return true;
  }

  method PopBack(rev: Revision, p: Id)
    requires p in rev.children && |rev.children[p]| > 0
    modifies rev`children
    ensures rev.children == old(rev.children)[p := old(rev.children[p])[..|old(rev.children[p])| - 1]]
  {
    rev.children := rev.children[p := rev.children[p][..|rev.children[p]| - 1]];
  }

  /** Enter an object at the end of a list, or do nothing if there is not
      enough memory. */
  method AddEntry(lib: Library, rev: Revision, ob: Id, p: Id) returns (ok: bool)
    requires lib.Accounted() && ob !in rev.parent
    modifies rev`children, rev`parent
    ensures lib.Accounted()
    ensures ok ==>
      && rev.children == old(rev.children)[p := Kids(old(rev.View()), p) + [ob]]
      && rev.parent == old(rev.parent)[ob := p]
    ensures !ok ==>
      && (rev.children == old(rev.children) || rev.children == old(rev.children)[p := Kids(old(rev.View()), p)])
      && rev.parent == old(rev.parent)
  {
    ok := PushBack(rev, p, ob);
    if !ok {
      return;
    }
    var outOfMemory := *;
    if outOfMemory {
      PopBack(rev, p);
      return false;
    }
    rev.parent := rev.parent[ob := p];
  }

  /** Undo AddEntry. */
  method RemoveEntry(lib: Library, rev: Revision, ob: Id, p: Id, ghost t: Tree)
    requires lib.Accounted() && ob !in t.parent
    requires rev.children == t.children[p := Kids(t, p) + [ob]]
    requires rev.parent == t.parent[ob := p]
    modifies rev`children, rev`parent
    ensures lib.Accounted()
    ensures rev.children == t.children[p := Kids(t, p)] && rev.parent == t.parent
  {
    assert (Kids(t, p) + [ob])[..|Kids(t, p)|] == Kids(t, p);
    assert t.parent[ob := p] - {ob} == t.parent;
    PopBack(rev, p);
    rev.parent := rev.parent - {ob};
  }

  /** Give up the reference to the previous state of an object, if any. */
  method Release(lib: Library, rev: Revision, ob: Id)
    requires lib.Balanced() && lib.StatesAreStorable()
    requires ob in rev.obstates <==> (rev, ob) in lib.held
    requires ob in rev.obstates ==> lib.held[(rev, ob)] == rev.obstates[ob]
    modifies lib`states, lib`held, lib.states
    ensures lib.Balanced() && lib.StatesAreStorable()
    ensures lib.held == old(lib.held) - {(rev, ob)}
    ensures lib.states <= old(lib.states)
  {
    if ob in rev.obstates {
      lib.DecRefcnt(rev.obstates[ob], (rev, ob));
    }
  }

  /** Put a state which has been created into an object map. */
  method Install(lib: Library, rev: Revision, ob: Id, s: ObState)
    requires lib.Balanced() && lib.StatesAreStorable() && rev in lib.live
    requires (null, ob) in lib.held && lib.held[(null, ob)] == s
    requires lib.SettledAs(lib.held - {(null, ob)})
    modifies lib`states, lib`held, lib.states, rev`obstates
    ensures forall s :: s in lib.states ==> s in old(lib.states) || fresh(s)
    ensures lib.Accounted()
    ensures rev.obstates == old(rev.obstates)[ob := s]
  {
    ghost var before := lib.held - {(null, ob)};
    assert (rev, ob) in lib.held <==> (rev, ob) in before;
    Release(lib, rev, ob);
    lib.HandOver(s, (null, ob), (rev, ob));
    assert lib.held == before[(rev, ob) := s];
    rev.obstates := rev.obstates[ob := s];
    lib.StaysSettled(rev, ob, s);
  }

  /** Give an object a new state, releasing its previous one. */
  method SetState(lib: Library, rev: Revision, ob: Id, data: Data<nat, nat>) returns (ok: bool)
    requires lib.Accounted() && rev in lib.live && DataIsValid(data)
    modifies lib`states, lib`held, lib.states, rev`obstates
    ensures forall s :: s in lib.states ==> s in old(lib.states) || fresh(s)
    ensures lib.Accounted()
    ensures !ok ==> rev.obstates == old(rev.obstates)
    ensures ok ==>
      && ob in rev.obstates
      && fresh(rev.obstates[ob]) && rev.obstates[ob].data == Normalize(data)
      && rev.obstates == old(rev.obstates)[ob := rev.obstates[ob]]
  {
    var outOfMemory := *;
    if outOfMemory {
      return false;
    }
    assert (null, ob) !in lib.held;
    var tmp := lib.NewState(data, (null, ob));
    assert lib.held - {(null, ob)} == old(lib.held);
    outOfMemory := *;
    if outOfMemory && ob !in rev.obstates {
      lib.DecRefcnt(tmp, (null, ob));
      return false;
    }
    Install(lib, rev, ob, tmp);
    return true;
  }

  /** The error reported when adding an object, apart from lack of memory.
      No data stands for a NULL pointer or an unsupported object type. */
  function AddError(isTransient: bool, data: Option<Data<nat, nat>>): Option<Error> {
    if data.None? then Some(InvalidArgument)
    else if !isTransient then Some(RevisionNotTransient)
    else if !DataIsValid(data.value) then Some(InvalidObjectData)
    else None
  }

  /** Add a new object to a transient revision. */
  method AddObject(lib: Library, rev: Revision, data: Option<Data<nat, nat>>) returns (r: Result<Id>)
    requires lib.Valid() && rev in lib.live
    modifies lib`nextObjectId, lib`states, lib`held, lib.states, rev
    ensures forall s :: s in lib.states ==> s in old(lib.states) || fresh(s)
    ensures lib.Valid() && lib.OthersUntouched(rev)
    ensures lib.nextObjectId >= old(lib.nextObjectId)
    ensures !rev.isTransient ==> rev.View() == old(rev.View())
    ensures r.Err? ==> Same(rev.View(), old(rev.View()))
    ensures var e := AddError(old(rev.isTransient), data);
      if e.Some? then r == Err(e.value) else r.Ok? || r == Err(OutOfMemory)
    ensures r.Ok? ==>
      && r.value == old(lib.nextObjectId) + 1 == lib.nextObjectId
      && r.value in rev.obstates
      && fresh(rev.obstates[r.value]) && rev.obstates[r.value].data == Normalize(data.value)
      && rev.View() == Put(old(rev.View()), r.value, rev.obstates[r.value], NULL)
  {
    if data.None? {
      return Err(InvalidArgument);
    }
    if !rev.isTransient {
      return Err(RevisionNotTransient);
    }
    if !DataIsValid(data.value) {
      return Err(InvalidObjectData);
    }
    lib.nextObjectId := lib.nextObjectId + 1;
    var ob := lib.nextObjectId;
    assert old(lib.IsWellFormed(rev));
    var ok := Append(lib, rev, ob, data.value);
    if !ok {
      SameIsForest(rev.View(), old(rev.View()));
      lib.StaysValid(rev);
      return Err(OutOfMemory);
    }
    PutKeepsForest(old(rev.View()), ob, rev.obstates[ob], NULL);
    lib.StaysValid(rev);
    return Ok(ob);
  }

  /** Append an object which isn't in the revision to the top level, or undo
      all changes if there is not enough memory. */
  method Append(lib: Library, rev: Revision, ob: Id, data: Data<nat, nat>) returns (ok: bool)
    requires lib.Accounted() && rev in lib.live && DataIsValid(data)
    requires ob !in rev.obstates && ob !in rev.parent
    modifies lib`states, lib`held, lib.states, rev`obstates, rev`children, rev`parent
    ensures forall s :: s in lib.states ==> s in old(lib.states) || fresh(s)
    ensures lib.Accounted()
    ensures !ok ==>
      && Same(rev.View(), old(rev.View()))
      && rev.children.Keys <= old(rev.children.Keys) + {NULL}
    ensures ok ==>
      && ob in rev.obstates
      && fresh(rev.obstates[ob]) && rev.obstates[ob].data == Normalize(data)
      && rev.View() == Put(old(rev.View()), ob, rev.obstates[ob], NULL)
  {
    ok := AddEntry(lib, rev, ob, NULL);
    if !ok {
      return;
    }
    ok := SetState(lib, rev, ob, data);
    if !ok {
      RemoveEntry(lib, rev, ob, NULL, old(rev.View()));
    }
  }

  method SetOrAppend(lib: Library, rev: Revision, ob: Id, data: Data<nat, nat>) returns (ok: bool)
    requires lib.Accounted() && rev in lib.live && DataIsValid(data)
    requires rev.obstates.Keys == rev.parent.Keys
    modifies lib`states, lib`held, lib.states, rev`obstates, rev`children, rev`parent
    ensures forall s :: s in lib.states ==> s in old(lib.states) || fresh(s)
    ensures lib.Accounted()
    ensures !ok ==>
      && Same(rev.View(), old(rev.View()))
      && rev.children.Keys <= old(rev.children.Keys) + {NULL}
    ensures ok ==>
      && ob in rev.obstates
      && fresh(rev.obstates[ob]) && rev.obstates[ob].data == Normalize(data)
      && rev.View() == Set(old(rev.View()), ob, rev.obstates[ob])
  {
    if ob !in rev.parent {
      ok := Append(lib, rev, ob, data);
    } else {
      ok := SetState(lib, rev, ob, data);
    }
  }

  /** The error reported when setting object data, apart from lack of memory. */
  function SetError(t: Tree, isTransient: bool, ob: Id, data: Option<Data<nat, nat>>): Option<Error> {
    if AddError(isTransient, data).Some? then AddError(isTransient, data)
    else if !CanHaveChildren(data.value) && Kids(t, ob) != [] then Some(InvalidExistingChild)
    else if !data.value.TextData? && ob in t.parent && t.parent[ob] != NULL then Some(InvalidParent)
    else None
  }

  /** Set an object in a transient revision to the given data.  The object
      must have been returned by the library before, but doesn't need to
      exist in the revision. */
  method SetObjectData(lib: Library, rev: Revision, ob: Id, data: Option<Data<nat, nat>>)
    returns (r: Result<()>)
    requires lib.Valid() && rev in lib.live
    requires NULL < ob <= lib.nextObjectId
    modifies lib`states, lib`held, lib.states, rev
    ensures forall s :: s in lib.states ==> s in old(lib.states) || fresh(s)
    ensures lib.Valid() && lib.OthersUntouched(rev)
    ensures !rev.isTransient ==> rev.View() == old(rev.View())
    ensures r.Err? ==> Same(rev.View(), old(rev.View()))
    ensures var e := SetError(old(rev.View()), old(rev.isTransient), ob, data);
      if e.Some? then r == Err(e.value) else r.Ok? || r == Err(OutOfMemory)
    ensures r.Ok? ==>
      && ob in rev.obstates
      && fresh(rev.obstates[ob]) && rev.obstates[ob].data == Normalize(data.value)
      && rev.View() == Set(old(rev.View()), ob, rev.obstates[ob])
  {
    if data.None? {
      return Err(InvalidArgument);
    }
    if !rev.isTransient {
      return Err(RevisionNotTransient);
    }
    if !DataIsValid(data.value) {
      return Err(InvalidObjectData);
    }
    if !CanHaveChildren(data.value) && ob in rev.children && rev.children[ob] != [] {
      return Err(InvalidExistingChild);
    }
    if !data.value.TextData? && ob in rev.parent && rev.parent[ob] != NULL {
      return Err(InvalidParent);
    }
    assert old(lib.IsWellFormed(rev));
    var ok := SetOrAppend(lib, rev, ob, data.value);
    if !ok {
      SameIsForest(rev.View(), old(rev.View()));
      lib.StaysValid(rev);
      return Err(OutOfMemory);
    }
    NormalizeMakesStorable(data.value);
    SetKeepsForest(old(rev.View()), ob, rev.obstates[ob]);
    lib.StaysValid(rev);
    return Ok(());
  }
}
