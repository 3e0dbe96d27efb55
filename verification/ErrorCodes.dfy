/** When operations on objects fail, and with which error: each code in terms of
    the objects in the revision. */
module ErrorCodes {
  import opened ObjectData
  import opened Forest
  import opened Storage
  import opened Wrappers
  import opened Manipulate
  import opened Relocating

  /** Adding an object succeeds exactly for valid data in a transient revision.
      Each error is reported exactly in its own case. */
  lemma AddErrorExactlyIf(isTransient: bool, data: Option<Data<nat, nat>>)
    ensures
      var e := AddError(isTransient, data);
      && (e == None <==> isTransient && data.Some? && DataIsValid(data.value))
      && (e == Some(InvalidArgument) <==> data.None?)
      && (e == Some(RevisionNotTransient) <==> data.Some? && !isTransient)
      && (e == Some(InvalidObjectData) <==> data.Some? && isTransient && !DataIsValid(data.value))
      && (e.Some? ==> e.value in {InvalidArgument, RevisionNotTransient, InvalidObjectData})
  {
  }

  /** Whether other objects are attached to an object. */
  ghost predicate HasAttached(t: Tree, ob: Id) {
    exists k :: k in t.parent && t.parent[k] == ob
  }

  /** Setting an object succeeds exactly for valid data in a transient revision,
      such that other objects are only attached to nets and components, and only
      texts are attached to other objects. */
  lemma SetErrorExactlyIf(t: Tree, isTransient: bool, ob: Id, data: Option<Data<nat, nat>>)
    requires IsForest(t)
    ensures
      var e := SetError(t, isTransient, ob, data);
      && (e == None <==>
            && isTransient && data.Some? && DataIsValid(data.value)
            && (HasAttached(t, ob) ==> data.value.NetData? || data.value.ComponentData?)
            && (ob in t.parent && t.parent[ob] != NULL ==> data.value.TextData?))
      && (e == Some(InvalidArgument) <==> data.None?)
      && (e == Some(RevisionNotTransient) <==> data.Some? && !isTransient)
      && (e == Some(InvalidObjectData) <==> data.Some? && isTransient && !DataIsValid(data.value))
      && (e == Some(InvalidExistingChild) <==>
            && isTransient && data.Some? && DataIsValid(data.value)
            && HasAttached(t, ob) && !data.value.NetData? && !data.value.ComponentData?)
      && (e == Some(InvalidParent) <==>
            && isTransient && data.Some? && DataIsValid(data.value)
            && (HasAttached(t, ob) ==> data.value.NetData? || data.value.ComponentData?)
            && ob in t.parent && t.parent[ob] != NULL && !data.value.TextData?)
      && (e.Some? ==> e.value in {InvalidArgument, RevisionNotTransient, InvalidObjectData, InvalidExistingChild,
                                  InvalidParent})
  {
    hide DataIsValid;
    KidsAreChildren(t, ob);
    assert Kids(t, ob) != [] ==> Kids(t, ob)[0] in Kids(t, ob);
  }

  /** Whether an object may be attached to another one, or put to the top level. */
  ghost predicate MayBePut(t: Tree, ob: Id, to: Id) {
    to == NULL ||
    (ob in t.states && t.states[ob].data.TextData?
     && to in t.states && (t.states[to].data.NetData? || t.states[to].data.ComponentData?))
  }

  /** A relocation succeeds exactly for an existing object which is put to the top
      level, or which is a text and is attached to a net or component, in front of
      an object which is there already, if any.  Each error is reported exactly in
      its own case. */
  lemma RelocateErrorExactlyIf(t: Tree, isTransient: bool, ob: Id, to: Id, before: Id)
    requires IsForest(t)
    ensures
      var e := RelocateError(t, isTransient, ob, to, before);
      && (e == None <==>
            && isTransient && ob in t.states && MayBePut(t, ob, to)
            && (before == NULL || (before in t.states && t.parent[before] == to)))
      && (e == Some(RevisionNotTransient) <==> !isTransient)
      && (e == Some(ObjectDoesntExist) <==> isTransient && ob !in t.states)
      && (e == Some(ParentDoesntExist) <==>
            isTransient && ob in t.states && t.states[ob].data.TextData? && to != NULL && to !in t.states)
      && (e == Some(InvalidParent) <==>
            && isTransient && ob in t.states && to != NULL
            && (t.states[ob].data.TextData? ==>
                  to in t.states && !t.states[to].data.NetData? && !t.states[to].data.ComponentData?))
      && (e == Some(SuccessorDoesntExist) <==>
            isTransient && ob in t.states && MayBePut(t, ob, to) && before != NULL && before !in t.states)
      && (e == Some(SuccessorNotSibling) <==>
            && isTransient && ob in t.states && MayBePut(t, ob, to)
            && before != NULL && before in t.states && t.parent[before] != to)
      && (e.Some? ==> e.value in {RevisionNotTransient, ObjectDoesntExist, ParentDoesntExist, InvalidParent,
                                  SuccessorDoesntExist, SuccessorNotSibling})
  {
    KidsAreChildren(t, to);
  }
}
