/** Writing an attribute of many objects at once.  The new object map is built
    up in a local variable which counts its own references; only when all
    states have been created does it replace the object map of the revision. */
module SettingAttributes {
  import opened ObjectData
  import opened Forest
  import opened Storage
  import opened Wrappers
  import opened Cursors
  import opened Attributes

  // What setting an attribute does

  /** The objects which get a new state. */
  ghost function Affected(m: map<Id, ObState>, obs: set<Id>, attr: Attribute, value: Value): set<Id>
    requires HasType(attr, value)
  {
    set ob | ob in m && ob in obs && Applies(attr, m[ob].data, value)
  }

  /** Whether u is an object map m with an attribute set for certain objects.
      The affected objects have newly created states with the new, normalized
      data; all others keep the identical states. */
  ghost predicate IsSetTo(m: map<Id, ObState>, u: map<Id, ObState>, obs: set<Id>,
                          attr: Attribute, value: Value, existing: set<ObState>)
    requires HasType(attr, value)
  {
    && u.Keys == m.Keys
    && (forall ob {:trigger u[ob]} :: ob in Affected(m, obs, attr, value) ==>
          u[ob] !in existing && u[ob].data == NewData(attr, m[ob].data, value))
    && (forall ob {:trigger u[ob]} :: ob in m && ob !in Affected(m, obs, attr, value) ==> u[ob] == m[ob])
  }

  lemma SettingKeepsTypes(attr: Attribute, d: Datum, value: Value)
    requires HasType(attr, value) && Applies(attr, d, value)
    ensures NewData(attr, d, value).TextData? == d.TextData?
    ensures CanHaveChildren(NewData(attr, d, value)) == CanHaveChildren(d)
  {
  }

  /** As no object changes its type, the structure remains valid. */
  lemma SetToKeepsForest(t: Tree, u: map<Id, ObState>, obs: set<Id>, attr: Attribute, value: Value, existing: set<ObState>)
    requires HasType(attr, value) && IsForest(t) && IsSetTo(t.states, u, obs, attr, value, existing)
    ensures IsForest(t.(states := u))
  {
    var v := t.(states := u);
    forall k | k in u
      ensures u[k].data.TextData? == t.states[k].data.TextData?
      ensures CanHaveChildren(u[k].data) == CanHaveChildren(t.states[k].data)
    {
      if k in Affected(t.states, obs, attr, value) {
        SettingKeepsTypes(attr, t.states[k].data, value);
      }
    }
    hide IsSetTo;
    assert forall p :: Kids(v, p) == Kids(t, p);
    forall p
      ensures ListIsValid(v, p)
    {
      assert ListIsValid(t, p);
    }
    forall k | k in v.parent
      ensures EntryIsValid(v, k)
    {
      assert EntryIsValid(t, k);
    }
  }

  lemma SetNothing(m: map<Id, ObState>, attr: Attribute, value: Value, existing: set<ObState>)
    requires HasType(attr, value)
    ensures IsSetTo(m, m, {}, attr, value, existing)
  {
  }

  lemma SetOneMore(m: map<Id, ObState>, u: map<Id, ObState>, obs: set<Id>,
                   attr: Attribute, value: Value, existing: set<ObState>, ob: Id, v: map<Id, ObState>)
    requires HasType(attr, value) && IsSetTo(m, u, obs, attr, value, existing)
    requires ob in m && ob !in obs
    requires if Applies(attr, m[ob].data, value)
      then ob in v && v == u[ob := v[ob]] && v[ob] !in existing && v[ob].data == NewData(attr, m[ob].data, value)
      else v == u
    ensures IsSetTo(m, v, obs + {ob}, attr, value, existing)
  {
    assert Affected(m, obs + {ob}, attr, value) ==
      Affected(m, obs, attr, value) + if Applies(attr, m[ob].data, value) then {ob} else {};
  }

  lemma SetSelected(m: map<Id, ObState>, u: map<Id, ObState>, sel: set<Id>,
                    attr: Attribute, value: Value, existing: set<ObState>)
    requires HasType(attr, value) && IsSetTo(m, u, m.Keys * sel, attr, value, existing)
    ensures IsSetTo(m, u, sel, attr, value, existing)
  {
    assert Affected(m, m.Keys * sel, attr, value) == Affected(m, sel, attr, value);
  }

  /** After an attribute has been set, all selected objects which have it and
      use it have the new value if it was valid for all of them. */
  lemma ReadBack(m: map<Id, ObState>, u: map<Id, ObState>, sel: set<Id>,
                 attr: Attribute, value: Value, existing: set<ObState>)
    requires HasType(attr, value) && attr != LineStyle && IsSetTo(m, u, sel, attr, value, existing)
    requires forall ob {:trigger m[ob]} :: ob in m && ob in sel && Get(attr, m[ob].data).Some? ==>
      Applies(attr, m[ob].data, value) && Uses(m[ob].data, attr)
    ensures ValuesOf(u, sel, attr) <= {value}
    ensures ValuesOf(u, sel, attr) == {} <==> ValuesOf(m, sel, attr) == {}
  {
    forall ob | ob in m && ob in sel
      ensures Get(attr, u[ob].data) == if Get(attr, m[ob].data).Some? then Some(value) else None
    {
      WithStores(attr, m[ob].data, value);
      if Get(attr, m[ob].data).Some? {
        ReadAfterWrite(attr, m[ob].data, value);
        assert ob in Affected(m, sel, attr, value);
      }
    }
    hide IsSetTo, Get;
    if ob :| ob in sel && ob in m && Get(attr, m[ob].data).Some? {
      assert value in ValuesOf(u, sel, attr);
      assert Get(attr, m[ob].data).value in ValuesOf(m, sel, attr);
    }
  }

  // References from the local object map

  /** Whether, in addition to certain references, a local object map is
      accounted for. */
  ghost predicate AlsoHeld(held: map<Holder, ObState>, before: map<Holder, ObState>, m: map<Id, ObState>) {
    && (forall h {:trigger h in held} {:trigger h in before} :: h in before ==>
          h.0 != null && h in held && held[h] == before[h])
    && (forall h {:trigger h in held} :: h in held ==> h in before || (h.0 == null && h.1 in m))
    && (forall ob {:trigger m[ob]} :: ob in m ==> (null, ob) in held && held[(null, ob)] == m[ob])
  }

  /** Make a local copy of an object map. */
  method CopyMap(lib: Library, rev: Revision) returns (m: map<Id, ObState>)
    requires lib.Accounted() && rev in lib.live
    requires forall ob :: ob in rev.obstates ==> rev.obstates[ob] in lib.states
    modifies lib`held, lib.states
    ensures lib.Balanced() && lib.StatesAreStorable()
    ensures lib.states == old(lib.states)
    ensures m == rev.obstates && AlsoHeld(lib.held, old(lib.held), m)
  {
    m := rev.obstates;
    assert forall h :: h in lib.held ==> h.0 != null;
    lib.IncRefcnts(m, null);
    assert forall ob :: ob in m ==> (null, ob) in Library.Entries(null, m.Keys);
  }

  lemma LocalEntryIsReplaced(held: map<Holder, ObState>, before: map<Holder, ObState>, m: map<Id, ObState>,
                             ob: Id, s: ObState)
    requires AlsoHeld(held, before, m) && ob in m && NULL !in m
    ensures
      AlsoHeld((held[(null, NULL) := s] - {(null, ob)} - {(null, NULL)})[(null, ob) := s], before, m[ob := s])
  {
  }

  /** Replace a state in the local object map by a new one. */
  method Replace(lib: Library, m: map<Id, ObState>, ob: Id, data: Datum, ghost before: map<Holder, ObState>)
    returns (ok: bool, newMap: map<Id, ObState>)
    requires lib.Balanced() && lib.StatesAreStorable() && AlsoHeld(lib.held, before, m)
    requires ob in m && NULL !in m && DataIsValid(data)
    modifies lib`states, lib`held, lib.states
    ensures lib.Balanced() && lib.StatesAreStorable() && AlsoHeld(lib.held, before, newMap)
    ensures forall s :: s in lib.states ==> s in old(lib.states) || fresh(s)
    ensures if ok
      then ob in newMap && fresh(newMap[ob]) && newMap[ob].data == Normalize(data) && newMap == m[ob := newMap[ob]]
      else newMap == m
  {
    var outOfMemory := *;
    if outOfMemory {
      return false, m;
    }
    assert (null, NULL) !in lib.held && (null, ob) in lib.held && lib.held[(null, ob)] == m[ob];
    ghost var held := lib.held;
    hide AlsoHeld, Library.Balanced, Library.StatesAreStorable;
    var tmp := Exchange(lib, m[ob], ob, data);
    LocalEntryIsReplaced(held, before, m, ob, tmp);
    return true, m[ob := tmp];
  }

  /** Create a new state in a local variable, then put it in the place of the
      previous state of an object, which is released. */
  method Exchange(lib: Library, previous: ObState, ob: Id, data: Datum) returns (tmp: ObState)
    requires lib.Balanced() && lib.StatesAreStorable() && DataIsValid(data)
    requires (null, NULL) !in lib.held && ob != NULL
    requires (null, ob) in lib.held && lib.held[(null, ob)] == previous
    modifies lib`states, lib`held, lib.states
    ensures lib.Balanced() && lib.StatesAreStorable()
    ensures fresh(tmp) && tmp.data == Normalize(data)
    ensures lib.held == (old(lib.held)[(null, NULL) := tmp] - {(null, ob)} - {(null, NULL)})[(null, ob) := tmp]
    ensures forall s :: s in lib.states ==> s in old(lib.states) || s == tmp
  {
    tmp := lib.NewState(data, (null, NULL));
    lib.DecRefcnt(previous, (null, ob));
    lib.HandOver(tmp, (null, NULL), (null, ob));
  }

  /** Give up the local object map. */
  method Discard(lib: Library, m: map<Id, ObState>, ghost before: map<Holder, ObState>)
    requires lib.Balanced() && lib.StatesAreStorable() && AlsoHeld(lib.held, before, m)
    modifies lib`states, lib`held, lib.states
    ensures lib.Balanced() && lib.StatesAreStorable() && lib.held == before
    ensures lib.states <= old(lib.states)
  {
    ghost var held := lib.held;
    lib.DecRefcnts(m, null);
    forall h
      ensures h in lib.held <==> h in before
    {
      if h in held && h.0 == null {
        assert h == (null, h.1);
      }
    }
  }

  /** Whether some entries of a local object map have been passed on to a
      revision whose own references have been given up. */
  ghost predicate PassedOn(held: map<Holder, ObState>, before: map<Holder, ObState>, m: map<Id, ObState>,
                           rev: Revision, done: set<Id>) {
    && (forall h {:trigger h in before} {:trigger h in held} :: h in before && h.0 != rev ==>
          h.0 != null && h in held && held[h] == before[h])
    && (forall h {:trigger h in held} :: h in held && h.0 != null && h.0 != rev ==> h in before)
    && (forall h {:trigger h in held} :: h in held && h.0 == null ==> h.1 in m && h.1 !in done)
    && (forall h {:trigger h in held} :: h in held && h.0 == rev ==> h.1 in m && h.1 in done)
    && (forall ob {:trigger m[ob]} :: ob in m ==>
          var h: Holder := (if ob in done then rev else null, ob);
          h in held && held[h] == m[ob])
  }

  lemma PassedOnNone(held: map<Holder, ObState>, before: map<Holder, ObState>, m: map<Id, ObState>, rev: Revision)
    requires AlsoHeld(held, before, m)
    requires forall h :: h in before && h.0 == rev ==> h.1 in m
    ensures PassedOn(held - Library.Entries(rev, m.Keys), before, m, rev, {})
  {
    forall h | h in held && h.0 == rev
      ensures h in Library.Entries(rev, m.Keys)
    {
      assert h == (rev, h.1);
    }
  }

  lemma PassedOnOneMore(held: map<Holder, ObState>, before: map<Holder, ObState>, m: map<Id, ObState>,
                        rev: Revision, done: set<Id>, ob: Id)
    requires PassedOn(held, before, m, rev, done) && ob in m && ob !in done
    ensures (null, ob) in held && held[(null, ob)] == m[ob] && (rev, ob) !in held
    ensures PassedOn((held - {(null, ob)})[(rev, ob) := m[ob]], before, m, rev, done + {ob})
  {
  }

  ghost method HandOverOne(lib: Library, m: map<Id, ObState>, rev: Revision, before: map<Holder, ObState>,
                           done: set<Id>, ob: Id)
    requires lib.Balanced() && PassedOn(lib.held, before, m, rev, done)
    requires ob in m && ob !in done
    modifies lib.states`refs, lib`held
    ensures lib.Balanced() && PassedOn(lib.held, before, m, rev, done + {ob})
  {
    PassedOnOneMore(lib.held, before, m, rev, done, ob);
    hide PassedOn;
    lib.HandOver(m[ob], (null, ob), (rev, ob));
  }

  /** Pass all entries of a local object map on to a revision. */
  ghost method HandOverAll(lib: Library, m: map<Id, ObState>, rev: Revision, before: map<Holder, ObState>)
    requires lib.Balanced() && PassedOn(lib.held, before, m, rev, {})
    modifies lib.states`refs, lib`held
    ensures lib.Balanced() && PassedOn(lib.held, before, m, rev, m.Keys)
  {
    var done: set<Id> := {};
    while done != m.Keys
      invariant done <= m.Keys
      invariant lib.Balanced() && PassedOn(lib.held, before, m, rev, done)
      decreases m.Keys - done
    {
      hide PassedOn, Library.Balanced;
      var ob :| ob in m && ob !in done;
      HandOverOne(lib, m, rev, before, done, ob);
      done := done + {ob};
    }
  }

  method GiveUpPrevious(lib: Library, rev: Revision, ghost m: map<Id, ObState>, ghost before: map<Holder, ObState>)
    requires lib.Balanced() && lib.StatesAreStorable() && rev in lib.live
    requires AlsoHeld(lib.held, before, m) && lib.SettledAs(before)
    requires m.Keys == rev.obstates.Keys
    modifies lib`states, lib`held, lib.states
    ensures lib.Balanced() && lib.StatesAreStorable() && lib.states <= old(lib.states)
    ensures PassedOn(lib.held, before, m, rev, {})
  {
    forall h | h in before && h.0 == rev
      ensures h.1 in m
    {
      assert h.0 != null && h.1 in rev.obstates;
    }
    PassedOnNone(lib.held, before, m, rev);
    forall ob | ob in rev.obstates
      ensures (rev, ob) in lib.held && lib.held[(rev, ob)] == rev.obstates[ob]
    {
      assert (rev, ob) in before;
    }
    hide AlsoHeld, PassedOn, Library.SettledAs;
    lib.DecRefcnts(rev.obstates, rev);
  }

  /** Whether the references are as they should be with a certain object map
      in place of the revision's own one. */
  ghost predicate IsSettledWith(lib: Library, rev: Revision, m: map<Id, ObState>)
    reads lib`live, lib`held, lib.live`obstates
  {
    && (forall r: Revision, ob {:trigger (r, ob) in lib.held} ::
          r in lib.live && ob in (if r == rev then m else r.obstates) ==>
            (r, ob) in lib.held && lib.held[(r, ob)] == (if r == rev then m else r.obstates)[ob])
    && (forall h {:trigger h in lib.held} :: h in lib.held ==>
          h.0 != null && h.0 in lib.live && h.1 in (if h.0 == rev then m else h.0.obstates))
  }

  lemma SettledOnceAssigned(lib: Library, rev: Revision, m: map<Id, ObState>, before: map<Holder, ObState>)
    requires rev in lib.live && lib.SettledAs(before)
    requires PassedOn(lib.held, before, m, rev, m.Keys)
    ensures IsSettledWith(lib, rev, m)
  {
    forall r: Revision, ob | r in lib.live && ob in (if r == rev then m else r.obstates)
      ensures (r, ob) in lib.held && lib.held[(r, ob)] == (if r == rev then m else r.obstates)[ob]
    {
      if r != rev {
        assert (r, ob) in before;
      }
    }
    forall h | h in lib.held
      ensures h.0 != null && h.0 in lib.live && h.1 in (if h.0 == rev then m else h.0.obstates)
    {
      assert h.0 != rev ==> h in before;
    }
  }

  method AssignMap(lib: Library, rev: Revision, m: map<Id, ObState>)
    requires lib.Balanced() && lib.StatesAreStorable() && rev in lib.live
    requires IsSettledWith(lib, rev, m)
    modifies rev`obstates
    ensures lib.Accounted() && rev.obstates == m
  {
    rev.obstates := m;
  }

  /** Replace the object map of a revision by a local object map. */
  method Adopt(lib: Library, rev: Revision, m: map<Id, ObState>, ghost before: map<Holder, ObState>)
    requires lib.Balanced() && lib.StatesAreStorable() && rev in lib.live
    requires AlsoHeld(lib.held, before, m) && lib.SettledAs(before)
    requires m.Keys == rev.obstates.Keys
    modifies lib`states, lib`held, lib.states, rev`obstates
    ensures forall s :: s in lib.states ==> s in old(lib.states) || fresh(s)
    ensures lib.Accounted() && rev.obstates == m
  {
    GiveUpPrevious(lib, rev, m, before);
    HandOverAll(lib, m, rev, before);
    SettledOnceAssigned(lib, rev, m, before);
    AssignMap(lib, rev, m);
  }

  /** Create the new states for all selected objects which the setting applies
      to. */
  method SetLocally(lib: Library, rev: Revision, sel: set<Id>, attr: Attribute, value: Value,
                    original: map<Id, ObState>, ghost before: map<Holder, ObState>)
    returns (ok: bool, m: map<Id, ObState>)
    requires HasType(attr, value)
    requires lib.Balanced() && lib.StatesAreStorable()
    requires original == rev.obstates && NULL !in original
    requires AlsoHeld(lib.held, before, original)
    modifies lib`states, lib`held, lib.states
    ensures lib.Balanced() && lib.StatesAreStorable() && AlsoHeld(lib.held, before, m)
    ensures forall s :: s in lib.states ==> s in old(lib.states) || fresh(s)
    ensures ok ==> IsSetTo(original, m, sel, attr, value, old(lib.states))
  {
    m := original;
    var keys := original.Keys;
    ghost var done: set<Id> := {};
    SetNothing(m, attr, value, lib.states);
    var i, j := Begin(keys), Begin(sel);
    MergeBegins(keys, sel);
    while i.Some? && j.Some?
      invariant InStep(keys, sel, i, j) && done == Common(keys, sel, i)
      invariant lib.Balanced() && lib.StatesAreStorable() && AlsoHeld(lib.held, before, m)
      invariant forall s :: s in lib.states ==> s in old(lib.states) || fresh(s)
      invariant IsSetTo(original, m, done, attr, value, old(lib.states))
      decreases Ahead(keys, i), Ahead(sel, j)
    {
      hide Common, IsSetTo, AlsoHeld, Ahead, Library.Balanced, Library.StatesAreStorable;
      if i.value < j.value {
        MergeSkipsKey(keys, sel, i, j);
        NextIsAhead(keys, i.value);
        i := Next(keys, i.value);
      } else if i.value > j.value {
        MergeSkipsSelected(keys, sel, i, j);
        NextIsAhead(sel, j.value);
        j := Next(sel, j.value);
      } else {
        var ob := i.value;
        MergeMeets(keys, sel, i, j);
        NextIsAhead(keys, ob);
        i, j := Next(keys, ob), Next(sel, ob);
        ghost var previous := m;
        if Applies(attr, original[ob].data, value) {
          ok, m := Replace(lib, m, ob, With(attr, original[ob].data, value).value, before);
          if !ok {
            return;
          }
        }
        SetOneMore(original, previous, done, attr, value, old(lib.states), ob, m);
        done := done + {ob};
      }
    }
    MergeEnds(keys, sel, i, j);
    SetSelected(original, m, sel, attr, value, old(lib.states));
    return true, m;
  }

  /** Set the value of an attribute for all selected objects which have it. */
  method SetAttr(lib: Library, rev: Revision, sel: set<Id>, attr: Attribute, value: Value) returns (r: Result<()>)
    requires lib.Valid() && rev in lib.live && HasType(attr, value)
    modifies lib`states, lib`held, lib.states, rev`obstates
    ensures forall s :: s in lib.states ==> s in old(lib.states) || fresh(s)
    ensures lib.Valid() && lib.OthersUntouched(rev)
    ensures rev.children == old(rev.children) && rev.parent == old(rev.parent)
    ensures r.Err? ==> rev.View() == old(rev.View())
    ensures if !rev.isTransient then r == Err(RevisionNotTransient) else r.Ok? || r == Err(OutOfMemory)
    ensures r.Ok? ==> IsSetTo(old(rev.obstates), rev.obstates, sel, attr, value, old(lib.states))
  {
    if !rev.isTransient {
      return Err(RevisionNotTransient);
    }
    var outOfMemory := *;
    if outOfMemory {
      return Err(OutOfMemory);
    }
    assert lib.IsWellFormed(rev);
    lib.StatesAreAllocated(rev);
    ghost var t, states := rev.View(), lib.states;
    var ok := SetAll(lib, rev, sel, attr, value);
    if !ok {
      lib.StaysValid(rev);
      return Err(OutOfMemory);
    }
    SetToKeepsForest(t, rev.obstates, sel, attr, value, states);
    lib.StaysValid(rev);
    return Ok(());
  }

  method SetAll(lib: Library, rev: Revision, sel: set<Id>, attr: Attribute, value: Value) returns (ok: bool)
    requires lib.Accounted() && rev in lib.live && HasType(attr, value)
    requires NULL !in rev.obstates && forall ob :: ob in rev.obstates ==> rev.obstates[ob] in lib.states
    modifies lib`states, lib`held, lib.states, rev`obstates
    ensures forall s :: s in lib.states ==> s in old(lib.states) || fresh(s)
    ensures lib.Accounted()
    ensures if ok then IsSetTo(old(rev.obstates), rev.obstates, sel, attr, value, old(lib.states))
            else rev.obstates == old(rev.obstates)
  {
    ghost var before := lib.held;
    var original := rev.obstates;
    var m := CopyMap(lib, rev);
    ok, m := SetLocally(lib, rev, sel, attr, value, original, before);
    if ok {
      Adopt(lib, rev, m, before);
    } else {
      Discard(lib, m, before);
    }
  }
}
