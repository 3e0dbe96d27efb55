/** Arbitrary sequences of library calls on any number of revisions.  Every
    call keeps the invariant of the library, and no call is observable in
    another revision than the one it operates on. */
module Session {
  import opened ObjectData
  import opened Forest
  import opened Storage
  import opened Wrappers
  import opened Revisions
  import opened Manipulate
  import opened Relocating
  import opened Deleting
  import opened Copying
  import opened CopySelection
  import opened Attributes
  import opened SettingAttributes

  /** A call; revisions are given as indices into the list of all revisions
      which have been created. */
  datatype Call =
    | New
    | Copy(src: nat)
    | Finalize(rev: nat)
    | Free(rev: nat)
    | Add(rev: nat, data: Option<Datum>)
    | SetData(rev: nat, ob: Id, data: Option<Datum>)
    | Relocate(rev: nat, ob: Id, attachTo: Id, insertBefore: Id)
    | Delete(rev: nat, ob: Id)
    | DeleteSelected(rev: nat, sel: set<Id>)
    | CopyOb(rev: nat, src: nat, ob: Id)
    | CopySelected(rev: nat, src: nat, sel: set<Id>)
    | SetAttribute(rev: nat, sel: set<Id>, attr: Attribute, value: Value)

  /** The revision a call operates on. */
  function Target(c: Call): Option<nat> {
    if c.New? || c.Copy? then None else Some(c.rev)
  }

  function Source(c: Call): Option<nat> {
    if c.Copy? || c.CopyOb? || c.CopySelected? then Some(c.src) else None
  }

  /** What the library demands of its callers: all revisions exist, objects
      have been returned by the library, and values have the right type. */
  predicate IsPermitted(lastId: Id, alive: set<nat>, c: Call) {
    && (Target(c).Some? ==> Target(c).value in alive)
    && (Source(c).Some? ==> Source(c).value in alive)
    && (c.SetData? ==> NULL < c.ob <= lastId)
    && (c.CopySelected? ==> forall k :: k in c.sel ==> k <= lastId)
    && (c.SetAttribute? ==> HasType(c.attr, c.value))
  }

  /** Which of the revisions that have been created are still alive. */
  ghost predicate IsTable(lib: Library, revs: seq<Revision>, alive: set<nat>)
    reads lib`live
  {
    && (forall i, j :: 0 <= i < j < |revs| ==> revs[i] != revs[j])
    && (forall i :: i in alive ==> i < |revs| && revs[i] in lib.live)
    && (forall i :: 0 <= i < |revs| && revs[i] in lib.live ==> i in alive)
    && (forall r :: r in lib.live ==> r in revs)
  }

  /** All revisions but one are still there and can't be told from before. */
  twostate predicate Isolated(lib: Library, rev: Revision?)
    reads lib, lib.live
  {
    && (forall r :: r in old(lib.live) && r != rev ==> r in lib.live)
    && (forall r :: r in old(lib.live) && r != rev ==> r.isTransient == old(r.isTransient))
    && (forall r :: r in old(lib.live) && r != rev ==> r.View() == old(r.View()))
  }

  /** A revision which has been finalized can only be freed. */
  twostate predicate FinalIsFinal(lib: Library)
    reads lib, lib.live
  {
    forall r :: r in old(lib.live) && !old(r.isTransient) && r in lib.live ==>
      !r.isTransient && r.View() == old(r.View())
  }

  /** Make a call. */
  method Step(lib: Library, revs: seq<Revision>, alive: set<nat>, c: Call)
    returns (newRevs: seq<Revision>, newAlive: set<nat>)
    requires lib.Valid() && IsTable(lib, revs, alive)
    requires IsPermitted(lib.nextObjectId, alive, c)
    modifies lib, lib.live, lib.states
    ensures lib.Valid() && IsTable(lib, newRevs, newAlive)
    ensures lib.nextObjectId >= old(lib.nextObjectId)
    ensures Isolated(lib, if Target(c).Some? then revs[Target(c).value] else null)
    ensures FinalIsFinal(lib)
    ensures revs <= newRevs
    ensures forall r :: r in lib.live ==> r in old(lib.live) || fresh(r)
    ensures forall s :: s in lib.states ==> s in old(lib.states) || fresh(s)
  {
    newRevs, newAlive := revs, alive;
    if c.New? || c.Copy? {
      var r := Create(lib, if c.New? then None else Some(revs[c.src]));
      if r.Some? {
        newRevs, newAlive := revs + [r.value], alive + {|revs|};
      }
    } else if c.Free? {
      FinishOrFree(lib, revs[c.rev], true);
      newAlive := alive - {c.rev};
    } else if c.Finalize? {
      FinishOrFree(lib, revs[c.rev], false);
    } else {
      Change(lib, revs, alive, revs[c.rev], c);
    }
  }

  method Create(lib: Library, src: Option<Revision>) returns (r: Option<Revision>)
    requires lib.Valid() && (src.Some? ==> src.value in lib.live)
    modifies lib, lib.states
    ensures lib.Valid() && lib.nextObjectId >= old(lib.nextObjectId)
    ensures Isolated(lib, null) && FinalIsFinal(lib)
    ensures lib.live == old(lib.live) + if r.Some? then {r.value} else {}
    ensures r.Some? ==> fresh(r.value)
    ensures lib.states == old(lib.states)
  {
    hide Library.Valid;
    if src.None? {
      r := NewRevision(lib);
    } else {
      r := CopyRevision(lib, src.value);
    }
  }

  method FinishOrFree(lib: Library, rev: Revision, free: bool)
    requires lib.Valid() && rev in lib.live
    modifies lib, rev, lib.states
    ensures lib.Valid() && lib.nextObjectId >= old(lib.nextObjectId)
    ensures Isolated(lib, rev) && FinalIsFinal(lib)
    ensures lib.live == if free then old(lib.live) - {rev} else old(lib.live)
    ensures forall s :: s in lib.states ==> s in old(lib.states)
  {
    hide Library.Valid;
    if free {
      FreeRevision(lib, rev);
    } else {
      FinalizeRevision(lib, rev);
    }
  }

  method Change(lib: Library, revs: seq<Revision>, alive: set<nat>, rev: Revision, c: Call)
    requires lib.Valid() && IsTable(lib, revs, alive)
    requires IsPermitted(lib.nextObjectId, alive, c)
    requires Target(c).Some? && !c.Finalize? && !c.Free? && rev == revs[c.rev]
    modifies lib, rev, lib.states
    ensures lib.Valid() && lib.nextObjectId >= old(lib.nextObjectId)
    ensures lib.OthersUntouched(rev)
    ensures !rev.isTransient ==> rev.View() == old(rev.View())
    ensures forall s :: s in lib.states ==> s in old(lib.states) || fresh(s)
  {
    hide Library.Valid, Library.OthersUntouched;
    match c
    case Add(_, data) => var _ := AddObject(lib, rev, data);
    case SetData(_, ob, data) => var _ := SetObjectData(lib, rev, ob, data);
    case Relocate(_, ob, attachTo, insertBefore) => var _ := RelocateObject(lib, rev, ob, attachTo, insertBefore);
    case Delete(_, ob) => var _ := DeleteObject(lib, rev, ob);
    case DeleteSelected(_, sel) => var _ := DeleteSelectedObjects(lib, rev, sel);
    case CopyOb(_, src, ob) => var _ := CopyObject(lib, rev, revs[src], ob);
    case CopySelected(_, src, sel) => var _ := CopyObjects(lib, rev, revs[src], sel);
    case SetAttribute(_, sel, attr, value) => var _ := SetAttr(lib, rev, sel, attr, value);
  }

  /** Make any number of calls, leaving out those which aren't permitted.
      A revision which isn't operated on stays as it is. */
  method Run(lib: Library, revs: seq<Revision>, alive: set<nat>, calls: seq<Call>)
    returns (newRevs: seq<Revision>, newAlive: set<nat>)
    requires lib.Valid() && IsTable(lib, revs, alive)
    modifies lib, lib.live, lib.states
    ensures lib.Valid() && IsTable(lib, newRevs, newAlive)
    ensures revs <= newRevs
    ensures forall i :: i in alive && (forall c :: c in calls ==> Target(c) != Some(i)) ==>
      && i in newAlive
      && revs[i].isTransient == old(revs[i].isTransient)
      && revs[i].View() == old(revs[i].View())
    ensures forall i :: i in alive && i in newAlive && !old(revs[i].isTransient) ==>
      !revs[i].isTransient && revs[i].View() == old(revs[i].View())
  {
    newRevs, newAlive := revs, alive;
    var k := 0;
    while k < |calls|
      invariant k <= |calls|
      invariant lib.Valid() && IsTable(lib, newRevs, newAlive)
      invariant revs <= newRevs
      invariant forall r :: r in lib.live ==> r in old(lib.live) || fresh(r)
      invariant forall s :: s in lib.states ==> s in old(lib.states) || fresh(s)
      invariant forall i :: i in alive && (forall c :: c in calls[..k] ==> Target(c) != Some(i)) ==>
        && i in newAlive
        && revs[i].isTransient == old(revs[i].isTransient)
        && revs[i].View() == old(revs[i].View())
      invariant forall i :: i in alive && i in newAlive && !old(revs[i].isTransient) ==>
        !revs[i].isTransient && revs[i].View() == old(revs[i].View())
    {
      hide Library.Valid;
      if IsPermitted(lib.nextObjectId, newAlive, calls[k]) {
        newRevs, newAlive := Step(lib, newRevs, newAlive, calls[k]);
      }
      k := k + 1;
    }
  }

  /** Whatever calls are made, each allocated state is counted once for each
      object of a living revision which has it, no unused state is allocated,
      all stored data is valid, and all revisions are forests. */
  method RunFromScratch(calls: seq<Call>) returns (lib: Library, revs: seq<Revision>, alive: set<nat>)
    ensures fresh(lib) && lib.Valid() && IsTable(lib, revs, alive)
    ensures forall s :: s in lib.states ==> s.refcnt == |lib.Users(s)| > 0 && Storable(s.data)
    ensures forall i, ob :: i in alive && ob in revs[i].obstates ==> revs[i].obstates[ob] in lib.states
    ensures forall i :: i in alive ==> IsForest(revs[i].View())
  {
    lib := new Library();
    revs, alive := Run(lib, [], {}, calls);
    forall s | s in lib.states
      ensures s.refcnt == |lib.Users(s)| > 0 && Storable(s.data)
    {
      lib.RefcountIsExact(s);
    }
    forall i, ob | i in alive && ob in revs[i].obstates
      ensures revs[i].obstates[ob] in lib.states
    {
      lib.StatesAreAllocated(revs[i]);
    }
    forall i | i in alive
      ensures IsForest(revs[i].View())
    {
      assert lib.IsWellFormed(revs[i]);
    }
  }
}
