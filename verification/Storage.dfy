/** The bookkeeping of the library: which revisions are alive and who holds
    references to which object states. */
module Storage {
  import opened ObjectData
  import opened Forest
  import opened Wrappers

  datatype Error =
    | InvalidArgument
    | OutOfMemory
    | RevisionNotTransient
    | ObjectDoesntExist
    | InvalidObjectData
    | ParentDoesntExist
    | InvalidParent
    | InvalidExistingChild
    | SuccessorDoesntExist
    | SuccessorNotSibling

  datatype Result<+T> = Ok(value: T) | Err(error: Error)

  /** A holder of a counted reference: the entry for an object in the object
      map of a revision, or (null) in a local variable. */
  type Holder = (Revision?, Id)

  class Library {
    /** The last object id which has been given out. */
    var nextObjectId: Id
    /** The revisions which haven't been freed. */
    ghost var live: set<Revision>
    /** The object states which haven't been deallocated. */
    ghost var states: set<ObState>
    /** All counted references to object states. */
    ghost var held: map<Holder, ObState>

    constructor ()
      ensures Valid() && live == {} && states == {} && nextObjectId == NULL
    {
      nextObjectId := NULL;
      live := {};
      states := {};
      held := map[];
    }

    /** The reference counts agree with the references: each allocated state
        is counted once for each reference to it, no reference dangles, and a
        state without references isn't allocated any more. */
    ghost predicate Balanced()
      reads this`states, this`held, states`refcnt, states`refs
    {
      && (forall s :: s in states ==> s.refcnt == |s.refs| && s.refs != {})
      && (forall s, h :: s in states && h in s.refs ==> h in held && held[h] == s)
      && (forall h :: h in held ==> held[h] in states && h in held[h].refs)
    }

    /** The given references are those from the object maps of the live
        revisions. */
    ghost predicate SettledAs(held: map<Holder, ObState>)
      reads this`live, live`obstates
    {
      && (forall r: Revision, ob {:trigger (r, ob) in held} :: r in live && ob in r.obstates ==>
            (r, ob) in held && held[(r, ob)] == r.obstates[ob])
      && (forall h {:trigger h in held} :: h in held ==>
            h.0 != null && h.0 in live && h.1 in h.0.obstates)
    }

    /** Between calls, no references are held by local variables. */
    ghost predicate Settled()
      reads this`live, this`held, live`obstates
    {
      SettledAs(held)
    }

    /** All stored data is valid and normalized. */
    ghost predicate StatesAreStorable()
      reads this`states
    {
      forall s {:trigger Storable(s.data)} :: s in states ==> Storable(s.data)
    }

    ghost predicate Accounted()
      reads this`states, this`live, this`held, states`refcnt, states`refs, live`obstates
    {
      Balanced() && Settled() && StatesAreStorable()
    }

    ghost predicate IsWellFormed(rev: Revision)
      reads this`nextObjectId, rev`obstates, rev`children, rev`parent
    {
      && IsForest(rev.View())
      && forall k :: k in rev.obstates ==> k <= nextObjectId
    }

    /** The invariant of the library. */
    ghost predicate Valid()
      reads this, states, live
    {
      Accounted() && forall r {:trigger IsWellFormed(r)} :: r in live ==> IsWellFormed(r)
    }

    /** No revision except `rev` changes in any observable way, and no
        revision appears, disappears, or changes its transient flag. */
    twostate predicate OthersUntouched(rev: Revision)
      reads this, live
    {
      && live == old(live)
      && (forall r :: r in old(live) ==> r.isTransient == old(r.isTransient))
      && (forall r :: r in old(live) && r != rev ==> r.View() == old(r.View()))
    }

    lemma StatesAreAllocated(r: Revision)
      requires Valid() && r in live
      ensures forall ob :: ob in r.obstates ==> r.obstates[ob] in states
    {
      forall ob | ob in r.obstates
        ensures r.obstates[ob] in states
      {
        assert (r, ob) in held;
      }
    }

    /** The references are settled again once an object map contains the state
        whose reference it has been given. */
    twostate lemma StaysSettled(new rev: Revision, ob: Id, new s: ObState)
      requires rev in live && live == old(live)
      requires old(SettledAs(held - {(null, ob)}))
      requires forall r :: r in live && r != rev ==> r.obstates == old(r.obstates)
      requires rev.obstates == old(rev.obstates)[ob := s]
      requires held == (old(held) - {(null, ob)})[(rev, ob) := s]
      ensures Settled()
    {
      forall h | h in held
        ensures h.0 != null && h.0 in live && h.1 in h.0.obstates
      {
        assert h == (rev, ob) || h in old(held) - {(null, ob)};
      }
    }

    twostate lemma StaysSettledWithout(new rev: Revision, ob: Id)
      requires rev in live && live == old(live)
      requires old(Settled())
      requires forall r :: r in live && r != rev ==> r.obstates == old(r.obstates)
      requires rev.obstates == old(rev.obstates) - {ob}
      requires held == old(held) - {(rev, ob)}
      ensures Settled()
    {
      forall h | h in held
        ensures h.0 != null && h.0 in live && h.1 in h.0.obstates
      {
        assert h in old(held) && h == (h.0, h.1);
      }
    }

    /** A revision stays well-formed as long as it isn't touched, and so is a
        copy of it. */
    twostate lemma StaysWellFormed(new r: Revision, src: Revision)
      requires old(IsWellFormed(src))
      requires r.View() == old(src.View())
      requires old(nextObjectId) <= nextObjectId
      ensures IsWellFormed(r)
    {
    }

    /** Validity after an operation which changes at most one revision. */
    twostate lemma StaysValid(new rev: Revision)
      requires old(Valid())
      requires old(nextObjectId) <= nextObjectId
      requires forall r :: r in live && r != rev ==> r in old(live) && r.View() == old(r.View())
      requires rev in live ==> IsWellFormed(rev)
      requires Accounted()
      ensures Valid()
    {
      forall r | r in live && r != rev
        ensures IsWellFormed(r)
      {
        StaysWellFormed(r, r);
      }
    }

    /** The pairs of a live revision and an object which has a certain state
        in it. */
    ghost function Users(s: ObState): set<Holder>
      reads this`live, live`obstates
    {
      set r, ob | r in live && ob in r.obstates && r.obstates[ob] == s :: (r, ob)
    }

    /** The reference count of each allocated state is exactly the number of
        its users, and the allocated states are exactly those with users. */
    lemma RefcountIsExact(s: ObState)
      requires Valid()
      ensures s in states ==> s.refcnt == |Users(s)|
      ensures s in states <==> Users(s) != {}
    {
      forall r, ob | r in live && ob in r.obstates
        ensures r.obstates[ob] in states
      {
        assert (r, ob) in held;
      }
      if s in states {
        var pairs := Users(s);
        forall h
          ensures h in s.refs <==> h in pairs
        {
          assert h == (h.0, h.1);
          assert h in s.refs || h in pairs ==> h in held;
        }
        assert s.refs == pairs;
        var h :| h in s.refs;
        assert h in held;
      }
    }

    /** Count a new reference to a state. */
    method IncRefcnt(s: ObState, ghost h: Holder)
      requires Balanced() && s in states && h !in held
      modifies s, this`held
      ensures Balanced() && held == old(held)[h := s]
    {
      s.refcnt := s.refcnt + 1;
      assert h !in s.refs;
      s.refs := s.refs + {h};
      held := held[h := s];
    }

    /** Give up a reference to a state; deallocate it if it was the last one. */
    method DecRefcnt(s: ObState, ghost h: Holder)
      requires Balanced() && h in held && held[h] == s
      modifies s, this`states, this`held
      ensures Balanced() && held == old(held) - {h}
      ensures states == old(states) || states == old(states) - {s}
    {
      s.refcnt := s.refcnt - 1;
      s.refs := s.refs - {h};
      held := held - {h};
      assert s.refcnt == |s.refs|;
      if s.refcnt == 0 {
        assert s.refs == {};
        states := states - {s};
      }
    }

    /** Create a new state, holding it in a local variable. */
    method NewState(data: Data<nat, nat>, ghost h: Holder) returns (s: ObState)
      requires DataIsValid(data)
      requires Balanced() && StatesAreStorable() && h !in held
      modifies this`states, this`held
      ensures fresh(s) && s.data == Normalize(data)
      ensures states == old(states) + {s} && held == old(held)[h := s]
      ensures Balanced() && StatesAreStorable()
    {
      s := new ObState(data, h.0, h.1);
      NormalizeMakesStorable(data);
      states := states + {s};
      held := held[h := s];
    }

    /** Pass a reference on from one holder to another. */
    ghost method HandOver(s: ObState, from: Holder, to: Holder)
      requires Balanced()
      requires from in held && held[from] == s && to !in held
      modifies s`refs, this`held
      ensures Balanced() && held == (old(held) - {from})[to := s]
    {
      assert to !in s.refs;
      s.refs := s.refs - {from} + {to};
      held := (held - {from})[to := s];
    }

    /** The holders which stand for the entries of an object map. */
    static ghost function Entries(r: Revision?, obs: set<Id>): set<Holder> {
      set ob | ob in obs :: (r, ob)
    }

    /** Count the references of a whole object map. */
    method IncRefcnts(m: map<Id, ObState>, ghost r: Revision?)
      requires Balanced()
      requires forall ob :: ob in m ==> m[ob] in states && (r, ob) !in held
      modifies states, this`held
      ensures Balanced()
      ensures held.Keys == old(held.Keys) + Entries(r, m.Keys)
      ensures forall h :: h in held ==> held[h] == if h in old(held) then old(held)[h] else m[h.1]
    {
      var todo := m.Keys;
      ghost var done: set<Id> := {};
      while todo != {}
        invariant todo <= m.Keys && done == m.Keys - todo
        invariant Balanced()
        invariant held.Keys == old(held.Keys) + Entries(r, done)
        invariant forall h :: h in held ==> held[h] == if h in old(held) then old(held)[h] else m[h.1]
        decreases todo
      {
        var ob :| ob in todo;
        assert (r, ob) !in Entries(r, done);
        IncRefcnt(m[ob], (r, ob));
        todo := todo - {ob};
        done := done + {ob};
      }
    }

    /** Give up the references of a whole object map. */
    method DecRefcnts(m: map<Id, ObState>, ghost r: Revision?)
      requires Balanced()
      requires forall ob :: ob in m ==> (r, ob) in held && held[(r, ob)] == m[ob]
      modifies this`states, states, this`held
      ensures Balanced()
      ensures held == old(held) - Entries(r, m.Keys)
      ensures states <= old(states)
    {
      var todo := m.Keys;
      ghost var done: set<Id> := {};
      while todo != {}
        invariant todo <= m.Keys && done == m.Keys - todo
        invariant Balanced()
        invariant held == old(held) - Entries(r, done)
        invariant forall ob :: ob in todo ==> (r, ob) in held && held[(r, ob)] == m[ob]
        invariant states <= old(states)
        decreases todo
      {
        var ob :| ob in todo;
        OneMoreEntry(r, done, ob, old(held));
        DecRefcnt(m[ob], (r, ob));
        todo := todo - {ob};
        done := done + {ob};
      }
    }

    static lemma OneMoreEntry(r: Revision?, obs: set<Id>, ob: Id, held: map<Holder, ObState>)
      ensures Entries(r, obs + {ob}) == Entries(r, obs) + {(r, ob)}
      ensures held - Entries(r, obs) - {(r, ob)} == held - Entries(r, obs + {ob})
    {
      assert Entries(r, obs + {ob}) == Entries(r, obs) + {(r, ob)};
    }
  }
}
