/** Creating, copying, finalizing and freeing revisions. */
module Revisions {
  import opened ObjectData
  import opened Forest
  import opened Storage
  import opened Wrappers

  /** Create an empty revision. */
  method NewRevision(lib: Library) returns (r: Option<Revision>)
    requires lib.Valid()
    modifies lib`live
    ensures lib.Valid() && lib.states == old(lib.states)
    ensures r.None? ==> lib.live == old(lib.live)
    ensures r.Some? ==>
      && fresh(r.value) && lib.live == old(lib.live) + {r.value}
      && r.value.isTransient && r.value.View() == EMPTY
  {
    var outOfMemory := *;
    if outOfMemory {
      return None;
    }
    var rev := new Revision(map[], map[], map[]);
    EmptyIsForest();
    lib.live := lib.live + {rev};
    lib.StaysValid(rev);
    return Some(rev);
  }

  /** Create a transient copy of a revision which shares all object states
      with it. */
  method CopyRevision(lib: Library, src: Revision) returns (r: Option<Revision>)
    requires lib.Valid() && src in lib.live
    modifies lib`live, lib`held, lib.states
    ensures lib.Valid() && lib.states == old(lib.states)
    ensures r.None? ==> lib.live == old(lib.live)
    ensures r.Some? ==>
      && fresh(r.value) && lib.live == old(lib.live) + {r.value}
      && r.value.isTransient && r.value.View() == src.View()
  {
    var outOfMemory := *;
    if outOfMemory {
      return None;
    }
    var rev := new Revision(src.obstates, src.children, src.parent);
    lib.StatesAreAllocated(src);
    lib.IncRefcnts(rev.obstates, rev);
    lib.live := lib.live + {rev};
    assert old(lib.IsWellFormed(src));
    lib.StaysWellFormed(rev, src);
    lib.StaysValid(rev);
    return Some(rev);
  }

  /** Prevent further changes to a revision. */
  method FinalizeRevision(lib: Library, rev: Revision)
    requires lib.Valid() && rev in lib.live
    modifies rev`isTransient
    ensures lib.Valid() && !rev.isTransient
    ensures rev.View() == old(rev.View())
  {
    rev.isTransient := false;
  }

  /** Free a revision.  Object states which no other revision uses are
      deallocated. */
  method FreeRevision(lib: Library, rev: Revision)
    requires lib.Valid() && rev in lib.live
    modifies lib`live, lib`states, lib`held, lib.states
    ensures lib.Valid() && lib.live == old(lib.live) - {rev}
    ensures lib.states <= old(lib.states)
  {
    lib.DecRefcnts(rev.obstates, rev);
    lib.live := lib.live - {rev};
    lib.StaysValid(rev);
  }
}
