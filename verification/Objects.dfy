/** Finding out which objects are in a revision and where they are. */
module Objects {
  import opened ObjectData
  import opened Forest
  import opened Storage
  import opened Wrappers
  import opened Cursors
  import opened Sequences

  // Location

  /** The object to which an object is attached, and its index in the list of
      objects attached there. */
  method GetObjectLocation(lib: Library, rev: Revision, ob: Id) returns (r: Option<(Id, nat)>)
    requires lib.Valid() && rev in lib.live
    ensures r.None? <==> ob !in rev.obstates
    ensures r.Some? ==> forall p, i ::
      (0 <= i < |Kids(rev.View(), p)| && Kids(rev.View(), p)[i] == ob) <==> (p == r.value.0 && i == r.value.1)
  {
    assert lib.IsWellFormed(rev);
    if ob !in rev.parent {
      return None;
    }
    OccursOnce(rev.View(), ob);
    var p := rev.parent[ob];
    r := Some((p, IndexOf(rev.children[p], ob)));
  }

  // All objects of a revision

  /** Some objects, each followed by what is attached to it, up to `depth`
      levels below. */
  ghost function Listing(t: Tree, obs: seq<Id>, depth: nat): seq<Id>
    decreases depth, 1, |obs|
  {
    if obs == [] then []
    else [obs[0]] + Below(t, obs[0], depth) + Listing(t, obs[1..], depth)
  }

  ghost function Below(t: Tree, p: Id, depth: nat): seq<Id>
    decreases depth, 0
  {
    if depth == 0 then [] else Listing(t, Kids(t, p), depth - 1)
  }

  /** Whether there are at most `depth` levels below an object. */
  ghost predicate IsWithin(t: Tree, p: Id, depth: nat)
    decreases depth
  {
    if depth == 0 then Kids(t, p) == []
    else forall k :: k in Kids(t, p) ==> IsWithin(t, k, depth - 1)
  }

  lemma ForestIsWithin(t: Tree)
    requires IsForest(t)
    ensures IsWithin(t, NULL, 2)
  {
    KidsAreChildren(t, NULL);
    forall k | k in Kids(t, NULL)
      ensures IsWithin(t, k, 1)
    {
      KidsAreChildren(t, k);
      assert k != NULL;
    }
  }

  lemma {:induction false} ListingSplits(t: Tree, a: seq<Id>, b: seq<Id>, depth: nat)
    ensures Listing(t, a + b, depth) == Listing(t, a, depth) + Listing(t, b, depth)
  {
    if a == [] {
      assert a + b == b;
    } else {
      hide Below;
      ListingSplits(t, a[1..], b, depth);
      assert (a + b)[1..] == a[1..] + b;
      Associative([a[0]] + Below(t, a[0], depth), Listing(t, a[1..], depth), Listing(t, b, depth));
    }
  }

  lemma {:induction false} ListingOfLeaves(t: Tree, obs: seq<Id>)
    ensures Listing(t, obs, 0) == obs
  {
    if obs != [] {
      ListingOfLeaves(t, obs[1..]);
      assert obs == [obs[0]] + obs[1..];
    }
  }

  ghost function AllObjects(t: Tree): seq<Id> {
    Below(t, NULL, 2)
  }

  /** What is listed for some toplevel objects: these and the objects attached
      to them, each of them once. */
  lemma {:induction false} ListedOnce(t: Tree, obs: seq<Id>)
    requires IsForest(t) && NULL !in obs && NoDuplicates(obs)
    requires forall k :: k in obs ==> k in t.parent && t.parent[k] == NULL
    ensures
      var s := Listing(t, obs, 1);
      && NoDuplicates(s)
      && forall k :: k in s <==> k in obs || (k in t.parent && t.parent[k] in obs)
  {
    hide IsForest, Kids;
    if obs != [] {
      var rest := Listing(t, obs[1..], 1);
      assert obs == [obs[0]] + obs[1..];
      ListedOnce(t, obs[1..]);
      var kids := Kids(t, obs[0]);
      KidsAreChildren(t, obs[0]);
      ListingOfLeaves(t, kids);
      assert Listing(t, obs, 1) == [obs[0]] + kids + rest;
      JoinedWithoutDuplicates(obs[0], kids, rest);
    }
  }

  lemma JoinedWithoutDuplicates(ob: Id, kids: seq<Id>, rest: seq<Id>)
    requires NoDuplicates(kids) && NoDuplicates(rest)
    requires ob !in kids && ob !in rest && forall k :: k in kids ==> k !in rest
    ensures NoDuplicates([ob] + kids + rest)
  {
    var s := [ob] + kids + rest;
    forall i, j | 0 <= i < j < |s|
      ensures s[i] != s[j]
    {
      if j <= |kids| {
        assert s[j] == kids[j - 1] && kids[j - 1] in kids;
      } else {
        assert s[j] == rest[j - 1 - |kids|] && s[j] in rest;
      }
      if 0 < i <= |kids| {
        assert s[i] == kids[i - 1] && s[i] in kids;
      }
    }
  }

  lemma {:induction false} SizeWithoutDuplicates(s: seq<Id>, members: set<Id>)
    requires NoDuplicates(s) && forall k :: k in s <==> k in members
    ensures |s| == |members|
  {
    if s == [] {
      assert members == {};
    } else {
      var n := |s| - 1;
      assert forall k :: k in s <==> k in s[..n] || k == s[n];
      assert forall k :: k in s[..n] ==> k != s[n];
      SizeWithoutDuplicates(s[..n], members - {s[n]});
    }
  }

  /** Each object of a revision is listed exactly once, so the listing exactly
      fits into a buffer with room for all objects. */
  lemma AllObjectsOnce(t: Tree)
    requires IsForest(t)
    ensures NoDuplicates(AllObjects(t))
    ensures forall k :: k in AllObjects(t) <==> k in t.states
    ensures |AllObjects(t)| == |t.states|
  {
    KidsAreChildren(t, NULL);
    ListedOnce(t, Kids(t, NULL));
    forall k
      ensures k in AllObjects(t) <==> k in t.states
    {
      if k in t.parent && t.parent[k] != NULL {
        DepthTwo(t, k);
      }
    }
    SizeWithoutDuplicates(AllObjects(t), t.states.Keys);
  }

  /** Directly after a toplevel object come the objects attached to it. */
  lemma AttachedObjectsFollow(t: Tree, n: nat)
    requires IsForest(t) && n < |Kids(t, NULL)|
    ensures
      var ob := Kids(t, NULL)[n];
      var i := |Listing(t, Kids(t, NULL)[..n], 1)|;
      var s := AllObjects(t);
      i < |s| && s[i] == ob && Kids(t, ob) <= s[i + 1..]
  {
    hide IsForest, Kids;
    var obs := Kids(t, NULL);
    assert obs == obs[..n] + obs[n..];
    ListingSplits(t, obs[..n], obs[n..], 1);
    ListingOfLeaves(t, Kids(t, obs[n]));
    var before, after := Listing(t, obs[..n], 1), Listing(t, obs[n..][1..], 1);
    assert AllObjects(t) == before + ([obs[n]] + Kids(t, obs[n]) + after);
    assert AllObjects(t)[|before| + 1..] == Kids(t, obs[n]) + after;
  }

  function SelectAttached(t: Tree, s: seq<Id>, p: Id): seq<Id> {
    if s == [] then [] else SelectOne(t, s[0], p) + SelectAttached(t, s[1..], p)
  }

  function SelectOne(t: Tree, k: Id, p: Id): seq<Id> {
    if k in t.parent && t.parent[k] == p then [k] else []
  }

  /** The listing has the objects attached to the same object in their
      order. */
  lemma AllObjectsKeepsOrder(t: Tree, p: Id)
    requires IsForest(t)
    ensures SelectAttached(t, AllObjects(t), p) == Kids(t, p)
  {
    KidsAreChildren(t, NULL);
    ListingKeepsOrder(t, Kids(t, NULL), p);
    if p != NULL && p !in Kids(t, NULL) {
      KidsAreChildren(t, p);
      forall k
        ensures k !in Kids(t, p)
      {
        if k in Kids(t, p) {
          DepthTwo(t, k);
        }
      }
      EmptyIfNoMembers(Kids(t, p));
    }
  }

  lemma {:induction false} ListingKeepsOrder(t: Tree, obs: seq<Id>, p: Id)
    requires IsForest(t) && NoDuplicates(obs) && NULL !in obs
    requires forall k :: k in obs ==> k in t.parent && t.parent[k] == NULL
    ensures SelectAttached(t, Listing(t, obs, 1), p) ==
      if p == NULL then obs else if p in obs then Kids(t, p) else []
  {
    hide IsForest, Kids, SelectAttached;
    if obs != [] {
      assert obs == [obs[0]] + obs[1..];
      ListingKeepsOrder(t, obs[1..], p);
      var kids, rest := Kids(t, obs[0]), Listing(t, obs[1..], 1);
      ListingOfLeaves(t, kids);
      Associative([obs[0]], kids, rest);
      assert Listing(t, obs, 1) == [obs[0]] + (kids + rest);
      SelectAttachedSplits(t, [obs[0]], kids + rest, p);
      SelectAttachedSplits(t, kids, rest, p);
      SelectFamily(t, obs[0], p);
      SelectSingle(t, obs[0], p);
    } else {
      SelectAttachedNone(t, [], p);
    }
  }

  lemma SelectSingle(t: Tree, ob: Id, p: Id)
    ensures SelectAttached(t, [ob], p) == SelectOne(t, ob, p)
  {
  }

  lemma SelectFamily(t: Tree, ob: Id, p: Id)
    requires IsForest(t) && ob != NULL
    ensures SelectAttached(t, Kids(t, ob), p) == if p == ob then Kids(t, ob) else []
  {
    KidsAreChildren(t, ob);
    if p == ob {
      SelectAttachedAll(t, Kids(t, ob), p);
    } else {
      SelectAttachedNone(t, Kids(t, ob), p);
    }
  }

  lemma {:induction false} SelectAttachedSplits(t: Tree, a: seq<Id>, b: seq<Id>, p: Id)
    ensures SelectAttached(t, a + b, p) == SelectAttached(t, a, p) + SelectAttached(t, b, p)
  {
    hide SelectOne;
    if a == [] {
      assert a + b == b;
    } else {
      SelectAttachedSplits(t, a[1..], b, p);
      assert (a + b)[1..] == a[1..] + b;
      Associative(SelectOne(t, a[0], p), SelectAttached(t, a[1..], p), SelectAttached(t, b, p));
    }
  }

  lemma {:induction false} SelectAttachedAll(t: Tree, s: seq<Id>, p: Id)
    requires forall k :: k in s ==> k in t.parent && t.parent[k] == p
    ensures SelectAttached(t, s, p) == s
  {
    if s != [] {
      assert s == [s[0]] + s[1..];
      SelectAttachedAll(t, s[1..], p);
    }
  }

  lemma {:induction false} SelectAttachedNone(t: Tree, s: seq<Id>, p: Id)
    requires forall k :: k in s ==> k in t.parent && t.parent[k] != p
    ensures SelectAttached(t, s, p) == []
  {
    if s != [] {
      assert s == [s[0]] + s[1..];
      SelectAttachedNone(t, s[1..], p);
    }
  }

  /** Append an object to the objects written to a buffer so far. */
  method Write(buffer: array<Id>, count: nat, ob: Id) returns (newCount: nat)
    requires count < buffer.Length
    modifies buffer
    ensures newCount == count + 1
    ensures buffer[..newCount] == old(buffer[..count]) + [ob]
  {
    buffer[count] := ob;
    return count + 1;
  }

  /** Write the objects attached to an object to a buffer, each followed by
      the objects attached to it. */
  method DumpChildren(rev: Revision, attachedTo: Id, buffer: array<Id>, count: nat, ghost depth: nat)
    returns (newCount: nat)
    requires IsWithin(rev.View(), attachedTo, depth)
    requires count + |Below(rev.View(), attachedTo, depth)| <= buffer.Length
    modifies buffer
    ensures newCount == count + |Below(rev.View(), attachedTo, depth)|
    ensures buffer[..newCount] == old(buffer[..count]) + Below(rev.View(), attachedTo, depth)
    decreases depth, 0
  {
    ghost var t := rev.View();
    newCount := count;
    if attachedTo !in rev.children {
      return;
    }
    KidsAreListed(t, attachedTo, depth);
    ghost var below := if depth == 0 then 0 else depth - 1;
    hide Kids, IsWithin, Below, Listing;
    var children := rev.children[attachedTo];
    var j := 0;
    assert children[..0] == [];
    ghost var start := buffer[..count];
    while j < |children|
      invariant j <= |children|
      invariant newCount + |Listing(t, children[j..], below)| <= buffer.Length
      invariant buffer[..newCount] == start + Listing(t, children[..j], below)
    {
      ListOneMore(t, children, j, below);
      Associative(start, Listing(t, children[..j], below), [children[j]] + Below(t, children[j], below));
      KidIsWithin(t, attachedTo, depth, children[j]);
      newCount := DumpOne(rev, children[j], buffer, newCount, below);
      j := j + 1;
    }
    assert children[..j] == children;
  }

  method DumpOne(rev: Revision, ob: Id, buffer: array<Id>, count: nat, ghost depth: nat)
    returns (newCount: nat)
    requires IsWithin(rev.View(), ob, depth)
    requires count + 1 + |Below(rev.View(), ob, depth)| <= buffer.Length
    modifies buffer
    ensures newCount == count + |[ob] + Below(rev.View(), ob, depth)|
    ensures buffer[..newCount] == old(buffer[..count]) + ([ob] + Below(rev.View(), ob, depth))
    decreases depth, 1
  {
    newCount := Write(buffer, count, ob);
    newCount := DumpChildren(rev, ob, buffer, newCount, depth);
  }

  lemma KidIsWithin(t: Tree, p: Id, depth: nat, k: Id)
    requires IsWithin(t, p, depth) && k in Kids(t, p)
    ensures depth > 0 && IsWithin(t, k, depth - 1)
  {
  }

  lemma KidsAreListed(t: Tree, p: Id, depth: nat)
    requires IsWithin(t, p, depth)
    ensures Below(t, p, depth) == Listing(t, Kids(t, p), if depth == 0 then 0 else depth - 1)
    ensures Listing(t, [], if depth == 0 then 0 else depth - 1) == []
    ensures Kids(t, p) == if p in t.children then t.children[p] else []
  {
  }

  lemma ListOneMore(t: Tree, obs: seq<Id>, j: nat, depth: nat)
    requires j < |obs|
    ensures Listing(t, obs[..j + 1], depth) == Listing(t, obs[..j], depth) + ([obs[j]] + Below(t, obs[j], depth))
    ensures Listing(t, obs[j..], depth) == [obs[j]] + Below(t, obs[j], depth) + Listing(t, obs[j + 1..], depth)
  {
    assert obs[..j + 1] == obs[..j] + [obs[j]];
    ListingSplits(t, obs[..j], [obs[j]], depth);
    assert obs[j..][1..] == obs[j + 1..];
  }

  /** A list of all objects in a revision.  There may only be too little memory
      for a list which isn't empty. */
  method GetObjects(lib: Library, rev: Revision) returns (objects: Option<array<Id>>, count: nat)
    requires lib.Valid() && rev in lib.live
    ensures rev.obstates == map[] ==> objects.Some?
    ensures objects.None? ==> count == 0
    ensures objects.Some? ==>
      && fresh(objects.value)
      && objects.value.Length == count == |rev.obstates|
      && objects.value[..] == AllObjects(rev.View())
  {
    count := 0;
    var outOfMemory := *;
    if outOfMemory && rev.obstates != map[] {
      return None, count;
    }
    assert lib.IsWellFormed(rev);
    AllObjectsOnce(rev.View());
    ForestIsWithin(rev.View());
    ghost var t := rev.View();
    hide Library.Valid, IsForest, Below, IsWithin;
    var buffer := new Id[|rev.obstates|];
    assert rev.View() == t;
    count := DumpChildren(rev, NULL, buffer, count, 2);
    assert buffer[..] == buffer[..count];
    return Some(buffer), count;
  }

  /** A list of the objects attached to an object, or of the toplevel objects, or
      only their number.  There may only be too little memory for a list which
      isn't empty. */
  method GetObjectsAttachedTo(lib: Library, rev: Revision, ob: Id, onlyCount: bool)
    returns (ok: bool, objects: Option<array<Id>>, count: nat)
    requires lib.Valid() && rev in lib.live
    ensures ob != NULL && ob !in rev.obstates ==> !ok
    ensures (ob == NULL || ob in rev.obstates) && (onlyCount || Kids(rev.View(), ob) == []) ==> ok
    ensures ok ==> count == |Kids(rev.View(), ob)|
    ensures ok ==> if objects.Some? then fresh(objects.value) && objects.value[..] == Kids(rev.View(), ob)
                   else onlyCount || Kids(rev.View(), ob) == []
  {
    if ob != NULL && ob !in rev.obstates {
      return false, None, 0;
    }
    if onlyCount {
      return true, None, if ob in rev.children then |rev.children[ob]| else 0;
    }
    if ob !in rev.children {
      return true, None, 0;
    }
    var outOfMemory := *;
    if outOfMemory {
      return rev.children[ob] == [], None, 0;
    }
    var children := rev.children[ob];
    var buffer := new Id[|children|];
    count := 0;
    var j := 0;
    while j < |children|
      invariant count == j <= |children|
      invariant buffer[..count] == children[..j]
    {
      count := Write(buffer, count, children[j]);
      j := j + 1;
    }
    return true, Some(buffer), count;
  }

  // Selections

  /** Whether no selected object exists in a revision. */
  method SelectionIsEmpty(rev: Revision, sel: set<Id>) returns (isEmpty: bool)
    ensures isEmpty <==> rev.obstates.Keys * sel == {}
  {
    var keys := rev.obstates.Keys;
    var i, j := Begin(keys), Begin(sel);
    MergeBegins(keys, sel);
    while i.Some? && j.Some?
      invariant InStep(keys, sel, i, j)
      invariant Common(keys, sel, i) == {}
      decreases Ahead(keys, i), Ahead(sel, j)
    {
      if i.value < j.value {
        MergeSkipsKey(keys, sel, i, j);
        NextIsAhead(keys, i.value);
        i := Next(keys, i.value);
      } else if i.value > j.value {
        MergeSkipsSelected(keys, sel, i, j);
        NextIsAhead(sel, j.value);
        j := Next(sel, j.value);
      } else {
        assert i.value in keys * sel;
        return false;
      }
    }
    MergeEnds(keys, sel, i, j);
    return true;
  }
}
