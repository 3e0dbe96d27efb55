/** The object structure of a revision as a value: which state each object
    has, the ordered list of objects attached to each object (NULL standing
    for the top level), and the object to which each object is attached.

    The functions here say what each manipulation of the storage library
    does to the structure; the lemmas say that each of them keeps it a
    two-level forest. */
module Forest {
  import opened ObjectData

  type Id = nat
  const NULL: Id := 0

  /** An immutable, reference-counted object state.  `refs` lists who holds
      a counted reference to it: the entry for an object in the object map of
      a revision, or (null) a local variable of a library function. */
  class ObState {
    const data: Data<nat, nat>
    var refcnt: nat
    ghost var refs: set<(Revision?, Id)>

    constructor (data: Data<nat, nat>, ghost holder: Revision?, ghost ob: Id)
      ensures this.data == Normalize(data)
      ensures refcnt == 1 && refs == {(holder, ob)}
    {
      this.data := Normalize(data);
      refcnt := 1;
      refs := {(holder, ob)};
    }
  }

  class Revision {
    var isTransient: bool
    var obstates: map<Id, ObState>
    var children: map<Id, seq<Id>>
    var parent: map<Id, Id>

    constructor (obstates: map<Id, ObState>, children: map<Id, seq<Id>>, parent: map<Id, Id>)
      ensures isTransient
      ensures View() == Tree(obstates, children, parent)
    {
      isTransient := true;
      this.obstates := obstates;
      this.children := children;
      this.parent := parent;
    }

    ghost function View(): Tree
      reads this`obstates, this`children, this`parent
    {
      Tree(obstates, children, parent)
    }
  }

  datatype Tree = Tree(states: map<Id, ObState>, children: map<Id, seq<Id>>, parent: map<Id, Id>)

  const EMPTY := Tree(map[], map[], map[])

  /** The list of objects attached to p; a missing entry is an empty list. */
  function Kids(t: Tree, p: Id): seq<Id> {
    if p in t.children then t.children[p] else []
  }

  ghost predicate NoDuplicates(s: seq<Id>) {
    forall i, j :: 0 <= i < j < |s| ==> s[i] != s[j]
  }

  predicate IsText(t: Tree, ob: Id) {
    ob in t.states && t.states[ob].data.TextData?
  }

  predicate MayAttachTo(t: Tree, p: Id) {
    p in t.states && CanHaveChildren(t.states[p].data)
  }

  ghost predicate ListIsValid(t: Tree, p: Id) {
    && NoDuplicates(Kids(t, p))
    && forall k :: k in Kids(t, p) ==> k in t.parent && t.parent[k] == p
  }

  ghost predicate EntryIsValid(t: Tree, k: Id)
    requires k in t.parent
  {
    && k in Kids(t, t.parent[k])
    && (t.parent[k] == NULL || (IsText(t, k) && MayAttachTo(t, t.parent[k])))
  }

  /** The structural invariant of every revision. */
  ghost predicate IsForest(t: Tree) {
    && NULL !in t.states
    && t.states.Keys == t.parent.Keys
    && t.children.Keys <= t.states.Keys + {NULL}
    && (forall p {:trigger Kids(t, p)} :: ListIsValid(t, p))
    && (forall k {:trigger t.parent[k]} :: k in t.parent ==> EntryIsValid(t, k))
  }

  lemma EmptyIsForest()
    ensures IsForest(EMPTY)
  {
    forall p
      ensures ListIsValid(EMPTY, p)
    {
      assert Kids(EMPTY, p) == [];
    }
  }

  /** Whether two structures can't be told apart through the library: a
      missing child list and an empty one are the same. */
  ghost predicate Same(t: Tree, u: Tree) {
    && t.states == u.states
    && t.parent == u.parent
    && forall p :: Kids(t, p) == Kids(u, p)
  }

  lemma SameIsForest(t: Tree, u: Tree)
    requires IsForest(u) && Same(t, u)
    requires t.children.Keys <= t.states.Keys + {NULL}
    ensures IsForest(t)
  {
    forall p
      ensures ListIsValid(t, p)
    {
      assert ListIsValid(u, p);
    }
    forall k | k in t.parent
      ensures EntryIsValid(t, k)
    {
      assert EntryIsValid(u, k);
    }
  }

  // Consequences of the invariant

  /** Each object occurs exactly once in all the child lists together. */
  lemma OccursOnce(t: Tree, ob: Id)
    requires IsForest(t) && ob in t.states
    ensures exists i :: 0 <= i < |Kids(t, t.parent[ob])| && Kids(t, t.parent[ob])[i] == ob
    ensures forall p, i ::
      0 <= i < |Kids(t, p)| && Kids(t, p)[i] == ob ==>
        p == t.parent[ob] && i == IndexOf(Kids(t, p), ob)
  {
    assert EntryIsValid(t, ob);
    forall p, i | 0 <= i < |Kids(t, p)| && Kids(t, p)[i] == ob
      ensures p == t.parent[ob] && i == IndexOf(Kids(t, p), ob)
    {
      assert ListIsValid(t, p);
      assert ob in Kids(t, p);
    }
  }

  /** The structure is at most two levels deep. */
  lemma DepthTwo(t: Tree, ob: Id)
    requires IsForest(t)
    requires ob in t.parent && t.parent[ob] != NULL
    ensures t.parent[ob] in t.parent && t.parent[t.parent[ob]] == NULL
    ensures Kids(t, ob) == []
  {
    assert EntryIsValid(t, ob);
    var p := t.parent[ob];
    assert t.parent[p] == NULL by {
      assert EntryIsValid(t, p);
    }
    LeafIfNotHolder(t, ob);
  }

  lemma EmptyIfNoMembers(s: seq<Id>)
    ensures (forall k :: k !in s) ==> s == []
  {
    if s != [] {
      assert s[0] in s;
    }
  }

  lemma LeafIfNotHolder(t: Tree, ob: Id)
    requires IsForest(t) && ob != NULL && !MayAttachTo(t, ob)
    ensures Kids(t, ob) == []
  {
    assert ListIsValid(t, ob);
    forall k
      ensures k !in Kids(t, ob)
    {
      assert k in t.parent ==> EntryIsValid(t, k);
    }
    EmptyIfNoMembers(Kids(t, ob));
  }

  lemma KidsAreChildren(t: Tree, p: Id)
    requires IsForest(t)
    ensures NoDuplicates(Kids(t, p))
    ensures forall k :: k in Kids(t, p) <==> k in t.parent && t.parent[k] == p
    ensures p != NULL ==> forall k :: k in Kids(t, p) ==> Kids(t, k) == []
  {
    assert ListIsValid(t, p);
    forall k | k in t.parent && t.parent[k] == p
      ensures k in Kids(t, p)
    {
      assert EntryIsValid(t, k);
    }
    if p != NULL {
      forall k | k in Kids(t, p)
        ensures Kids(t, k) == []
      {
        DepthTwo(t, k);
      }
    }
  }

  // Lists

  function Without(s: seq<Id>, ob: Id): seq<Id> {
    if s == [] then []
    else if s[0] == ob then Without(s[1..], ob)
    else [s[0]] + Without(s[1..], ob)
  }

  lemma {:induction false} WithoutMembers(s: seq<Id>, ob: Id)
    ensures forall k :: k in Without(s, ob) <==> k in s && k != ob
    ensures NoDuplicates(s) ==> NoDuplicates(Without(s, ob))
  {
    if s != [] {
      WithoutMembers(s[1..], ob);
      assert s == [s[0]] + s[1..];
      if NoDuplicates(s) {
        assert s[0] !in s[1..];
        assert NoDuplicates(s[1..]);
        var u := Without(s[1..], ob);
        assert s[0] !in u;
        assert forall i :: 0 <= i < |u| ==> u[i] in u;
      }
    }
  }

  lemma {:induction false} WithoutAbsent(s: seq<Id>, ob: Id)
    requires ob !in s
    ensures Without(s, ob) == s
  {
    if s != [] {
      WithoutAbsent(s[1..], ob);
      assert s == [s[0]] + s[1..];
    }
  }

  lemma {:induction false} WithoutConcat(s: seq<Id>, u: seq<Id>, ob: Id)
    ensures Without(s + u, ob) == Without(s, ob) + Without(u, ob)
  {
    if s == [] {
      assert s + u == u;
    } else {
      WithoutConcat(s[1..], u, ob);
      assert (s + u)[1..] == s[1..] + u;
    }
  }

  /** Without, as an index-based removal. */
  lemma WithoutAt(s: seq<Id>, i: nat)
    requires i < |s| && NoDuplicates(s)
    ensures Without(s, s[i]) == s[..i] + s[i + 1..]
  {
    assert s == s[..i] + ([s[i]] + s[i + 1..]);
    WithoutConcat(s[..i], [s[i]] + s[i + 1..], s[i]);
    WithoutConcat([s[i]], s[i + 1..], s[i]);
    WithoutAbsent(s[..i], s[i]);
    WithoutAbsent(s[i + 1..], s[i]);
  }

  /** Position of an object in a list; the length of the list if absent. */
  function IndexOf(s: seq<Id>, ob: Id): (i: nat)
    ensures i <= |s|
    ensures i < |s| ==> s[i] == ob
    ensures forall j :: 0 <= j < i ==> s[j] != ob
    ensures ob in s <==> i < |s|
  {
    if s == [] || s[0] == ob then 0 else 1 + IndexOf(s[1..], ob)
  }

  /** Insert an object before another one; at the end if that one is not in
      the list, in particular if it is NULL. */
  function InsertBefore(s: seq<Id>, ob: Id, before: Id): seq<Id> {
    if s == [] || s[0] == before then [ob] + s
    else [s[0]] + InsertBefore(s[1..], ob, before)
  }

  lemma {:induction false} InsertBeforeMembers(s: seq<Id>, ob: Id, before: Id)
    requires ob !in s
    ensures forall k :: k in InsertBefore(s, ob, before) <==> k == ob || k in s
    ensures NoDuplicates(s) ==> NoDuplicates(InsertBefore(s, ob, before))
    ensures Without(InsertBefore(s, ob, before), ob) == s
  {
    if s == [] || s[0] == before {
      assert ([ob] + s)[1..] == s;
      WithoutAbsent(s, ob);
    } else {
      InsertBeforeMembers(s[1..], ob, before);
      var u := InsertBefore(s[1..], ob, before);
      assert s == [s[0]] + s[1..];
      assert ([s[0]] + u)[1..] == u;
      if NoDuplicates(s) {
        assert s[0] !in s[1..];
        assert s[0] !in u;
        assert forall i :: 0 <= i < |u| ==> u[i] in u;
      }
    }
  }

  /** InsertBefore, as an index-based insertion. */
  lemma {:induction false} InsertBeforeAt(s: seq<Id>, ob: Id, before: Id)
    ensures var i := IndexOf(s, before);
      InsertBefore(s, ob, before) == s[..i] + [ob] + s[i..]
  {
    if s != [] && s[0] != before {
      InsertBeforeAt(s[1..], ob, before);
      var i := IndexOf(s[1..], before);
      assert s[..i + 1] == [s[0]] + s[1..][..i];
    }
  }

  lemma InsertBeforePlaces(s: seq<Id>, ob: Id, before: Id)
    requires ob !in s && before != ob
    ensures
      var kids := InsertBefore(s, ob, before);
      var i := IndexOf(kids, ob);
      i < |kids| && if before in s then i + 1 < |kids| && kids[i + 1] == before else i == |kids| - 1
  {
    InsertBeforeAt(s, ob, before);
    var i := IndexOf(s, before);
    var kids := InsertBefore(s, ob, before);
    assert kids[i] == ob;
    assert forall j :: 0 <= j < i ==> kids[j] == s[j];
    assert IndexOf(kids, ob) == i;
  }

  // Adding, replacing and copying: put a new object at the end of a list.

  function Put(t: Tree, ob: Id, s: ObState, p: Id): Tree {
    Tree(t.states[ob := s], t.children[p := Kids(t, p) + [ob]], t.parent[ob := p])
  }

  lemma PutKeepsList(t: Tree, ob: Id, s: ObState, p: Id, q: Id)
    requires IsForest(t) && ob !in t.states
    ensures ListIsValid(Put(t, ob, s, p), q)
  {
    assert ListIsValid(t, q);
    assert ob !in Kids(t, q);
    assert Kids(Put(t, ob, s, p), q) == if q == p then Kids(t, p) + [ob] else Kids(t, q);
  }

  lemma PutKeepsForest(t: Tree, ob: Id, s: ObState, p: Id)
    requires IsForest(t)
    requires ob != NULL && ob !in t.states
    requires p != NULL ==> s.data.TextData? && MayAttachTo(t, p)
    ensures IsForest(Put(t, ob, s, p))
  {
    var u := Put(t, ob, s, p);
    forall q
      ensures ListIsValid(u, q)
    {
      PutKeepsList(t, ob, s, p, q);
    }
    forall k | k in u.parent
      ensures EntryIsValid(u, k)
    {
      if k != ob {
        assert EntryIsValid(t, k);
      }
    }
  }

  /** Set an existing object to another state or append a new object. */
  function Set(t: Tree, ob: Id, s: ObState): Tree {
    if ob in t.parent then t.(states := t.states[ob := s]) else Put(t, ob, s, NULL)
  }

  /** Whether the type of a state permits giving it to an object: the object
      must remain able to hold its children and to be attached. */
  predicate SetIsPermitted(t: Tree, ob: Id, d: Data<nat, nat>) {
    && (CanHaveChildren(d) || Kids(t, ob) == [])
    && (d.TextData? || ob !in t.parent || t.parent[ob] == NULL)
  }

  lemma SetKeepsForest(t: Tree, ob: Id, s: ObState)
    requires IsForest(t) && ob != NULL
    requires SetIsPermitted(t, ob, s.data)
    ensures IsForest(Set(t, ob, s))
  {
    if ob in t.parent {
      var u := Set(t, ob, s);
      assert forall p :: Kids(u, p) == Kids(t, p);
      forall p
        ensures ListIsValid(u, p)
      {
        assert ListIsValid(t, p);
      }
      forall k | k in u.parent
        ensures EntryIsValid(u, k)
      {
        assert EntryIsValid(t, k);
      }
    } else {
      PutKeepsForest(t, ob, s, NULL);
    }
  }

  // Relocating

  /** Take an object out of its list, then insert it into the list of `to`
      before another object, or at the end. */
  function Relocate(t: Tree, ob: Id, to: Id, before: Id): Tree
    requires ob in t.parent
  {
    var from := t.parent[ob];
    if before == ob && from == to then t
    else
      var there := Without(Kids(t, to), ob);
      t.(children := t.children[from := Without(Kids(t, from), ob)]
                               [to := InsertBefore(there, ob, before)],
         parent := t.parent[ob := to])
  }

  lemma RelocateKeepsForest(t: Tree, ob: Id, to: Id, before: Id)
    requires IsForest(t) && ob in t.parent
    requires to != NULL ==> IsText(t, ob) && MayAttachTo(t, to)
    ensures IsForest(Relocate(t, ob, to, before))
  {
    var u := Relocate(t, ob, to, before);
    if u != t {
      var from := t.parent[ob];
      WithoutMembers(Kids(t, from), ob);
      WithoutMembers(Kids(t, to), ob);
      InsertBeforeMembers(Without(Kids(t, to), ob), ob, before);
      assert EntryIsValid(t, ob);
      assert forall p :: p != from && p != to ==> Kids(u, p) == Kids(t, p);
      forall p
        ensures ListIsValid(u, p)
      {
        assert ListIsValid(t, p);
        if p == to {
          assert Kids(u, p) == InsertBefore(Without(Kids(t, to), ob), ob, before);
        } else if p == from {
          assert Kids(u, p) == Without(Kids(t, from), ob);
        } else {
          assert Kids(u, p) == Kids(t, p) && ob !in Kids(t, p);
        }
      }
      forall k | k in u.parent
        ensures EntryIsValid(u, k)
      {
        assert EntryIsValid(t, k);
        assert u.parent[k] != NULL ==> MayAttachTo(u, u.parent[k]);
      }
    }
  }

  /** Relocating an object keeps the relative order of all others, and only
      the two lists involved change. */
  lemma RelocateKeepsOrder(t: Tree, ob: Id, to: Id, before: Id, p: Id)
    requires IsForest(t) && ob in t.parent
    ensures Without(Kids(Relocate(t, ob, to, before), p), ob) == Without(Kids(t, p), ob)
    ensures p != to && p != t.parent[ob] ==> Kids(Relocate(t, ob, to, before), p) == Kids(t, p)
  {
    var from := t.parent[ob];
    if !(before == ob && from == to) {
      WithoutMembers(Kids(t, from), ob);
      WithoutMembers(Kids(t, to), ob);
      if p == to {
        InsertBeforeMembers(Without(Kids(t, to), ob), ob, before);
      } else if p == from {
        WithoutAbsent(Without(Kids(t, from), ob), ob);
      }
    }
  }

  /** The relocated object ends up immediately before `before`, or last. */
  lemma RelocatePlaces(t: Tree, ob: Id, to: Id, before: Id)
    requires IsForest(t) && ob in t.parent
    requires before != NULL ==> before in Kids(t, to)
    requires before != ob
    ensures
      var kids := Kids(Relocate(t, ob, to, before), to);
      var i := IndexOf(kids, ob);
      i < |kids| && if before == NULL then i == |kids| - 1 else i + 1 < |kids| && kids[i + 1] == before
  {
    var there := Without(Kids(t, to), ob);
    assert ListIsValid(t, to);
    WithoutMembers(Kids(t, to), ob);
    InsertBeforePlaces(there, ob, before);
  }

  // Deleting

  /** An object together with the objects attached to it. */
  ghost function Family(t: Tree, ob: Id): set<Id> {
    {ob} + set k | k in Kids(t, ob)
  }

  /** Remove a set of objects, leaving their entries in the lists of objects
      which stay. */
  ghost function Erase(t: Tree, obs: set<Id>): Tree {
    Tree(t.states - obs, t.children - obs, t.parent - obs)
  }

  ghost function Delete(t: Tree, ob: Id): Tree
    requires ob in t.parent
  {
    var p := t.parent[ob];
    var u := Erase(t, Family(t, ob));
    u.(children := u.children[p := Without(Kids(t, p), ob)])
  }

  lemma DeleteKeepsForest(t: Tree, ob: Id)
    requires IsForest(t) && ob in t.parent
    ensures IsForest(Delete(t, ob))
    ensures t.parent[ob] !in Family(t, ob)
  {
    var u := Delete(t, ob);
    var gone := Family(t, ob);
    KidsAreChildren(t, ob);
    ParentIsOutside(t, ob);
    assert EntryIsValid(t, ob);
    forall q
      ensures ListIsValid(u, q)
    {
      DeleteKeepsList(t, ob, q);
    }
    forall k | k in u.parent
      ensures EntryIsValid(u, k)
    {
      assert EntryIsValid(t, k) && t.parent[k] !in gone;
      DeleteKeepsList(t, ob, t.parent[k]);
    }
  }

  lemma ParentIsOutside(t: Tree, ob: Id)
    requires IsForest(t) && ob in t.parent
    ensures t.parent[ob] !in Family(t, ob)
  {
    assert EntryIsValid(t, ob);
    KidsAreChildren(t, ob);
    if t.parent[ob] != NULL {
      DepthTwo(t, ob);
    }
  }

  /** Deleting an object empties the lists of the deleted objects and takes
      the object out of the list it was in. */
  lemma DeleteKeepsList(t: Tree, ob: Id, q: Id)
    requires IsForest(t) && ob in t.parent
    ensures Kids(Delete(t, ob), q) == if q in Family(t, ob) then [] else Without(Kids(t, q), ob)
    ensures ListIsValid(Delete(t, ob), q)
    ensures q !in Family(t, ob) ==> forall k :: k in Kids(Delete(t, ob), q) <==> k in Kids(t, q) && k != ob
  {
    ParentIsOutside(t, ob);
    KidsAreChildren(t, ob);
    assert ListIsValid(t, q);
    WithoutMembers(Kids(t, q), ob);
    if q != t.parent[ob] && q !in Family(t, ob) {
      WithoutAbsent(Kids(t, q), ob);
    }
  }
}
