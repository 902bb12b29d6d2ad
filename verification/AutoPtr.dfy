/** Reference-counted handles (TC_AutoPtr over TC_HandleBaseT) on a graph of objects, whose members are
    handles themselves. */
module AutoPtr {

  type Id = nat

  /** What a handle holds. */
  datatype Ptr = Null | To(obj: Id)

  /** An object: its count, its flag against deletion, and the handles that are its members. */
  datatype Cell = Cell(count: int, noDelete: bool, members: seq<Id>)

  /** Live handles, live objects, objects freed so far in order, objects on which setNoDelete was ever
      called, and whether a dead handle or object was ever used. */
  datatype State = State(ptr: map<Id, Ptr>, objs: map<Id, Cell>, freed: seq<Id>, pinned: set<Id>, bad: bool)

  const EMPTY := State(map[], map[], [], {}, false)

  // TC_HandleBaseT

  function IncRef(st: State, o: Id): State
  {
    if o !in st.objs then st.(bad := true)
    else st.(objs := st.objs[o := st.objs[o].(count := st.objs[o].count + 1)])
  }

  /** Count down; at zero, unless the flag forbids it, set the flag and delete the object. */
  function DecRef(st: State, o: Id): (r: State)
    ensures |r.ptr| <= |st.ptr|
    decreases |st.ptr|, 3, 0
  {
    if o !in st.objs then st.(bad := true)
    else
      var c := st.objs[o].count - 1;
      if c == 0 && !st.objs[o].noDelete then
        Delete(st.(objs := st.objs[o := Cell(0, true, st.objs[o].members)]), o, st.objs[o].members)
      else st.(objs := st.objs[o := st.objs[o].(count := c)])
  }

  /** delete this: the members' destructors, then the memory. */
  function Delete(st: State, o: Id, members: seq<Id>): (r: State)
    ensures |r.ptr| <= |st.ptr|
    decreases |st.ptr|, 2, 0
  {
    var t := DestroyAll(st, members);
    t.(objs := t.objs - {o}, freed := t.freed + [o])
  }

  function DestroyAll(st: State, hs: seq<Id>): (r: State)
    ensures |r.ptr| <= |st.ptr|
    decreases |st.ptr|, 1, |hs|
  {
    if hs == [] then st else DestroyAll(DestroyHandle(st, hs[0]), hs[1..])
  }

  // TC_AutoPtr

  /** The destructor. */
  function DestroyHandle(st: State, h: Id): (r: State)
    ensures |r.ptr| <= |st.ptr|
    decreases |st.ptr|, 0, 0
  {
    if h !in st.ptr then st.(bad := true)
    else
      assert |st.ptr - {h}| < |st.ptr| by { Shrinks(st.ptr, h); }
      var t := st.(ptr := st.ptr - {h});
      if st.ptr[h] == Null then t else DecRef(t, st.ptr[h].obj)
  }

  lemma Shrinks(m: map<Id, Ptr>, h: Id)
    requires h in m
    ensures |m - {h}| < |m|
  {
    assert (m - {h}).Keys == m.Keys - {h};
  }

  // What every operation keeps. `dying` are the objects whose destructors are running.

  /** The live handles that point at an object. */
  function Refs(ptr: map<Id, Ptr>, o: Id): set<Id>
  {
    set h | h in ptr && ptr[h] == To(o)
  }

  function Elems(hs: seq<Id>): set<Id>
  {
    set h | h in hs
  }

  predicate NoDup(s: seq<Id>)
  {
    forall i, j :: 0 <= i < j < |s| ==> s[i] != s[j]
  }

  /** No handle dangles. */
  predicate Targets(st: State)
  {
    forall h :: h in st.ptr && st.ptr[h].To? ==> st.ptr[h].obj in st.objs
  }

  /** Members are distinct, belong to one object each, and live while the object's destructor has not begun. */
  predicate Members(st: State, dying: set<Id>)
  {
    && (forall o :: o in st.objs ==> NoDup(st.objs[o].members))
    && (forall o, h :: o in st.objs && o !in dying && h in st.objs[o].members ==> h in st.ptr)
    && (forall o, p, h :: o in st.objs && p in st.objs && h in st.objs[o].members && h in st.objs[p].members ==> o == p)
  }

  /** Nothing has been freed twice, and nothing freed is live. */
  predicate Ledger(st: State)
  {
    NoDup(st.freed) && forall o :: o in st.freed ==> o !in st.objs
  }

  predicate Dying(st: State, dying: set<Id>)
  {
    forall d :: d in dying ==> d in st.objs && st.objs[d].count == 0 && st.objs[d].noDelete
  }

  /** Only pinned objects have the flag, or stay with a count of zero. */
  predicate Pins(st: State, dying: set<Id>)
  {
    forall o :: o in st.objs && o !in dying && (st.objs[o].count == 0 || st.objs[o].noDelete) ==> o in st.pinned
  }

  predicate Sound(st: State, dying: set<Id>)
  {
    !st.bad && Targets(st) && Members(st, dying) && Ledger(st) && Dying(st, dying) && Pins(st, dying)
  }

  /** Every count is the number of handles. */
  predicate Exact(st: State)
  {
    forall o :: o in st.objs ==> st.objs[o].count == |Refs(st.ptr, o)|
  }

  predicate Inv(st: State, dying: set<Id>)
  {
    Sound(st, dying) && Exact(st)
  }

  /** The invariant when one handle to o has just gone and o has not been told. */
  predicate InvBut(st: State, dying: set<Id>, o: Id)
  {
    && Sound(st, dying) && o in st.objs && o !in dying
    && st.objs[o].count == |Refs(st.ptr, o)| + 1
    && forall p :: p in st.objs && p != o ==> st.objs[p].count == |Refs(st.ptr, p)|
  }

  /** What a cascade may do: free objects with their members, lower counts, and destroy the handles hs. */
  ghost predicate Shrunk(st: State, t: State, dying: set<Id>, hs: set<Id>)
  {
    && t.pinned == st.pinned
    && (forall h :: h in t.ptr ==> h in st.ptr && t.ptr[h] == st.ptr[h])
    && (forall o :: o in t.objs ==> o in st.objs && t.objs[o].members == st.objs[o].members)
    && (forall d :: d in dying && d in st.objs ==> d in t.objs && t.objs[d] == st.objs[d])
    && (forall o :: o in t.objs && o !in dying && o in st.objs ==> FlagKept(st.objs[o], t.objs[o]))
    && (forall h :: h in st.ptr && h !in t.ptr ==> h in hs || OwnedByFreed(st, t, h))
    && (forall o, h :: o in st.objs && o !in t.objs && h in st.objs[o].members ==> h !in t.ptr)
  }

  /** The flag stays, and a count that has come to zero without it was zero before. */
  predicate FlagKept(before: Cell, after: Cell)
  {
    after.noDelete == before.noDelete && (after.count == 0 && !after.noDelete ==> before.count == 0)
  }

  ghost predicate OwnedByFreed(st: State, t: State, h: Id)
  {
    exists o :: o in st.objs && o !in t.objs && h in st.objs[o].members
  }

  lemma ShrunkTwice(st: State, t: State, u: State, dying: set<Id>, hs: set<Id>, gs: set<Id>)
    requires Shrunk(st, t, dying, hs) && Shrunk(t, u, dying, gs)
    ensures Shrunk(st, u, dying, hs + gs)
  {
    forall h | h in st.ptr && h !in u.ptr
      ensures h in hs + gs || OwnedByFreed(st, u, h)
    {
      if h in t.ptr && h !in gs {
        var o :| o in t.objs && o !in u.objs && h in t.objs[o].members;
        assert o in st.objs && h in st.objs[o].members;
      } else if h !in t.ptr && h !in hs {
        var o :| o in st.objs && o !in t.objs && h in st.objs[o].members;
        assert o !in u.objs;
      }
    }
  }

  // Counting.

  lemma RefsWithout(ptr: map<Id, Ptr>, h: Id, o: Id)
    requires h in ptr
    ensures |Refs(ptr - {h}, o)| == |Refs(ptr, o)| - (if ptr[h] == To(o) then 1 else 0)
  {
    assert Refs(ptr - {h}, o) == Refs(ptr, o) - {h};
  }

  lemma NoRefs(ptr: map<Id, Ptr>, o: Id)
    requires |Refs(ptr, o)| == 0
    ensures forall h :: h in ptr ==> ptr[h] != To(o)
  {
    assert forall h :: h in ptr && ptr[h] == To(o) ==> h in Refs(ptr, o);
  }

  // The cascade.

  lemma {:induction false} DecRefWorks(st: State, o: Id, dying: set<Id>)
    requires InvBut(st, dying, o)
    ensures Inv(DecRef(st, o), dying) && Shrunk(st, DecRef(st, o), dying, {})
    decreases |st.ptr|, 3, 0
  {
    hide Delete, Refs, Sound, Inv, Shrunk;
    var c := st.objs[o].count - 1;
    if c == 0 && !st.objs[o].noDelete {
      var s := st.(objs := st.objs[o := Cell(0, true, st.objs[o].members)]);
      BeginDelete(st, s, o, dying);
      DeleteWorks(s, o, dying);
      ShrunkFromStart(st, s, Delete(s, o, s.objs[o].members), o, dying);
    } else {
      LowerWorks(st, o, dying);
    }
  }

  /** A count goes down and that is all. */
  lemma LowerWorks(st: State, o: Id, dying: set<Id>)
    requires InvBut(st, dying, o) && (st.objs[o].count == 1 ==> st.objs[o].noDelete)
    ensures var t := st.(objs := st.objs[o := st.objs[o].(count := st.objs[o].count - 1)]);
            Inv(t, dying) && Shrunk(st, t, dying, {})
  {
    hide Refs, Members, NoDup;
    var t := st.(objs := st.objs[o := st.objs[o].(count := st.objs[o].count - 1)]);
    SameMembers(st, t, dying);
  }

  lemma SameMembers(st: State, t: State, dying: set<Id>)
    requires Members(st, dying) && t.ptr == st.ptr && t.objs.Keys == st.objs.Keys
    requires forall o :: o in st.objs ==> t.objs[o].members == st.objs[o].members
    ensures Members(t, dying)
  {
  }

  lemma BeginDelete(st: State, s: State, o: Id, dying: set<Id>)
    requires InvBut(st, dying, o) && st.objs[o].count == 1
    requires s == st.(objs := st.objs[o := Cell(0, true, st.objs[o].members)])
    ensures Inv(s, dying + {o})
    ensures forall h :: h in s.objs[o].members ==> h in s.ptr
  {
    hide Refs, NoDup;
  }

  lemma ShrunkFromStart(st: State, s: State, t: State, o: Id, dying: set<Id>)
    requires o in st.objs && o !in dying && s == st.(objs := st.objs[o := Cell(0, true, st.objs[o].members)])
    requires Shrunk(s, t, dying, {}) && o !in t.objs
    ensures Shrunk(st, t, dying, {})
  {
    forall h | h in st.ptr && h !in t.ptr
      ensures OwnedByFreed(st, t, h)
    {
      var p :| p in s.objs && p !in t.objs && h in s.objs[p].members;
      assert p in st.objs && h in st.objs[p].members;
    }
  }

  lemma {:induction false} DeleteWorks(s: State, o: Id, dying: set<Id>)
    requires o in s.objs && o !in dying && Inv(s, dying + {o})
    requires forall h :: h in s.objs[o].members ==> h in s.ptr
    ensures var t := Delete(s, o, s.objs[o].members); Inv(t, dying) && Shrunk(s, t, dying, {}) && o !in t.objs
    decreases |s.ptr|, 2, 0
  {
    hide DestroyAll, Refs;
    var hs := s.objs[o].members;
    DestroyAllWorks(s, hs, dying + {o}, o);
    var u := DestroyAll(s, hs);
    EndDelete(s, u, o, dying);
  }

  lemma ElemsIn(hs: seq<Id>)
    ensures forall h :: h in Elems(hs) <==> h in hs
  {
  }

  lemma EndIsSound(u: State, t: State, o: Id, dying: set<Id>)
    requires o in u.objs && o !in dying && Inv(u, dying + {o})
    requires t == u.(objs := u.objs - {o}, freed := u.freed + [o])
    ensures Inv(t, dying)
  {
    hide Refs;
    NoRefs(u.ptr, o);
  }

  lemma EndDelete(s: State, u: State, o: Id, dying: set<Id>)
    requires o in s.objs && o !in dying && Inv(u, dying + {o})
    requires Shrunk(s, u, dying + {o}, Elems(s.objs[o].members))
    requires forall h :: h in s.objs[o].members ==> h !in u.ptr
    ensures var t := u.(objs := u.objs - {o}, freed := u.freed + [o]);
            Inv(t, dying) && Shrunk(s, t, dying, {})
  {
    hide Inv, Elems;
    var t := u.(objs := u.objs - {o}, freed := u.freed + [o]);
    EndIsSound(u, t, o, dying);
    ElemsIn(s.objs[o].members);
    EndOwners(s, u, t, o, dying);
  }

  /** What is gone when the members and then the object are gone. */
  lemma EndOwners(s: State, u: State, t: State, o: Id, dying: set<Id>)
    requires o in s.objs && t.ptr == u.ptr && t.objs == u.objs - {o}
    requires forall h :: h in Elems(s.objs[o].members) <==> h in s.objs[o].members
    requires Shrunk(s, u, dying + {o}, Elems(s.objs[o].members))
    ensures forall h :: h in s.ptr && h !in t.ptr ==> OwnedByFreed(s, t, h)
  {
    hide Elems;
    forall h | h in s.ptr && h !in t.ptr
      ensures OwnedByFreed(s, t, h)
    {
      if h in s.objs[o].members {
        assert o !in t.objs;
      } else {
        var p :| p in s.objs && p !in u.objs && h in s.objs[p].members;
        assert p !in t.objs;
      }
    }
  }

  lemma {:induction false} DestroyAllWorks(st: State, hs: seq<Id>, dying: set<Id>, x: Id)
    requires Inv(st, dying) && x in dying && x in st.objs && NoDup(hs)
    requires forall h :: h in hs ==> h in st.ptr && h in st.objs[x].members
    ensures var t := DestroyAll(st, hs);
            && Inv(t, dying) && Shrunk(st, t, dying, Elems(hs))
            && forall h :: h in hs ==> h !in t.ptr
    decreases |st.ptr|, 1, |hs|
  {
    hide DestroyHandle, Inv, Shrunk, NoDup;
    if hs == [] {
      ShrunkSelf(st, dying, Elems(hs));
    } else {
      var h, rest := hs[0], hs[1..];
      var u := DestroyHandle(st, h);
      OwnerIsDying(st, h, dying, x);
      DestroyWorks(st, h, dying);
      RestLives(st, u, hs, dying, x);
      DestroyAllWorks(u, rest, dying, x);
      var t := DestroyAll(u, rest);
      ShrunkTwice(st, u, t, dying, {h}, Elems(rest));
      StaysGone(u, t, dying, Elems(rest), h);
      assert {h} + Elems(rest) == Elems(hs);
    }
  }

  lemma ShrunkSelf(st: State, dying: set<Id>, hs: set<Id>)
    ensures Shrunk(st, st, dying, hs)
  {
  }

  lemma StaysGone(u: State, t: State, dying: set<Id>, hs: set<Id>, h: Id)
    requires Shrunk(u, t, dying, hs) && h !in u.ptr
    ensures h !in t.ptr
  {
  }

  lemma OwnerIsDying(st: State, h: Id, dying: set<Id>, x: Id)
    requires Inv(st, dying) && x in dying && x in st.objs && h in st.objs[x].members
    ensures forall o :: o in st.objs && o !in dying ==> h !in st.objs[o].members
  {
    hide Exact, Targets, Ledger, Pins;
  }

  /** Destroying one member of a dying object leaves its other members alone. */
  lemma RestLives(st: State, u: State, hs: seq<Id>, dying: set<Id>, x: Id)
    requires Inv(st, dying) && x in dying && x in st.objs && hs != [] && NoDup(hs)
    requires forall h :: h in hs ==> h in st.ptr && h in st.objs[x].members
    requires Shrunk(st, u, dying, {hs[0]})
    ensures NoDup(hs[1..]) && x in u.objs
    ensures forall h :: h in hs[1..] ==> h in u.ptr && h in u.objs[x].members
  {
    hide Exact, Targets, Ledger, Pins;
    forall h | h in hs[1..]
      ensures h in u.ptr
    {
      assert h in hs && h in st.objs[x].members;
      assert forall o :: o in st.objs && h in st.objs[o].members ==> o == x;
      assert !OwnedByFreed(st, u, h);
    }
  }

  lemma {:induction false} DestroyWorks(st: State, h: Id, dying: set<Id>)
    requires Inv(st, dying) && h in st.ptr
    requires forall o :: o in st.objs && o !in dying ==> h !in st.objs[o].members
    ensures var t := DestroyHandle(st, h); Inv(t, dying) && h !in t.ptr && Shrunk(st, t, dying, {h})
    decreases |st.ptr|, 0, 0
  {
    hide DecRef, Inv, InvBut, Shrunk;
    Shrinks(st.ptr, h);
    HandleGone(st, h, dying);
    var t := st.(ptr := st.ptr - {h});
    if st.ptr[h].To? {
      var o := st.ptr[h].obj;
      DecRefWorks(t, o, dying);
      ShrunkTwice(st, t, DecRef(t, o), dying, {h}, {});
      StaysGone(t, DecRef(t, o), dying, {}, h);
      assert {h} + {} == {h};
    }
  }

  /** The handle is gone, its object not yet told. */
  lemma HandleGone(st: State, h: Id, dying: set<Id>)
    requires Inv(st, dying) && h in st.ptr
    requires forall o :: o in st.objs && o !in dying ==> h !in st.objs[o].members
    ensures var t := st.(ptr := st.ptr - {h});
            Shrunk(st, t, dying, {h}) && if st.ptr[h].To? then InvBut(t, dying, st.ptr[h].obj) else Inv(t, dying)
  {
    hide Refs, Sound, Shrunk;
    var t := st.(ptr := st.ptr - {h});
    forall o
      ensures |Refs(t.ptr, o)| == |Refs(st.ptr, o)| - (if st.ptr[h] == To(o) then 1 else 0)
    {
      RefsWithout(st.ptr, h, o);
    }
    if st.ptr[h].To? {
      PointedIsNotDying(st, h, dying);
    }
    SoundWithout(st, h, dying);
    ShrunkWithout(st, h, dying);
  }

  lemma SoundWithout(st: State, h: Id, dying: set<Id>)
    requires Sound(st, dying)
    requires forall o :: o in st.objs && o !in dying ==> h !in st.objs[o].members
    ensures Sound(st.(ptr := st.ptr - {h}), dying)
  {
    hide Members;
    MembersWithout(st, st.(ptr := st.ptr - {h}), h, dying);
  }

  lemma ShrunkWithout(st: State, h: Id, dying: set<Id>)
    ensures Shrunk(st, st.(ptr := st.ptr - {h}), dying, {h})
  {
  }

  lemma MembersWithout(st: State, t: State, h: Id, dying: set<Id>)
    requires Members(st, dying) && t == st.(ptr := st.ptr - {h})
    requires forall o :: o in st.objs && o !in dying ==> h !in st.objs[o].members
    ensures Members(t, dying)
  {
  }

  lemma PointedIsNotDying(st: State, h: Id, dying: set<Id>)
    requires Inv(st, dying) && h in st.ptr && st.ptr[h].To?
    ensures st.ptr[h].obj in st.objs && st.ptr[h].obj !in dying && |Refs(st.ptr, st.ptr[h].obj)| >= 1
  {
    assert h in Refs(st.ptr, st.ptr[h].obj);
  }

  // Operations.

  /** The constructors: from a raw pointer, from a handle. */
  function MakeHandle(st: State, h: Id, p: Ptr): State
  {
    var t := st.(ptr := st.ptr[h := p]);
    if p == Null then t else IncRef(t, p.obj)
  }

  /** The three assignments: nothing if the pointer is the same; else count the new object up, rebind, and
      only then count the old one down. */
  function AssignPtr(st: State, h: Id, p: Ptr): State
  {
    if h !in st.ptr then st.(bad := true)
    else if st.ptr[h] == p then st
    else
      var t := if p == Null then st else IncRef(st, p.obj);
      var u := t.(ptr := t.ptr[h := p]);
      if st.ptr[h] == Null then u else DecRef(u, st.ptr[h].obj)
  }

  function SwapPtrs(st: State, h: Id, g: Id): State
  {
    if h !in st.ptr || g !in st.ptr then st.(bad := true)
    else st.(ptr := st.ptr[h := st.ptr[g]][g := st.ptr[h]])
  }

  function Nulls(members: seq<Id>): (m: map<Id, Ptr>)
    ensures forall g :: g in m <==> g in members
    ensures forall g :: g in m ==> m[g] == Null
  {
    map g | g in members :: Null
  }

  /** new T, its member handles null, and the handle it is given to. */
  function CreateObject(st: State, o: Id, members: seq<Id>, h: Id): State
  {
    var t := st.(objs := st.objs[o := Cell(0, false, members)], ptr := st.ptr + Nulls(members));
    MakeHandle(t, h, To(o))
  }

  /** A container that is a member takes in a handle, which so becomes a member itself. */
  function AdoptHandle(st: State, h: Id, o: Id): State
  {
    if o !in st.objs then st.(bad := true)
    else st.(objs := st.objs[o := st.objs[o].(members := st.objs[o].members + [h])])
  }

  /** The container lets go of it. */
  function ReleaseHandle(st: State, h: Id, o: Id): State
  {
    if o !in st.objs then st.(bad := true)
    else st.(objs := st.objs[o := st.objs[o].(members := Without(st.objs[o].members, h))])
  }

  function Without(hs: seq<Id>, h: Id): (r: seq<Id>)
    ensures forall g :: g in r <==> g in hs && g != h
  {
    if hs == [] then []
    else if hs[0] == h then Without(hs[1..], h)
    else [hs[0]] + Without(hs[1..], h)
  }

  datatype Op =
    | Create(o: Id, members: seq<Id>, h: Id)
    | FromRaw(h: Id, p: Ptr)
    | Copy(h: Id, from: Id)
    | AssignRaw(h: Id, p: Ptr)
    | Assign(h: Id, from: Id)
    | Swap(h: Id, g: Id)
    | Destroy(h: Id)
    | SetNoDelete(o: Id, b: bool)
    | Adopt(h: Id, o: Id)
    | Release(h: Id, o: Id)

  /** A handle that is no object's member: a variable, or an element of a container. */
  ghost predicate Outside(st: State, h: Id)
  {
    h in st.ptr && forall o :: o in st.objs ==> h !in st.objs[o].members
  }

  predicate Pointable(st: State, p: Ptr)
  {
    p.To? ==> p.obj in st.objs
  }

  /** What a program may do: use live handles and live objects, and storage that is not in use. */
  ghost predicate Legal(st: State, op: Op)
  {
    match op
    case Create(o, members, h) =>
      && o !in st.objs && o !in st.freed && NoDup(members) && h !in members && h !in st.ptr
      && forall g :: g in members ==> g !in st.ptr
    case FromRaw(h, p) => h !in st.ptr && Pointable(st, p)
    case Copy(h, from) => h !in st.ptr && from in st.ptr
    case AssignRaw(h, p) => h in st.ptr && Pointable(st, p)
    case Assign(h, from) => h in st.ptr && from in st.ptr
    case Swap(h, g) => h in st.ptr && g in st.ptr
    case Destroy(h) => Outside(st, h)
    case SetNoDelete(o, _) => o in st.objs
    case Adopt(h, o) => Outside(st, h) && o in st.objs
    case Release(h, o) => o in st.objs && h in st.objs[o].members
  }

  function Apply(st: State, op: Op): State
  {
    match op
    case Create(o, members, h) => CreateObject(st, o, members, h)
    case FromRaw(h, p) => MakeHandle(st, h, p)
    case Copy(h, from) => if from in st.ptr then MakeHandle(st, h, st.ptr[from]) else st.(bad := true)
    case AssignRaw(h, p) => AssignPtr(st, h, p)
    case Assign(h, from) => if from in st.ptr then AssignPtr(st, h, st.ptr[from]) else st.(bad := true)
    case Swap(h, g) => SwapPtrs(st, h, g)
    case Destroy(h) => DestroyHandle(st, h)
    case SetNoDelete(o, b) =>
      if o !in st.objs then st.(bad := true)
      else st.(objs := st.objs[o := st.objs[o].(noDelete := b)], pinned := st.pinned + {o})
    case Adopt(h, o) => AdoptHandle(st, h, o)
    case Release(h, o) => ReleaseHandle(st, h, o)
  }

  /** The state after a run of legal operations. */
  ghost predicate Reaches(st: State, ops: seq<Op>, t: State)
    decreases |ops|
  {
    if ops == [] then t == st else Legal(st, ops[0]) && Reaches(Apply(st, ops[0]), ops[1..], t)
  }

  lemma RefsRebound(ptr: map<Id, Ptr>, h: Id, p: Ptr, o: Id)
    ensures |Refs(ptr[h := p], o)| ==
            |Refs(ptr, o)| - (if h in ptr && ptr[h] == To(o) then 1 else 0) + (if p == To(o) then 1 else 0)
  {
    var r, s := Refs(ptr, o), Refs(ptr[h := p], o);
    assert s == if p == To(o) then r + {h} else r - {h};
    assert h in r <==> h in ptr && ptr[h] == To(o);
  }

  /** A binding made after the new object was counted up: the old object, if any, is owed a count down. */
  lemma Rebind(st: State, h: Id, p: Ptr)
    requires Inv(st, {}) && Pointable(st, p) && (h in st.ptr ==> st.ptr[h] != p)
    ensures var t := if p == Null then st else IncRef(st, p.obj);
            var u := t.(ptr := t.ptr[h := p]);
            if h in st.ptr && st.ptr[h].To? then InvBut(u, {}, st.ptr[h].obj) else Inv(u, {})
  {
    hide Refs, Members;
    var t := if p == Null then st else IncRef(st, p.obj);
    SameMembers(st, st.(objs := t.objs), {});
    MembersRebound(st.(objs := t.objs), t.(ptr := t.ptr[h := p]), h, p);
    forall o
      ensures |Refs(st.ptr[h := p], o)| ==
              |Refs(st.ptr, o)| - (if h in st.ptr && st.ptr[h] == To(o) then 1 else 0) + (if p == To(o) then 1 else 0)
    {
      RefsRebound(st.ptr, h, p, o);
    }
  }

  lemma MembersRebound(st: State, u: State, h: Id, p: Ptr)
    requires Members(st, {}) && u.objs == st.objs && u.ptr == st.ptr[h := p]
    ensures Members(u, {})
  {
    hide NoDup;
  }

  lemma MakeKeepsInv(st: State, h: Id, p: Ptr)
    requires Inv(st, {}) && h !in st.ptr && Pointable(st, p)
    ensures Inv(MakeHandle(st, h, p), {})
  {
    hide Inv, InvBut;
    Rebind(st, h, p);
    PointableLives(st, p);
  }

  lemma PointableLives(st: State, p: Ptr)
    requires Pointable(st, p)
    ensures p.To? ==> forall m: map<Id, Ptr> :: IncRef(st.(ptr := m), p.obj) == IncRef(st, p.obj).(ptr := m)
  {
  }

  lemma AssignKeepsInv(st: State, h: Id, p: Ptr)
    requires Inv(st, {}) && h in st.ptr && Pointable(st, p)
    ensures Inv(AssignPtr(st, h, p), {})
    ensures h in AssignPtr(st, h, p).ptr ==> AssignPtr(st, h, p).ptr[h] == p
    ensures Outside(st, h) ==> h in AssignPtr(st, h, p).ptr
  {
    hide Inv, InvBut, DecRef, Refs;
    if st.ptr[h] != p {
      Rebind(st, h, p);
      var t := if p == Null then st else IncRef(st, p.obj);
      var u := t.(ptr := t.ptr[h := p]);
      if st.ptr[h].To? {
        DecRefWorks(u, st.ptr[h].obj, {});
      }
    }
  }

  /** What two handles hold changes places, and nothing else changes. */
  ghost predicate Swapped(was: map<Id, Ptr>, now: map<Id, Ptr>, h: Id, g: Id)
    requires h in was && g in was
  {
    && now.Keys == was.Keys && now[h] == was[g] && now[g] == was[h]
    && forall k :: k in was && k != h && k != g ==> now[k] == was[k]
  }

  lemma SwapSwaps(st: State, h: Id, g: Id)
    requires h in st.ptr && g in st.ptr
    ensures var t := SwapPtrs(st, h, g);
            Swapped(st.ptr, t.ptr, h, g) && t == st.(ptr := t.ptr) && SwapPtrs(t, h, g) == st
  {
    assert SwapPtrs(SwapPtrs(st, h, g), h, g).ptr == st.ptr;
  }

  lemma SwapKeepsInv(st: State, h: Id, g: Id)
    requires Inv(st, {}) && h in st.ptr && g in st.ptr
    ensures var t := SwapPtrs(st, h, g);
            && Inv(t, {}) && Swapped(st.ptr, t.ptr, h, g) && t == st.(ptr := t.ptr)
            && SwapPtrs(t, h, g) == st
  {
    hide Refs, Swapped;
    var m := st.ptr[h := st.ptr[g]];
    forall o
      ensures |Refs(m[g := st.ptr[h]], o)| == |Refs(st.ptr, o)|
    {
      RefsRebound(st.ptr, h, st.ptr[g], o);
      RefsRebound(m, g, st.ptr[h], o);
    }
    SwapSwaps(st, h, g);
  }

  lemma CreateKeepsInv(st: State, o: Id, members: seq<Id>, h: Id)
    requires Inv(st, {}) && Legal(st, Create(o, members, h))
    ensures Inv(CreateObject(st, o, members, h), {})
  {
    hide Refs, NoDup, Members, Exact;
    var u := CreateObject(st, o, members, h);
    CreateCounts(st, o, members, h);
    CreateMembers(st, u, o, members);
  }

  lemma CreateCounts(st: State, o: Id, members: seq<Id>, h: Id)
    requires Exact(st) && Targets(st) && Legal(st, Create(o, members, h))
    ensures Exact(CreateObject(st, o, members, h))
  {
    hide Refs, NoDup;
    var nulls := Nulls(members);
    var u := CreateObject(st, o, members, h);
    NoTarget(st, o);
    forall p | p in u.objs
      ensures |Refs(u.ptr, p)| == |Refs(st.ptr, p)| + (if p == o then 1 else 0)
    {
      RefsNulls(st.ptr, nulls, p);
      RefsRebound(st.ptr + nulls, h, To(o), p);
    }
  }

  lemma CreateMembers(st: State, u: State, o: Id, members: seq<Id>)
    requires Members(st, {}) && o !in st.objs && NoDup(members)
    requires u.objs == st.objs[o := Cell(1, false, members)]
    requires forall h :: h in st.ptr || h in members ==> h in u.ptr
    requires forall g :: g in members ==> g !in st.ptr
    ensures Members(u, {})
  {
  }

  lemma RefsNulls(ptr: map<Id, Ptr>, nulls: map<Id, Ptr>, o: Id)
    requires forall g :: g in nulls ==> nulls[g] == Null && g !in ptr
    ensures Refs(ptr + nulls, o) == Refs(ptr, o)
  {
  }

  lemma NoTarget(st: State, p: Id)
    requires Targets(st) && p !in st.objs
    ensures Refs(st.ptr, p) == {}
  {
  }

  lemma StoredIsPointable(st: State, h: Id)
    requires Inv(st, {}) && h in st.ptr
    ensures Pointable(st, st.ptr[h])
  {
  }

  lemma PinKeepsInv(st: State, o: Id, b: bool)
    requires Inv(st, {}) && o in st.objs
    ensures Inv(Apply(st, SetNoDelete(o, b)), {})
  {
    hide Refs, NoDup;
  }

  /** Only the members of one object differ. */
  lemma RegroupKeepsInv(st: State, t: State, o: Id)
    requires Inv(st, {}) && o in st.objs && o in t.objs && Members(t, {})
    requires t == st.(objs := st.objs[o := st.objs[o].(members := t.objs[o].members)])
    ensures Inv(t, {})
  {
    hide Refs, Members;
  }

  lemma AdoptKeepsInv(st: State, h: Id, o: Id)
    requires Inv(st, {}) && Legal(st, Adopt(h, o))
    ensures Inv(AdoptHandle(st, h, o), {})
  {
    hide Exact, Ledger, Pins, Targets;
    RegroupKeepsInv(st, AdoptHandle(st, h, o), o);
  }

  lemma {:induction false} WithoutIsDistinct(hs: seq<Id>, h: Id)
    requires NoDup(hs)
    ensures NoDup(Without(hs, h))
    decreases |hs|
  {
    if hs != [] {
      assert forall i :: 0 < i < |hs| ==> hs[i] == hs[1..][i - 1];
      assert hs[0] !in hs[1..];
      WithoutIsDistinct(hs[1..], h);
    }
  }

  lemma ReleaseKeepsInv(st: State, h: Id, o: Id)
    requires Inv(st, {}) && Legal(st, Release(h, o))
    ensures Inv(ReleaseHandle(st, h, o), {})
    ensures Outside(ReleaseHandle(st, h, o), h)
  {
    hide Exact, Ledger, Pins, Targets, Without, NoDup;
    MembersDistinct(st, o, {});
    WithoutIsDistinct(st.objs[o].members, h);
    RegroupKeepsInv(st, ReleaseHandle(st, h, o), o);
  }

  lemma MembersDistinct(st: State, o: Id, dying: set<Id>)
    requires Inv(st, dying) && o in st.objs
    ensures NoDup(st.objs[o].members)
  {
  }

  lemma ApplyKeepsInv(st: State, op: Op)
    requires Inv(st, {}) && Legal(st, op)
    ensures Inv(Apply(st, op), {})
  {
    hide MakeHandle, AssignPtr, SwapPtrs, CreateObject, DestroyHandle, AdoptHandle, ReleaseHandle, Inv;
    match op
    case Create(o, members, h) => CreateKeepsInv(st, o, members, h);
    case FromRaw(h, p) => MakeKeepsInv(st, h, p);
    case Copy(h, from) =>
      StoredIsPointable(st, from);
      MakeKeepsInv(st, h, st.ptr[from]);
    case AssignRaw(h, p) => AssignKeepsInv(st, h, p);
    case Assign(h, from) =>
      StoredIsPointable(st, from);
      AssignKeepsInv(st, h, st.ptr[from]);
    case Swap(h, g) => SwapKeepsInv(st, h, g);
    case Destroy(h) => DestroyWorks(st, h, {});
    case SetNoDelete(o, b) => PinKeepsInv(st, o, b);
    case Adopt(h, o) => AdoptKeepsInv(st, h, o);
    case Release(h, o) => ReleaseKeepsInv(st, h, o);
  }

  // What each operation does, said without the functions that do it.

  /** A new handle h on p. */
  ghost predicate Points(st: State, h: Id, p: Ptr, t: State)
  {
    && t.ptr == st.ptr[h := p] && t.freed == st.freed && t.objs.Keys == st.objs.Keys
    && forall o :: o in st.objs ==>
         t.objs[o] == st.objs[o].(count := st.objs[o].count + if p == To(o) then 1 else 0)
  }

  /** Handles other than h that are left hold what they held, and objects that are left have their members and
      flags. */
  ghost predicate Remains(st: State, h: Id, t: State)
  {
    && (forall g :: g in t.ptr && g != h ==> g in st.ptr && t.ptr[g] == st.ptr[g])
    && forall o :: o in t.objs ==>
         o in st.objs && t.objs[o].members == st.objs[o].members && t.objs[o].noDelete == st.objs[o].noDelete
  }

  ghost predicate Born(st: State, o: Id, members: seq<Id>, h: Id, t: State)
  {
    && t.ptr.Keys == st.ptr.Keys + Elems(members) + {h} && t.ptr[h] == To(o)
    && (forall g :: g in members && g != h ==> t.ptr[g] == Null)
    && (forall g :: g in st.ptr && g != h && g !in members ==> t.ptr[g] == st.ptr[g])
    && t.objs == st.objs[o := Cell(1, false, members)] && t.freed == st.freed
  }

  /** The object's members are now these; nothing else changes. */
  ghost predicate Regrouped(st: State, o: Id, members: seq<Id>, t: State)
  {
    o in st.objs && t == st.(objs := st.objs[o := st.objs[o].(members := members)])
  }

  ghost predicate Effect(st: State, op: Op, t: State)
  {
    match op
    case Create(o, members, h) => Born(st, o, members, h, t)
    case FromRaw(h, p) => Points(st, h, p, t)
    case Copy(h, from) => from in st.ptr && Points(st, h, st.ptr[from], t)
    case AssignRaw(h, p) => (h in t.ptr ==> t.ptr[h] == p) && Remains(st, h, t)
    case Assign(h, from) => from in st.ptr && (h in t.ptr ==> t.ptr[h] == st.ptr[from]) && Remains(st, h, t)
    case Swap(h, g) => h in st.ptr && g in st.ptr && Swapped(st.ptr, t.ptr, h, g) && t == st.(ptr := t.ptr)
    case Destroy(h) => h !in t.ptr && Remains(st, h, t)
    case SetNoDelete(o, b) =>
      && o in st.objs && t.ptr == st.ptr && t.freed == st.freed && t.objs.Keys == st.objs.Keys
      && t.objs[o] == Cell(st.objs[o].count, b, st.objs[o].members)
      && forall x :: x in st.objs && x != o ==> t.objs[x] == st.objs[x]
    case Adopt(h, o) => o in st.objs && Regrouped(st, o, st.objs[o].members + [h], t)
    case Release(h, o) => o in st.objs && exists a, b :: st.objs[o].members == a + [h] + b && Regrouped(st, o, a + b, t)
  }

  lemma MakePoints(st: State, h: Id, p: Ptr)
    requires Pointable(st, p)
    ensures Points(st, h, p, MakeHandle(st, h, p))
  {
  }

  lemma CreateMakes(st: State, o: Id, members: seq<Id>, h: Id)
    ensures Born(st, o, members, h, CreateObject(st, o, members, h))
  {
    var t := CreateObject(st, o, members, h);
    assert t.objs == st.objs[o := Cell(0, false, members)][o := Cell(1, false, members)];
  }

  lemma AssignRemains(st: State, h: Id, p: Ptr)
    requires Inv(st, {}) && h in st.ptr && Pointable(st, p)
    ensures Remains(st, h, AssignPtr(st, h, p))
  {
    hide Inv, InvBut, DecRef, Shrunk, Remains;
    if st.ptr[h] == p {
      CountedRemains(st, st, h, p);
    } else {
      Rebind(st, h, p);
      var t := if p == Null then st else IncRef(st, p.obj);
      var u := t.(ptr := t.ptr[h := p]);
      CountedRemains(st, u, h, p);
      if st.ptr[h].To? {
        DecRefWorks(u, st.ptr[h].obj, {});
        ShrunkRemains(u, DecRef(u, st.ptr[h].obj), h);
        RemainsTwice(st, u, DecRef(u, st.ptr[h].obj), h);
      }
    }
  }

  lemma CountedRemains(st: State, u: State, h: Id, p: Ptr)
    requires u.ptr == st.ptr[h := p] || u.ptr == st.ptr
    requires u.objs.Keys == st.objs.Keys && forall o :: o in st.objs ==>
               u.objs[o].members == st.objs[o].members && u.objs[o].noDelete == st.objs[o].noDelete
    ensures Remains(st, h, u)
  {
  }

  lemma RemainsTwice(st: State, u: State, t: State, h: Id)
    requires Remains(st, h, u) && Remains(u, h, t)
    ensures Remains(st, h, t)
  {
  }

  lemma ShrunkRemains(st: State, t: State, h: Id)
    requires Shrunk(st, t, {}, {}) || Shrunk(st, t, {}, {h})
    ensures Remains(st, h, t)
  {
    assert forall o :: o in t.objs ==> FlagKept(st.objs[o], t.objs[o]);
  }

  lemma {:induction false} WithoutTakesOne(hs: seq<Id>, h: Id) returns (a: seq<Id>, b: seq<Id>)
    requires NoDup(hs) && h in hs
    ensures hs == a + [h] + b && Without(hs, h) == a + b
    decreases |hs|
  {
    assert forall i :: 0 < i < |hs| ==> hs[i] == hs[1..][i - 1];
    if hs[0] == h {
      assert h !in hs[1..];
      WithoutNothing(hs[1..], h);
      a, b := [], hs[1..];
    } else {
      a, b := WithoutTakesOne(hs[1..], h);
      a := [hs[0]] + a;
    }
  }

  lemma {:induction false} WithoutNothing(hs: seq<Id>, h: Id)
    requires h !in hs
    ensures Without(hs, h) == hs
    decreases |hs|
  {
    if hs != [] {
      WithoutNothing(hs[1..], h);
    }
  }

  lemma ReleaseTakesOne(st: State, h: Id, o: Id)
    requires Inv(st, {}) && Legal(st, Release(h, o))
    ensures Effect(st, Release(h, o), ReleaseHandle(st, h, o))
  {
    hide Inv, Without, NoDup;
    MembersDistinct(st, o, {});
    var a, b := WithoutTakesOne(st.objs[o].members, h);
    assert Regrouped(st, o, a + b, ReleaseHandle(st, h, o));
  }

  /** Every operation has its effect. */
  lemma ApplyHasEffect(st: State, op: Op)
    requires Inv(st, {}) && Legal(st, op)
    ensures Effect(st, op, Apply(st, op))
  {
    hide MakeHandle, AssignPtr, SwapPtrs, CreateObject, DestroyHandle, ReleaseHandle, Inv;
    hide Remains, Points, Born, Swapped;
    match op
    case Create(o, members, h) => CreateMakes(st, o, members, h);
    case FromRaw(h, p) => MakePoints(st, h, p);
    case Copy(h, from) =>
      StoredIsPointable(st, from);
      MakePoints(st, h, st.ptr[from]);
    case AssignRaw(h, p) =>
      AssignKeepsInv(st, h, p);
      AssignRemains(st, h, p);
    case Assign(h, from) =>
      StoredIsPointable(st, from);
      AssignKeepsInv(st, h, st.ptr[from]);
      AssignRemains(st, h, st.ptr[from]);
    case Swap(h, g) => SwapKeepsInv(st, h, g);
    case Destroy(h) =>
      DestroyWorks(st, h, {});
      ShrunkRemains(st, DestroyHandle(st, h), h);
    case SetNoDelete(o, b) =>
    case Adopt(h, o) =>
    case Release(h, o) => ReleaseTakesOne(st, h, o);
  }

  /** A handle taken into a container and let go again leaves everything as it was. */
  lemma ReleaseUndoesAdopt(st: State, h: Id, o: Id)
    requires Inv(st, {}) && Legal(st, Adopt(h, o))
    ensures ReleaseHandle(AdoptHandle(st, h, o), h, o) == st
  {
    hide Inv, Without;
    var hs := st.objs[o].members;
    WithoutLast(hs, h);
    assert st.objs[o := st.objs[o].(members := hs + [h])][o := st.objs[o]] == st.objs;
  }

  lemma {:induction false} WithoutLast(hs: seq<Id>, h: Id)
    requires h !in hs
    ensures Without(hs + [h], h) == hs
    decreases |hs|
  {
    if hs == [] {
      assert [h][1..] == [];
    } else {
      assert (hs + [h])[1..] == hs[1..] + [h];
      WithoutLast(hs[1..], h);
    }
  }

  /** Over every run: each live object's count is the number of live handles on it, no handle dangles, no
      object is freed twice or used after, and no dead handle is used. */
  lemma {:induction false} RunKeepsInv(st: State, ops: seq<Op>, t: State)
    requires Inv(st, {}) && Reaches(st, ops, t)
    ensures Inv(t, {})
    decreases |ops|
  {
    hide Inv, Legal, Apply;
    if ops != [] {
      ApplyKeepsInv(st, ops[0]);
      RunKeepsInv(Apply(st, ops[0]), ops[1..], t);
    }
  }

  lemma EmptyIsSound()
    ensures Inv(EMPTY, {})
  {
  }

  // Reachability.

  ghost predicate Rooted(st: State, o: Id)
  {
    exists h :: Outside(st, h) && st.ptr[h] == To(o)
  }

  ghost predicate Edge(st: State, a: Id, b: Id)
  {
    a in st.objs && exists h :: h in st.objs[a].members && h in st.ptr && st.ptr[h] == To(b)
  }

  /** Objects from one an outside handle points at, each with a member handle on the next. */
  ghost predicate IsPath(st: State, path: seq<Id>)
  {
    path != [] && Rooted(st, path[0]) && forall i :: 0 <= i < |path| - 1 ==> Edge(st, path[i], path[i + 1])
  }

  ghost predicate Reachable(st: State, o: Id)
  {
    exists path: seq<Id> :: path != [] && IsPath(st, path) && path[|path| - 1] == o
  }

  /** Levels that rise along every edge: the graph has no cycle. */
  ghost predicate Acyclic(st: State, level: map<Id, nat>)
  {
    (forall o :: o in st.objs ==> o in level) &&
    forall a, b :: a in level && b in level && Edge(st, a, b) ==> level[a] < level[b]
  }

  lemma LiveHasRef(st: State, o: Id) returns (h: Id)
    requires Inv(st, {}) && st.pinned == {} && o in st.objs
    ensures h in st.ptr && st.ptr[h] == To(o)
  {
    assert st.objs[o].count != 0;
    assert Refs(st.ptr, o) != {};
    h :| h in Refs(st.ptr, o);
  }

  /** Without cycles everything live is reachable from outside. */
  lemma {:induction false} LiveIsReachable(st: State, level: map<Id, nat>, o: Id) returns (path: seq<Id>)
    requires Inv(st, {}) && st.pinned == {} && Acyclic(st, level) && o in st.objs
    ensures path != [] && IsPath(st, path) && path[|path| - 1] == o
    decreases level[o]
  {
    hide Inv;
    var h := LiveHasRef(st, o);
    if Outside(st, h) {
      path := [o];
    } else {
      var a :| a in st.objs && h in st.objs[a].members;
      assert Edge(st, a, o);
      var front := LiveIsReachable(st, level, a);
      path := front + [o];
      assert forall i :: 0 <= i < |front| ==> path[i] == front[i];
    }
  }

  lemma {:induction false} PathIsLive(st: State, path: seq<Id>, i: nat)
    requires Inv(st, {}) && IsPath(st, path) && i < |path|
    ensures path[i] in st.objs
    decreases i
  {
    hide Exact, Members, Ledger, Pins;
    if i == 0 {
      assert Rooted(st, path[0]);
    } else {
      assert Edge(st, path[i - 1], path[i]);
    }
  }

  /** After any run that pinned nothing and left no cycle, the live objects are exactly those reachable
      from outside handles: every cascade, of whatever operation, freed what it should and no more. */
  lemma LiveIffReachable(ops: seq<Op>, st: State, level: map<Id, nat>, o: Id)
    requires Reaches(EMPTY, ops, st) && st.pinned == {} && Acyclic(st, level)
    ensures o in st.objs <==> Reachable(st, o)
  {
    hide Inv, Reaches, Acyclic, IsPath;
    EmptyIsSound();
    RunKeepsInv(EMPTY, ops, st);
    if o in st.objs {
      var path := LiveIsReachable(st, level, o);
      assert Reachable(st, o);
    }
    if Reachable(st, o) {
      var path: seq<Id> :| path != [] && IsPath(st, path) && path[|path| - 1] == o;
      PathIsLive(st, path, |path| - 1);
    }
  }

  /** Nothing reachable from outside is freed by destroying a handle. */
  lemma {:induction false} PathSurvives(st: State, h: Id, path: seq<Id>, i: nat)
    requires Inv(st, {}) && Outside(st, h) && i < |path|
    requires IsPath(st.(ptr := st.ptr - {h}), path)
    ensures path[i] in DestroyHandle(st, h).objs
    decreases i
  {
    hide DestroyHandle, Inv, Shrunk;
    var s, t := st.(ptr := st.ptr - {h}), DestroyHandle(st, h);
    DestroyWorks(st, h, {});
    if i == 0 {
      var g :| Outside(s, g) && s.ptr[g] == To(path[0]);
      OutsideStays(st, t, h, g);
      TargetLives(t, g);
    } else {
      PathSurvives(st, h, path, i - 1);
      assert Edge(s, path[i - 1], path[i]);
      var g :| g in s.objs[path[i - 1]].members && g in s.ptr && s.ptr[g] == To(path[i]);
      MemberStays(st, t, h, path[i - 1], g);
      TargetLives(t, g);
    }
  }

  lemma TargetLives(t: State, g: Id)
    requires Inv(t, {}) && g in t.ptr && t.ptr[g].To?
    ensures t.ptr[g].obj in t.objs
  {
  }

  lemma OutsideStays(st: State, t: State, h: Id, g: Id)
    requires Shrunk(st, t, {}, {h}) && Outside(st, g) && g != h
    ensures g in t.ptr && t.ptr[g] == st.ptr[g]
  {
  }

  lemma MemberStays(st: State, t: State, h: Id, a: Id, g: Id)
    requires Inv(t, {}) && Shrunk(st, t, {}, {h}) && a in t.objs && g in st.ptr
    requires a in st.objs && g in st.objs[a].members
    ensures g in t.ptr && t.ptr[g] == st.ptr[g]
  {
  }

  /** Destroying a handle on a graph without cycles leaves exactly the objects that are still reachable
      from the other outside handles. */
  lemma DestroyLeavesReachable(ops: seq<Op>, st: State, h: Id, level: map<Id, nat>, o: Id)
    requires Reaches(EMPTY, ops, st) && st.pinned == {} && Outside(st, h) && Acyclic(st, level)
    ensures o in DestroyHandle(st, h).objs <==> Reachable(st.(ptr := st.ptr - {h}), o)
  {
    hide DestroyHandle, Inv, Reaches, Shrunk, Acyclic, IsPath;
    EmptyIsSound();
    RunKeepsInv(EMPTY, ops, st);
    DestroyWorks(st, h, {});
    var s, t := st.(ptr := st.ptr - {h}), DestroyHandle(st, h);
    if o in t.objs {
      ShrunkPinned(st, t, h);
      AcyclicShrunk(st, t, h, level);
      var path := LiveIsReachable(t, level, o);
      assert path != [];
      PathWas(st, t, h, path);
      assert Reachable(s, o);
    }
    if Reachable(s, o) {
      var path: seq<Id> :| path != [] && IsPath(s, path) && path[|path| - 1] == o;
      PathSurvives(st, h, path, |path| - 1);
    }
  }

  lemma ShrunkPinned(st: State, t: State, h: Id)
    requires Shrunk(st, t, {}, {h})
    ensures t.pinned == st.pinned
  {
  }

  lemma AcyclicShrunk(st: State, t: State, h: Id, level: map<Id, nat>)
    requires Shrunk(st, t, {}, {h}) && Acyclic(st, level)
    ensures Acyclic(t, level)
  {
    forall a, b | a in level && b in level && Edge(t, a, b)
      ensures level[a] < level[b]
    {
      assert Edge(st, a, b);
    }
  }

  /** A path after the cascade was one before it. */
  lemma PathWas(st: State, t: State, h: Id, path: seq<Id>)
    requires Shrunk(st, t, {}, {h}) && h !in t.ptr && IsPath(t, path)
    ensures IsPath(st.(ptr := st.ptr - {h}), path)
  {
    var s := st.(ptr := st.ptr - {h});
    var g :| Outside(t, g) && t.ptr[g] == To(path[0]);
    assert Outside(s, g) && s.ptr[g] == To(path[0]);
    forall i | 0 <= i < |path| - 1
      ensures Edge(s, path[i], path[i + 1])
    {
      assert Edge(t, path[i], path[i + 1]);
      var f :| f in t.objs[path[i]].members && f in t.ptr && t.ptr[f] == To(path[i + 1]);
      assert f in s.objs[path[i]].members && f in s.ptr && s.ptr[f] == To(path[i + 1]);
    }
  }

  lemma AssignOverNull(st: State, h: Id, o: Id)
    requires h in st.ptr && st.ptr[h] == Null && o in st.objs
    ensures AssignPtr(st, h, To(o)) ==
            st.(ptr := st.ptr[h := To(o)], objs := st.objs[o := st.objs[o].(count := st.objs[o].count + 1)])
  {
  }

  lemma DestroyShared(st: State, h: Id, o: Id)
    requires h in st.ptr && st.ptr[h] == To(o) && o in st.objs && st.objs[o].count > 1
    ensures DestroyHandle(st, h) ==
            st.(ptr := st.ptr - {h}, objs := st.objs[o := st.objs[o].(count := st.objs[o].count - 1)])
  {
    hide Delete;
  }

  /** Two objects, 0 and 1, with a member each, 10 and 11, and up to two outside handles, 20 and 21. */
  ghost predicate Pair(st: State, keys: set<Id>, p: Ptr, q: Ptr, m: int, n: int)
  {
    && st.ptr.Keys == keys && {10, 11} <= keys && st.ptr[10] == p && st.ptr[11] == q
    && (20 in keys ==> st.ptr[20] == To(0)) && (21 in keys ==> st.ptr[21] == To(1))
    && st.objs.Keys == {0, 1} && st.objs[0] == Cell(m, false, [10]) && st.objs[1] == Cell(n, false, [11])
  }

  lemma CreateOne(st: State, o: Id, g: Id, h: Id)
    requires Legal(st, Create(o, [g], h))
    ensures var t := CreateObject(st, o, [g], h);
            && t.ptr == st.ptr[g := Null][h := To(o)] && t.objs == st.objs[o := Cell(1, false, [g])]
            && t.freed == st.freed
  {
    assert st.ptr + (map x | x in [g] :: Null) == st.ptr[g := Null];
  }

  lemma PairCreated() returns (a: State, b: State)
    ensures Legal(EMPTY, Create(0, [10], 20)) && a == CreateObject(EMPTY, 0, [10], 20)
    ensures Legal(a, Create(1, [11], 21)) && b == CreateObject(a, 1, [11], 21)
    ensures Pair(b, {10, 11, 20, 21}, Null, Null, 1, 1)
  {
    hide CreateObject;
    CreateOne(EMPTY, 0, 10, 20);
    a := CreateObject(EMPTY, 0, [10], 20);
    CreateOne(a, 1, 11, 21);
    b := CreateObject(a, 1, [11], 21);
  }

  lemma PairTied(b: State) returns (c: State, d: State)
    requires Pair(b, {10, 11, 20, 21}, Null, Null, 1, 1)
    ensures Legal(b, Assign(10, 21)) && c == AssignPtr(b, 10, b.ptr[21])
    ensures Legal(c, Assign(11, 20)) && d == AssignPtr(c, 11, c.ptr[20])
    ensures Pair(d, {10, 11, 20, 21}, To(1), To(0), 2, 2)
  {
    hide AssignPtr;
    AssignOverNull(b, 10, 1);
    c := AssignPtr(b, 10, b.ptr[21]);
    AssignOverNull(c, 11, 0);
    d := AssignPtr(c, 11, c.ptr[20]);
  }

  lemma PairLeft(d: State) returns (e: State, f: State)
    requires Pair(d, {10, 11, 20, 21}, To(1), To(0), 2, 2)
    ensures Outside(d, 20) && e == DestroyHandle(d, 20)
    ensures Outside(e, 21) && f == DestroyHandle(e, 21)
    ensures Pair(f, {10, 11}, To(1), To(0), 1, 1)
  {
    hide DestroyHandle;
    DestroyShared(d, 20, 0);
    e := DestroyHandle(d, 20);
    DestroyShared(e, 21, 1);
    f := DestroyHandle(e, 21);
  }

  /** The handles left when two objects point at each other are all members: nothing is reachable. */
  lemma NothingOutside(st: State)
    requires Pair(st, {10, 11}, To(1), To(0), 1, 1)
    ensures forall o :: !Reachable(st, o)
  {
    assert forall h :: !Outside(st, h);
  }

  /** Objects that point at each other are never freed: with the outside handles gone they stay, though
      nothing reaches them. */
  lemma CycleLeaks()
    ensures var ops := [Create(0, [10], 20), Create(1, [11], 21), Assign(10, 21), Assign(11, 20)] +
            [Destroy(20), Destroy(21)];
            exists t :: Reaches(EMPTY, ops, t) && 0 in t.objs && 1 in t.objs && !Reachable(t, 0) && !Reachable(t, 1)
  {
    hide AssignPtr, DestroyHandle, CreateObject, Reachable, Legal, Outside, Reaches;
    var a, b := PairCreated();
    var c, d := PairTied(b);
    var e, f := PairLeft(d);
    NothingOutside(f);
    LastTwo(d, e, f);
    FirstFour(a, b, c, d, [Destroy(20), Destroy(21)], f);
  }

  lemma LastTwo(d: State, e: State, f: State)
    requires Outside(d, 20) && e == DestroyHandle(d, 20) && Outside(e, 21) && f == DestroyHandle(e, 21)
    ensures Reaches(d, [Destroy(20), Destroy(21)], f)
  {
    hide DestroyHandle, Outside;
    assert [Destroy(20), Destroy(21)][1..] == [Destroy(21)] && [Destroy(21)][1..] == [];
    assert Reaches(f, [], f) && Reaches(e, [Destroy(21)], f);
  }

  lemma FirstFour(a: State, b: State, c: State, d: State, rest: seq<Op>, f: State)
    requires Legal(EMPTY, Create(0, [10], 20)) && a == CreateObject(EMPTY, 0, [10], 20)
    requires Legal(a, Create(1, [11], 21)) && b == CreateObject(a, 1, [11], 21)
    requires Legal(b, Assign(10, 21)) && c == AssignPtr(b, 10, b.ptr[21])
    requires Legal(c, Assign(11, 20)) && d == AssignPtr(c, 11, c.ptr[20]) && Reaches(d, rest, f)
    ensures Reaches(EMPTY, [Create(0, [10], 20), Create(1, [11], 21), Assign(10, 21), Assign(11, 20)] + rest, f)
  {
    hide CreateObject, AssignPtr, Reaches, Outside;
    var r1 := [Assign(11, 20)] + rest;
    var r2 := [Assign(10, 21)] + r1;
    var r3 := [Create(1, [11], 21)] + r2;
    ReachesCons(c, Assign(11, 20), rest, f);
    ReachesCons(b, Assign(10, 21), r1, f);
    ReachesCons(a, Create(1, [11], 21), r2, f);
    ReachesCons(EMPTY, Create(0, [10], 20), r3, f);
    assert [Create(0, [10], 20), Create(1, [11], 21), Assign(10, 21), Assign(11, 20)] + rest ==
           [Create(0, [10], 20)] + r3;
  }

  lemma ReachesCons(st: State, op: Op, rest: seq<Op>, t: State)
    requires Legal(st, op) && Reaches(Apply(st, op), rest, t)
    ensures Reaches(st, [op] + rest, t)
  {
    hide Legal, Apply;
    assert ([op] + rest)[1..] == rest;
  }
}
