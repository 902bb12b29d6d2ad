/** What a cascade frees and what it spares, exactly, on every graph of objects; and what that means for an
    assignment. */
module AutoPtrSurvival {
  import opened AutoPtr

  // A set of objects that holds itself up.

  /** No object outside the set has this handle for a member. */
  ghost predicate OwnersIn(st: State, group: set<Id>, g: Id)
  {
    forall a :: a in st.objs && g in st.objs[a].members ==> a in group
  }

  /** The object is flagged against deletion, has no handle to lose, or has one that is a variable or a
      member of the group. */
  ghost predicate HeldUp(st: State, group: set<Id>, k: Id)
  {
    k in st.objs &&
    (st.objs[k].noDelete || st.objs[k].count == 0 ||
     exists g :: g in st.ptr && st.ptr[g] == To(k) && OwnersIn(st, group, g))
  }

  ghost predicate Supports(st: State, group: set<Id>)
  {
    forall k :: k in group ==> HeldUp(st, group, k)
  }

  /** The object belongs to a group that holds itself up. */
  ghost predicate Supported(st: State, k: Id)
  {
    exists group: set<Id> :: k in group && Supports(st, group)
  }

  // A cascade spares such a group. The handles that hold it up stay the same throughout.

  ghost predicate Held(st: State, dying: set<Id>, group: set<Id>, grip: set<Id>)
  {
    && group !! dying
    && (forall k :: k in group ==> k in st.objs && Gripped(st, grip, k))
    && (forall g :: g in grip ==> g in st.ptr && OwnersIn(st, group, g))
  }

  ghost predicate Gripped(st: State, grip: set<Id>, k: Id)
    requires k in st.objs
  {
    st.objs[k].noDelete || st.objs[k].count == 0 || exists g :: g in grip && g in st.ptr && st.ptr[g] == To(k)
  }

  lemma {:induction false} DecRefSpares(st: State, o: Id, dying: set<Id>, group: set<Id>, grip: set<Id>)
    requires InvBut(st, dying, o) && Held(st, dying, group, grip)
    ensures Held(DecRef(st, o), dying, group, grip)
    decreases |st.ptr|, 3, 0
  {
    hide Delete, Sound, Refs;
    var c := st.objs[o].count - 1;
    if c == 0 && !st.objs[o].noDelete {
      var s := st.(objs := st.objs[o := Cell(0, true, st.objs[o].members)]);
      NoRefs(st.ptr, o);
      assert o !in group;
      BeginDelete(st, s, o, dying);
      DeleteSpares(s, o, dying, group, grip);
    }
  }

  lemma {:induction false} DeleteSpares(s: State, o: Id, dying: set<Id>, group: set<Id>, grip: set<Id>)
    requires o in s.objs && o !in dying && Inv(s, dying + {o}) && Held(s, dying + {o}, group, grip)
    requires forall h :: h in s.objs[o].members ==> h in s.ptr
    ensures Held(Delete(s, o, s.objs[o].members), dying, group, grip)
    decreases |s.ptr|, 2, 0
  {
    hide DestroyAll, Sound, Exact, Held;
    MembersDistinct(s, o, dying + {o});
    DestroyAllSpares(s, s.objs[o].members, dying + {o}, o, group, grip);
    EndSpares(DestroyAll(s, s.objs[o].members), o, dying, group, grip);
  }

  /** Giving back the memory of a dying object, which is not of the group. */
  lemma EndSpares(u: State, o: Id, dying: set<Id>, group: set<Id>, grip: set<Id>)
    requires Held(u, dying + {o}, group, grip)
    ensures Held(u.(objs := u.objs - {o}, freed := u.freed + [o]), dying, group, grip)
  {
    var t := u.(objs := u.objs - {o}, freed := u.freed + [o]);
    forall k | k in group
      ensures k in t.objs && Gripped(t, grip, k)
    {
      assert Gripped(u, grip, k);
    }
  }

  lemma {:induction false} DestroyAllSpares(st: State, hs: seq<Id>, dying: set<Id>, x: Id, group: set<Id>,
                                            grip: set<Id>)
    requires Inv(st, dying) && x in dying && x in st.objs && NoDup(hs) && Held(st, dying, group, grip)
    requires forall h :: h in hs ==> h in st.ptr && h in st.objs[x].members
    ensures Held(DestroyAll(st, hs), dying, group, grip)
    decreases |st.ptr|, 1, |hs|
  {
    hide DestroyHandle, Inv, Shrunk, NoDup;
    if hs != [] {
      var h := hs[0];
      OwnerIsDying(st, h, dying, x);
      DestroyWorks(st, h, dying);
      RestLives(st, DestroyHandle(st, h), hs, dying, x);
      DestroySpares(st, h, dying, group, grip);
      DestroyAllSpares(DestroyHandle(st, h), hs[1..], dying, x, group, grip);
    }
  }

  lemma {:induction false} DestroySpares(st: State, h: Id, dying: set<Id>, group: set<Id>, grip: set<Id>)
    requires Inv(st, dying) && h in st.ptr && h !in grip && Held(st, dying, group, grip)
    requires forall o :: o in st.objs && o !in dying ==> h !in st.objs[o].members
    ensures Held(DestroyHandle(st, h), dying, group, grip)
    decreases |st.ptr|, 0, 0
  {
    hide DecRef, Inv, InvBut, Shrunk;
    Shrinks(st.ptr, h);
    HandleGone(st, h, dying);
    if st.ptr[h].To? {
      DecRefSpares(st.(ptr := st.ptr - {h}), st.ptr[h].obj, dying, group, grip);
    }
  }

  // And it spares nothing else.

  /** What is live when no destructor runs holds itself up. */
  lemma LiveSupports(st: State)
    requires Inv(st, {})
    ensures Supports(st, st.objs.Keys)
  {
    hide Sound;
    forall k | k in st.objs && st.objs[k].count != 0
      ensures HeldUp(st, st.objs.Keys, k)
    {
      assert Refs(st.ptr, k) != {};
      var g :| g in Refs(st.ptr, k);
      assert g in st.ptr && st.ptr[g] == To(k) && OwnersIn(st, st.objs.Keys, g);
    }
  }

  /** What held itself up after a cascade did so before it. */
  lemma SupportsBefore(u: State, t: State)
    requires Shrunk(u, t, {}, {}) && Supports(t, t.objs.Keys)
    ensures Supports(u, t.objs.Keys)
  {
    var group := t.objs.Keys;
    forall k | k in group
      ensures HeldUp(u, group, k)
    {
      assert HeldUp(t, group, k) && FlagKept(u.objs[k], t.objs[k]);
      if !t.objs[k].noDelete && t.objs[k].count != 0 {
        var g :| g in t.ptr && t.ptr[g] == To(k) && OwnersIn(t, group, g);
        assert g in u.ptr && u.ptr[g] == To(k) && OwnersIn(u, group, g);
      }
    }
  }

  lemma GripExists(u: State, group: set<Id>) returns (grip: set<Id>)
    requires Supports(u, group)
    ensures Held(u, {}, group, grip)
  {
    grip := set g | g in u.ptr && OwnersIn(u, group, g);
    forall k | k in group
      ensures k in u.objs && Gripped(u, grip, k)
    {
      assert HeldUp(u, group, k);
    }
  }

  /** On every graph, with or without cycles, with or without flagged objects: counting an object down
      leaves exactly the objects of groups that hold themselves up. */
  lemma CascadeIsExact(u: State, o: Id, k: Id)
    requires InvBut(u, {}, o)
    ensures k in DecRef(u, o).objs <==> Supported(u, k)
  {
    hide DecRef, InvBut, Inv, Shrunk, Supports;
    DecRefWorks(u, o, {});
    LiveSupports(DecRef(u, o));
    SupportsBefore(u, DecRef(u, o));
    if Supported(u, k) {
      var group: set<Id> :| k in group && Supports(u, group);
      var grip := GripExists(u, group);
      DecRefSpares(u, o, {}, group, grip);
    }
  }

  lemma SupportedLives(st: State, k: Id)
    requires Inv(st, {})
    ensures k in st.objs <==> Supported(st, k)
  {
    hide Inv;
    LiveSupports(st);
    if Supported(st, k) {
      var group: set<Id> :| k in group && Supports(st, group);
      assert HeldUp(st, group, k);
    }
  }

  /** The same of a destructor, from any state a run can reach. */
  lemma DestroyIsExact(ops: seq<Op>, st: State, h: Id, k: Id)
    requires Reaches(EMPTY, ops, st) && Outside(st, h)
    ensures k in DestroyHandle(st, h).objs <==> Supported(st.(ptr := st.ptr - {h}), k)
  {
    hide Inv, InvBut, DecRef, Supported, Reaches;
    EmptyIsSound();
    RunKeepsInv(EMPTY, ops, st);
    Shrinks(st.ptr, h);
    HandleGone(st, h, {});
    var u := st.(ptr := st.ptr - {h});
    if st.ptr[h].To? {
      CascadeIsExact(u, st.ptr[h].obj, k);
    } else {
      SupportedLives(u, k);
    }
  }

  // The flag.

  /** An object whose last handle is destroyed is freed if and only if it is not flagged. */
  lemma LastHandleFrees(st: State, h: Id)
    requires Inv(st, {}) && Outside(st, h) && st.ptr[h].To? && |Refs(st.ptr, st.ptr[h].obj)| == 1
    ensures st.ptr[h].obj in DestroyHandle(st, h).objs <==> st.objs[st.ptr[h].obj].noDelete
  {
    hide DecRef, InvBut, Inv, Refs, Supports, Supported, Members;
    var o, u := st.ptr[h].obj, st.(ptr := st.ptr - {h});
    Shrinks(st.ptr, h);
    HandleGone(st, h, {});
    RefsWithout(st.ptr, h, o);
    NoRefs(u.ptr, o);
    CascadeIsExact(u, o, o);
    OwesOne(u, o);
    if st.objs[o].noDelete {
      FlagSupports(u, o);
    } else {
      UnheldFalls(u, o);
    }
  }

  lemma OwesOne(u: State, o: Id)
    requires InvBut(u, {}, o)
    ensures o in u.objs && u.objs[o].count == |Refs(u.ptr, o)| + 1
  {
  }

  lemma FlagSupports(u: State, o: Id)
    requires o in u.objs && u.objs[o].noDelete
    ensures Supported(u, o)
  {
    assert HeldUp(u, {o}, o);
    assert Supports(u, {o});
  }

  lemma UnheldFalls(u: State, o: Id)
    requires o in u.objs && !u.objs[o].noDelete && u.objs[o].count != 0
    requires forall g :: g in u.ptr ==> u.ptr[g] != To(o)
    ensures !Supported(u, o)
  {
    forall group: set<Id> | o in group
      ensures !Supports(u, group)
    {
      assert !HeldUp(u, group, o);
    }
  }

  lemma FlaggedStays(st: State, op: Op, o: Id)
    requires Inv(st, {}) && Legal(st, op) && o in st.objs && st.objs[o].noDelete && op != SetNoDelete(o, false)
    ensures var t := Apply(st, op); o in t.objs && t.objs[o].noDelete
  {
    hide DestroyHandle, AssignPtr, Inv, InvBut, Supported, DecRef, Swapped;
    hide MakeHandle, SwapPtrs, CreateObject, AdoptHandle, ReleaseHandle;
    ApplyHasEffect(st, op);
    match op
    case AssignRaw(h, p) => FlaggedAssign(st, h, p, o);
    case Assign(h, from) =>
      StoredIsPointable(st, from);
      FlaggedAssign(st, h, st.ptr[from], o);
    case Destroy(h) => FlaggedDestroy(st, h, o);
    case _ =>
  }

  lemma FlaggedAssign(st: State, h: Id, p: Ptr, o: Id)
    requires Inv(st, {}) && h in st.ptr && Pointable(st, p) && o in st.objs && st.objs[o].noDelete
    ensures o in AssignPtr(st, h, p).objs
  {
    hide Inv, InvBut, DecRef, Supported, AssignPtr;
    AssignIsRebound(st, h, p);
    ReboundIs(st, h, p);
    if st.ptr[h] != p && st.ptr[h].To? {
      ReboundOwes(st, h, p);
      FlagSupports(Rebound(st, h, p), o);
      CascadeIsExact(Rebound(st, h, p), st.ptr[h].obj, o);
    }
  }

  lemma FlaggedDestroy(st: State, h: Id, o: Id)
    requires Inv(st, {}) && Outside(st, h) && o in st.objs && st.objs[o].noDelete
    ensures o in DestroyHandle(st, h).objs
  {
    hide Inv, InvBut, DecRef, Supported;
    Shrinks(st.ptr, h);
    HandleGone(st, h, {});
    var u := st.(ptr := st.ptr - {h});
    if st.ptr[h].To? {
      FlagSupports(u, o);
      CascadeIsExact(u, st.ptr[h].obj, o);
    }
  }

  lemma {:induction false} FlaggedRun(st: State, ops: seq<Op>, t: State, o: Id)
    requires Inv(st, {}) && Reaches(st, ops, t) && SetNoDelete(o, false) !in ops
    requires o in st.objs && st.objs[o].noDelete
    ensures o in t.objs && t.objs[o].noDelete
    decreases |ops|
  {
    hide Inv, Legal, Apply;
    if ops != [] {
      assert ops[0] in ops && forall op :: op in ops[1..] ==> op in ops;
      ApplyKeepsInv(st, ops[0]);
      FlaggedStays(st, ops[0], o);
      FlaggedRun(Apply(st, ops[0]), ops[1..], t, o);
    }
  }

  /** An object flagged with true lives on whatever happens, its last handle gone included, until it is
      flagged with false. */
  lemma FlaggedSurvives(ops: seq<Op>, st: State, o: Id, more: seq<Op>, t: State)
    requires Reaches(EMPTY, ops, st) && o in st.objs
    requires Reaches(Apply(st, SetNoDelete(o, true)), more, t) && SetNoDelete(o, false) !in more
    ensures o in t.objs
  {
    hide Inv, Legal, Reaches;
    EmptyIsSound();
    RunKeepsInv(EMPTY, ops, st);
    PinKeepsInv(st, o, true);
    FlaggedRun(Apply(st, SetNoDelete(o, true)), more, t, o);
  }

  // Assignment.

  /** The graph an assignment makes before it counts the old object down. */
  function Rebound(st: State, h: Id, p: Ptr): State
    requires h in st.ptr
  {
    if st.ptr[h] == p then st
    else
      var t := if p == Null then st else IncRef(st, p.obj);
      t.(ptr := t.ptr[h := p])
  }

  lemma ReboundIs(st: State, h: Id, p: Ptr)
    requires h in st.ptr && Pointable(st, p)
    ensures var u := Rebound(st, h, p);
            && u.ptr == st.ptr[h := p] && u.objs.Keys == st.objs.Keys
            && (forall k :: k in st.objs ==>
                u.objs[k].members == st.objs[k].members && u.objs[k].noDelete == st.objs[k].noDelete)
            && (forall k :: k in st.objs && To(k) != p ==> u.objs[k].count == st.objs[k].count)
  {
  }

  /** The handle assigned through lives on exactly if it is no member or its owner lives on. */
  lemma HandleSurvives(st: State, h: Id, p: Ptr)
    requires Inv(st, {}) && h in st.ptr && Pointable(st, p)
    ensures var t := AssignPtr(st, h, p);
            h in t.ptr <==> Outside(st, h) || exists a :: a in t.objs && h in t.objs[a].members
  {
    hide AssignPtr, Exact, Ledger, Pins, NoDup;
    var t := AssignPtr(st, h, p);
    AssignKeepsInv(st, h, p);
    AssignShrinks(st, h, p);
    if h in t.ptr && !Outside(st, h) {
      var a :| a in st.objs && h in st.objs[a].members;
      assert a in t.objs;
    }
  }

  lemma AssignIsRebound(st: State, h: Id, p: Ptr)
    requires h in st.ptr
    ensures AssignPtr(st, h, p) ==
            if st.ptr[h] == p || st.ptr[h] == Null then Rebound(st, h, p) else DecRef(Rebound(st, h, p), st.ptr[h].obj)
  {
  }

  /** An assignment makes no handle and no object, and an object it frees takes its members with it. */
  lemma AssignShrinks(st: State, h: Id, p: Ptr)
    requires Inv(st, {}) && h in st.ptr && Pointable(st, p)
    ensures var t := AssignPtr(st, h, p);
            && (forall g :: g in t.ptr ==> g in st.ptr)
            && (forall a :: a in t.objs ==> a in st.objs && t.objs[a].members == st.objs[a].members)
            && (forall a, g :: a in st.objs && a !in t.objs && g in st.objs[a].members ==> g !in t.ptr)
  {
    hide DecRef, Refs, Inv, InvBut, AssignPtr, Rebound;
    AssignIsRebound(st, h, p);
    ReboundIs(st, h, p);
    if st.ptr[h] != p && st.ptr[h].To? {
      ReboundOwes(st, h, p);
      DecRefWorks(Rebound(st, h, p), st.ptr[h].obj, {});
    }
  }

  lemma ReboundOwes(st: State, h: Id, p: Ptr)
    requires Inv(st, {}) && h in st.ptr && Pointable(st, p) && st.ptr[h] != p
    ensures if st.ptr[h].To? then InvBut(Rebound(st, h, p), {}, st.ptr[h].obj) else Inv(Rebound(st, h, p), {})
  {
    hide Inv, InvBut;
    Rebind(st, h, p);
  }

  /** An assignment leaves exactly the objects that are held up in the rebound graph: the object assigned
      too survives if and only if it is. */
  lemma AssignKeepsTarget(ops: seq<Op>, st: State, h: Id, p: Ptr, k: Id)
    requires Reaches(EMPTY, ops, st) && Legal(st, AssignRaw(h, p))
    ensures k in AssignPtr(st, h, p).objs <==> Supported(Rebound(st, h, p), k)
    ensures var t := AssignPtr(st, h, p);
            && (h in t.ptr <==> Outside(st, h) || exists a :: a in t.objs && h in t.objs[a].members)
            && (h in t.ptr ==> t.ptr[h] == p && Pointable(t, p))
  {
    hide Inv, InvBut, DecRef, Supported, Reaches, Refs, AssignPtr;
    EmptyIsSound();
    RunKeepsInv(EMPTY, ops, st);
    AssignKeepsInv(st, h, p);
    HandleSurvives(st, h, p);
    if h in AssignPtr(st, h, p).ptr {
      StoredIsPointable(AssignPtr(st, h, p), h);
    }
    AssignIsRebound(st, h, p);
    if st.ptr[h] == p {
      SupportedLives(st, k);
    } else {
      ReboundOwes(st, h, p);
      if st.ptr[h].To? {
        CascadeIsExact(Rebound(st, h, p), st.ptr[h].obj, k);
      } else {
        SupportedLives(Rebound(st, h, p), k);
      }
    }
  }

  // Three conditions a caller can see.

  /** The handle is a member of an object that is reachable without it. */
  ghost predicate OwnerReachable(st: State, h: Id)
  {
    exists a :: a in st.objs && h in st.objs[a].members && Reachable(st.(ptr := st.ptr - {h}), a)
  }

  lemma PathHolds(st: State, h: Id, x: Id, path: seq<Id>)
    requires Inv(st, {}) && h in st.ptr && x in st.objs && path != []
    requires IsPath(st.(ptr := st.ptr - {h}), path)
    ensures Supported(Rebound(st, h, To(x)), path[|path| - 1])
  {
    hide Rebound, Inv;
    var u, group := Rebound(st, h, To(x)), Elems(path);
    forall k | k in group
      ensures HeldUp(u, group, k)
    {
      var i :| 0 <= i < |path| && path[i] == k;
      PathStepHolds(st, h, x, path, i);
    }
    assert path[|path| - 1] in group && Supports(u, group);
  }

  lemma PathStepHolds(st: State, h: Id, x: Id, path: seq<Id>, i: nat)
    requires Inv(st, {}) && h in st.ptr && x in st.objs && i < |path|
    requires IsPath(st.(ptr := st.ptr - {h}), path)
    ensures HeldUp(Rebound(st, h, To(x)), Elems(path), path[i])
  {
    hide Rebound, Exact, Ledger, Pins, NoDup;
    var s, u := st.(ptr := st.ptr - {h}), Rebound(st, h, To(x));
    ReboundIs(st, h, To(x));
    var g: Id;
    if i == 0 {
      g :| Outside(s, g) && s.ptr[g] == To(path[0]);
    } else {
      assert Edge(s, path[i - 1], path[i]) && path[i - 1] in Elems(path);
      g :| g in s.objs[path[i - 1]].members && g in s.ptr && s.ptr[g] == To(path[i]);
    }
    assert g in u.ptr && u.ptr[g] == To(path[i]) && OwnersIn(u, Elems(path), g);
  }

  /** Without cycles the objects no higher than the owner hold themselves up: the old object is higher. */
  lemma AcyclicHolds(st: State, h: Id, x: Id, level: map<Id, nat>, a: Id)
    requires Inv(st, {}) && h in st.ptr && x in st.objs && Acyclic(st, level)
    requires a in st.objs && h in st.objs[a].members
    ensures Supported(Rebound(st, h, To(x)), a)
  {
    hide Rebound, Ledger, Pins, NoDup;
    var u, group := Rebound(st, h, To(x)), set k | k in st.objs && level[k] <= level[a];
    ReboundIs(st, h, To(x));
    forall k | k in group
      ensures HeldUp(u, group, k)
    {
      if k == x {
        assert h in u.ptr && u.ptr[h] == To(x) && OwnersIn(u, group, h);
      } else if st.objs[k].count != 0 {
        assert Refs(st.ptr, k) != {};
        var g :| g in Refs(st.ptr, k);
        assert g == h ==> Edge(st, a, k);
        forall b | b in st.objs && g in st.objs[b].members
          ensures b in group
        {
          assert Edge(st, b, k);
        }
        assert g in u.ptr && u.ptr[g] == To(k) && OwnersIn(u, group, g);
      }
    }
    assert a in group && Supports(u, group);
  }

  /** So an assignment never frees what it assigns if the handle is no object's member, or is a member of an
      object that is reachable without it, or if the graph has no cycle: the handle lives and holds it, even
      an object reachable only through the old one. */
  lemma AssignIsSafe(ops: seq<Op>, st: State, h: Id, x: Id, level: map<Id, nat>)
    requires Reaches(EMPTY, ops, st) && Legal(st, AssignRaw(h, To(x)))
    requires Outside(st, h) || OwnerReachable(st, h) || Acyclic(st, level)
    ensures var t := AssignPtr(st, h, To(x)); x in t.objs && h in t.ptr && t.ptr[h] == To(x)
  {
    hide Inv, AssignPtr, Supported, Reaches, Reachable, Acyclic, Rebound;
    EmptyIsSound();
    RunKeepsInv(EMPTY, ops, st);
    AssignKeepsTarget(ops, st, h, To(x), x);
    if Outside(st, h) {
    } else if st.ptr[h] == To(x) {
      SamePointer(st, h, x);
    } else {
      var a := OwnerHolds(st, h, x, level);
      AssignKeepsTarget(ops, st, h, To(x), a);
      AssignShrinks(st, h, To(x));
    }
  }

  lemma OwnerHolds(st: State, h: Id, x: Id, level: map<Id, nat>) returns (a: Id)
    requires Inv(st, {}) && Legal(st, AssignRaw(h, To(x))) && !Outside(st, h) && st.ptr[h] != To(x)
    requires OwnerReachable(st, h) || Acyclic(st, level)
    ensures a in st.objs && h in st.objs[a].members && Supported(Rebound(st, h, To(x)), a)
  {
    hide Inv, Supported, Reachable, Acyclic, Rebound;
    if OwnerReachable(st, h) {
      a :| a in st.objs && h in st.objs[a].members && Reachable(st.(ptr := st.ptr - {h}), a);
      var path := PathTo(st.(ptr := st.ptr - {h}), a);
      PathHolds(st, h, x, path);
    } else {
      a :| a in st.objs && h in st.objs[a].members;
      AcyclicHolds(st, h, x, level, a);
    }
  }

  lemma SamePointer(st: State, h: Id, x: Id)
    requires h in st.ptr && st.ptr[h] == To(x)
    ensures AssignPtr(st, h, To(x)) == st
  {
  }

  lemma PathTo(st: State, a: Id) returns (path: seq<Id>)
    requires Reachable(st, a)
    ensures path != [] && IsPath(st, path) && path[|path| - 1] == a
  {
    path :| path != [] && IsPath(st, path) && path[|path| - 1] == a;
  }

  // An assignment that does free what it assigns. Three objects, 0, 1 and 2; the members are 100 of object
  // 0, and 101 and 102 of object 1. First there are outside handles 20, 21 and 22, too.

  /** Which handles there are, what the members hold, and that each object has n handles. */
  ghost predicate Trio(st: State, keys: set<Id>, a: Ptr, b: Ptr, c: Ptr, l: int, m: int, n: int)
  {
    && st.ptr.Keys == keys && {100, 101, 102} <= keys <= {100, 101, 102, 20, 21, 22}
    && st.ptr[100] == a && st.ptr[101] == b && st.ptr[102] == c
    && (20 in keys ==> st.ptr[20] == To(0)) && (21 in keys ==> st.ptr[21] == To(1))
    && (22 in keys ==> st.ptr[22] == To(2))
    && st.objs.Keys == {0, 1, 2} && st.freed == []
    && st.objs[0] == Cell(l, false, [100]) && st.objs[1] == Cell(m, false, [101, 102])
    && st.objs[2] == Cell(n, false, [])
  }

  const BUILD: seq<Op> := [Create(0, [100], 20), Create(1, [101, 102], 21), Create(2, [], 22)]
  const TIE: seq<Op> := [Assign(100, 21), Assign(101, 20), Assign(102, 22)]
  const LEAVE: seq<Op> := [Destroy(20), Destroy(21), Destroy(22)]

  lemma {:induction false} ReachesMore(st: State, ops: seq<Op>, t: State, more: seq<Op>, u: State)
    requires Reaches(st, ops, t) && Reaches(t, more, u)
    ensures Reaches(st, ops + more, u)
    decreases |ops|
  {
    hide Legal, Apply;
    if ops == [] {
      assert ops + more == more;
    } else {
      ReachesMore(Apply(st, ops[0]), ops[1..], t, more, u);
      ReachesCons(st, ops[0], ops[1..] + more, u);
      assert ops + more == [ops[0]] + (ops[1..] + more);
    }
  }

  lemma ThreeSteps(st: State, a: Op, b: Op, c: Op, t: State, u: State, v: State)
    requires Legal(st, a) && t == Apply(st, a) && Legal(t, b) && u == Apply(t, b) && Legal(u, c) && v == Apply(u, c)
    ensures Reaches(st, [a, b, c], v)
  {
    hide Legal, Apply;
    assert Reaches(v, [], v);
    assert [c] == [c] + [] && [b, c] == [b] + [c] && [a, b, c] == [a] + [b, c];
    ReachesCons(u, c, [], v);
    ReachesCons(t, b, [c], v);
    ReachesCons(st, a, [b, c], v);
  }

  /** A new object whose member handles are nulls. */
  lemma Created(st: State, o: Id, members: seq<Id>, h: Id, nulls: map<Id, Ptr>)
    requires Legal(st, Create(o, members, h)) && nulls == Nulls(members)
    ensures var t := CreateObject(st, o, members, h);
            t.ptr == (st.ptr + nulls)[h := To(o)] && t.objs == st.objs[o := Cell(1, false, members)] &&
              t.freed == st.freed
  {
  }

  lemma FirstBuilt() returns (t: State)
    ensures Legal(EMPTY, BUILD[0]) && t == Apply(EMPTY, BUILD[0])
    ensures t.ptr == map[100 := Null, 20 := To(0)] && t.objs == map[0 := Cell(1, false, [100])] && t.freed == []
  {
    hide CreateObject;
    Created(EMPTY, 0, [100], 20, map[100 := Null]);
    t := CreateObject(EMPTY, 0, [100], 20);
  }

  lemma SecondIsLegal(s: State)
    requires s.ptr.Keys == {100, 20} && s.objs.Keys == {0} && s.freed == []
    ensures Legal(s, BUILD[1])
  {
  }

  lemma SecondMembers()
    ensures map[101 := Null, 102 := Null] == Nulls([101, 102])
  {
  }

  lemma SecondBuilt(s: State) returns (t: State)
    requires s.ptr == map[100 := Null, 20 := To(0)] && s.objs == map[0 := Cell(1, false, [100])] && s.freed == []
    ensures Legal(s, BUILD[1]) && t == Apply(s, BUILD[1]) && t.freed == []
    ensures t.ptr == map[100 := Null, 20 := To(0), 101 := Null, 102 := Null, 21 := To(1)]
    ensures t.objs == map[0 := Cell(1, false, [100]), 1 := Cell(1, false, [101, 102])]
  {
    hide CreateObject, Legal;
    SecondIsLegal(s);
    SecondMembers();
    Created(s, 1, [101, 102], 21, map[101 := Null, 102 := Null]);
    t := CreateObject(s, 1, [101, 102], 21);
  }

  lemma ThirdIsLegal(s: State)
    requires s.ptr.Keys == {100, 20, 101, 102, 21} && s.objs.Keys == {0, 1} && s.freed == []
    ensures Legal(s, BUILD[2])
  {
  }

  lemma ThirdBuilt(s: State) returns (t: State)
    requires s.ptr == map[100 := Null, 20 := To(0), 101 := Null, 102 := Null, 21 := To(1)]
    requires s.objs == map[0 := Cell(1, false, [100]), 1 := Cell(1, false, [101, 102])] && s.freed == []
    ensures Legal(s, BUILD[2]) && t == Apply(s, BUILD[2])
    ensures Trio(t, {100, 101, 102, 20, 21, 22}, Null, Null, Null, 1, 1, 1)
  {
    hide CreateObject, Legal;
    ThirdIsLegal(s);
    Created(s, 2, [], 22, map[]);
    t := CreateObject(s, 2, [], 22);
    assert t.ptr == s.ptr[22 := To(2)] && t.objs == s.objs[2 := Cell(1, false, [])];
  }

  lemma TrioBuilt() returns (t: State)
    ensures Reaches(EMPTY, BUILD, t) && Trio(t, {100, 101, 102, 20, 21, 22}, Null, Null, Null, 1, 1, 1)
  {
    hide Legal, Apply, Reaches, Trio;
    var a := FirstBuilt();
    var b := SecondBuilt(a);
    t := ThirdBuilt(b);
    ThreeSteps(EMPTY, BUILD[0], BUILD[1], BUILD[2], a, b, t);
  }

  lemma TrioTied(s: State) returns (t: State)
    requires Trio(s, {100, 101, 102, 20, 21, 22}, Null, Null, Null, 1, 1, 1)
    ensures Reaches(s, TIE, t) && Trio(t, {100, 101, 102, 20, 21, 22}, To(1), To(0), To(2), 2, 2, 2)
  {
    hide AssignPtr, Reaches;
    AssignOverNull(s, 100, 1);
    var a := AssignPtr(s, 100, To(1));
    AssignOverNull(a, 101, 0);
    var b := AssignPtr(a, 101, To(0));
    AssignOverNull(b, 102, 2);
    t := AssignPtr(b, 102, To(2));
    ThreeSteps(s, TIE[0], TIE[1], TIE[2], a, b, t);
  }

  lemma TrioOutside(s: State, h: Id)
    requires s.objs.Keys == {0, 1, 2} && s.objs[0].members == [100] && s.objs[1].members == [101, 102] &&
             s.objs[2].members == []
    requires h in {20, 21, 22} && h in s.ptr
    ensures Legal(s, Destroy(h))
  {
  }

  /** One of the three outside handles goes. */
  lemma OneLeaves(s: State, h: Id, o: Id, keys: set<Id>, l: int, m: int, n: int)
    requires (h, o) in {(20, 0), (21, 1), (22, 2)} && h in keys && Trio(s, keys, To(1), To(0), To(2), l, m, n)
    requires s.objs[o].count == 2
    ensures Legal(s, Destroy(h))
    ensures var d := o => if h == 20 + o then 1 else 0;
            Trio(Apply(s, Destroy(h)), keys - {h}, To(1), To(0), To(2), l - d(0), m - d(1), n - d(2))
  {
    hide DestroyHandle, Legal;
    TrioOutside(s, h);
    DestroyShared(s, h, o);
  }

  lemma TrioLeft(s: State) returns (t: State)
    requires Trio(s, {100, 101, 102, 20, 21, 22}, To(1), To(0), To(2), 2, 2, 2)
    ensures Reaches(s, LEAVE, t) && Trio(t, {100, 101, 102}, To(1), To(0), To(2), 1, 1, 1)
  {
    hide Apply, Legal, Reaches;
    var all := {100, 101, 102, 20, 21, 22};
    OneLeaves(s, 20, 0, all, 2, 2, 2);
    var a := Apply(s, Destroy(20));
    OneLeaves(a, 21, 1, all - {20}, 1, 2, 2);
    var b := Apply(a, Destroy(21));
    OneLeaves(b, 22, 2, all - {20} - {21}, 1, 1, 2);
    t := Apply(b, Destroy(22));
    assert all - {20} - {21} - {22} == {100, 101, 102};
    ThreeSteps(s, LEAVE[0], LEAVE[1], LEAVE[2], a, b, t);
  }

  /** Handed to member 100, object 2 is held by members of 0 and 1 only, 0 by a member of 1, and 1 by none. */
  lemma TrioUnsupported(st: State, k: Id)
    requires Trio(st, {100, 101, 102}, To(1), To(0), To(2), 1, 1, 1)
    ensures !Supported(Rebound(st, 100, To(2)), k)
  {
    var u := Rebound(st, 100, To(2));
    forall group: set<Id> | Supports(u, group)
      ensures k !in group
    {
      assert 0 in u.objs && 100 in u.objs[0].members && 1 in u.objs && 101 in u.objs[1].members &&
             102 in u.objs[1].members;
      assert 1 in group ==> HeldUp(u, group, 1);
      assert 0 in group ==> HeldUp(u, group, 0);
      assert 2 in group ==> HeldUp(u, group, 2);
      assert k in group ==> HeldUp(u, group, k);
    }
  }

  /** The code does not meet the promise in general. Objects 0 and 1 hold each other, and 1 alone holds 2;
      no outside handle is left. Assigning 2 to the member of 0 that held 1 frees 1, with it 0, with it the
      handle assigned through, and so 2. */
  lemma AssignCanFreeTarget()
    ensures exists st :: && Reaches(EMPTY, BUILD + TIE + LEAVE, st) && Legal(st, AssignRaw(100, To(2)))
                         && 2 in st.objs
                         && AssignPtr(st, 100, To(2)).objs == map[] && AssignPtr(st, 100, To(2)).ptr == map[]
  {
    hide Reaches, Supported, Rebound, AssignPtr, Trio;
    var a := TrioBuilt();
    var b := TrioTied(a);
    var st := TrioLeft(b);
    ReachesMore(EMPTY, BUILD, a, TIE, b);
    ReachesMore(EMPTY, BUILD + TIE, b, LEAVE, st);
    TrioHas(st);
    var t := AssignPtr(st, 100, To(2));
    forall k: Id
      ensures k !in t.objs
    {
      TrioUnsupported(st, k);
      AssignKeepsTarget(BUILD + TIE + LEAVE, st, 100, To(2), k);
    }
    EmptyIsSound();
    RunKeepsInv(EMPTY, BUILD + TIE + LEAVE, st);
    TrioGone(st, t);
  }

  lemma TrioHas(st: State)
    requires Trio(st, {100, 101, 102}, To(1), To(0), To(2), 1, 1, 1)
    ensures 100 in st.ptr && 2 in st.objs
  {
  }

  lemma TrioGone(st: State, t: State)
    requires Inv(st, {}) && Trio(st, {100, 101, 102}, To(1), To(0), To(2), 1, 1, 1)
    requires t == AssignPtr(st, 100, To(2)) && t.objs == map[]
    ensures t.ptr == map[]
  {
    hide AssignPtr, Inv;
    AssignShrinks(st, 100, To(2));
    assert 100 in st.objs[0].members && 101 in st.objs[1].members && 102 in st.objs[1].members;
    assert forall g :: g in t.ptr ==> g in {100, 101, 102};
  }

  // Leaks.

  /** Live objects, each with a member handle on the next and the last on the first. */
  ghost predicate Ring(st: State, c: seq<Id>)
  {
    && c != [] && (forall i :: 0 <= i < |c| ==> c[i] in st.objs)
    && (forall i :: 0 <= i < |c| - 1 ==> Edge(st, c[i], c[i + 1])) && Edge(st, c[|c| - 1], c[0])
  }

  /** Live objects that nothing reaches, each with a member handle on the next. */
  ghost predicate Stray(st: State, c: seq<Id>)
  {
    && c != [] && NoDup(c) && (forall i :: 0 <= i < |c| ==> c[i] in st.objs && !Reachable(st, c[i]))
    && (forall i :: 0 <= i < |c| - 1 ==> Edge(st, c[i], c[i + 1]))
  }

  lemma {:induction false} ElemsSize(s: seq<Id>)
    requires NoDup(s)
    ensures |Elems(s)| == |s|
    decreases |s|
  {
    if s != [] {
      ElemsSize(s[1..]);
      assert Elems(s) == {s[0]} + Elems(s[1..]);
      assert s[0] !in Elems(s[1..]);
    }
  }

  lemma SubsetSize(a: set<Id>, b: set<Id>)
    requires a <= b
    ensures |a| <= |b|
  {
    assert b == a + (b - a);
  }

  lemma RootReaches(st: State, h: Id, o: Id)
    requires Outside(st, h) && st.ptr[h] == To(o)
    ensures Reachable(st, o)
  {
    assert IsPath(st, [o]);
  }

  lemma EdgeReaches(st: State, a: Id, o: Id)
    requires Reachable(st, a) && Edge(st, a, o)
    ensures Reachable(st, o)
  {
    hide Edge;
    var path := PathTo(st, a);
    assert forall i :: 0 <= i < |path| ==> (path + [o])[i] == path[i];
    assert IsPath(st, path + [o]);
  }

  /** What holds a stray object up is itself stray. */
  lemma StrayOwner(st: State, o: Id) returns (a: Id)
    requires Inv(st, {}) && st.pinned == {} && o in st.objs && !Reachable(st, o)
    ensures a in st.objs && Edge(st, a, o) && !Reachable(st, a)
  {
    hide Inv, Reachable;
    var h := LiveHasRef(st, o);
    if Outside(st, h) {
      RootReaches(st, h, o);
    }
    a :| a in st.objs && h in st.objs[a].members;
    assert Edge(st, a, o);
    if Reachable(st, a) {
      EdgeReaches(st, a, o);
    }
  }

  /** Going back from a stray object comes round. */
  lemma {:induction false} StrayRing(st: State, c: seq<Id>) returns (ring: seq<Id>)
    requires Inv(st, {}) && st.pinned == {} && Stray(st, c)
    ensures Ring(st, ring) && forall i :: 0 <= i < |ring| ==> !Reachable(st, ring[i])
    decreases |st.objs| - |c|
  {
    hide Inv, Reachable, Edge;
    var a := StrayOwner(st, c[0]);
    if a in c {
      var j :| 0 <= j < |c| && c[j] == a;
      ring := c[..j + 1];
    } else {
      var d := [a] + c;
      assert forall i :: 0 < i < |d| ==> d[i] == c[i - 1];
      ElemsSize(d);
      SubsetSize(Elems(d), st.objs.Keys);
      ring := StrayRing(st, d);
    }
  }

  /** A ring nothing reaches. */
  ghost predicate LostRing(st: State, c: seq<Id>)
  {
    Ring(st, c) && forall i :: 0 <= i < |c| ==> !Reachable(st, c[i])
  }

  /** After any run that flagged nothing, some live object is out of reach if and only if there is a ring of
      live objects out of reach: cycles are the only way to leak. */
  lemma LeaksAreRings(ops: seq<Op>, st: State)
    requires Reaches(EMPTY, ops, st) && st.pinned == {}
    ensures (exists o :: o in st.objs && !Reachable(st, o)) <==> (exists c: seq<Id> :: LostRing(st, c))
  {
    hide Inv, Reaches, Reachable;
    EmptyIsSound();
    RunKeepsInv(EMPTY, ops, st);
    if o :| o in st.objs && !Reachable(st, o) {
      var c := StrayRing(st, [o]);
      assert LostRing(st, c);
    }
    if c: seq<Id> :| LostRing(st, c) {
      assert c[0] in st.objs && !Reachable(st, c[0]);
    }
  }
}
