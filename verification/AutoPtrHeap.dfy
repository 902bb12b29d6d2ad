/** TC_HandleBaseT and TC_AutoPtr as they run: counts, flags and pointers updated in place, and a delete
    that runs the members' destructors. */
module AutoPtrHeap {
  import opened AutoPtr

  class Heap {
    var ptr: map<Id, Ptr>
    var objs: map<Id, Cell>
    ghost var freed: seq<Id>
    ghost var pinned: set<Id>

    /** Nothing dead is ever used here, so `bad` never comes up. */
    ghost function St(): State
      reads this
    {
      State(ptr, objs, freed, pinned, false)
    }

    constructor ()
      ensures St() == EMPTY && Inv(St(), {})
    {
      ptr, objs, freed, pinned := map[], map[], [], {};
    }

    method IncRef(o: Id)
      requires o in objs
      modifies `objs
      ensures St() == AutoPtr.IncRef(old(St()), o)
    {
      objs := objs[o := objs[o].(count := objs[o].count + 1)];
    }

    /** dec_and_test, and the delete if the count came to zero. */
    method DecRef(o: Id, ghost dying: set<Id>)
      requires InvBut(St(), dying, o)
      modifies this
      ensures St() == AutoPtr.DecRef(old(St()), o)
      ensures Inv(St(), dying)
      decreases |ptr|, 3, 0
    {
      hide AutoPtr.Delete, Sound, Refs;
      ghost var before := St();
      DecRefWorks(before, o, dying);
      objs := objs[o := objs[o].(count := objs[o].count - 1)];
      if objs[o].count == 0 && !objs[o].noDelete {
        objs := objs[o := objs[o].(noDelete := true)];
        assert objs == before.objs[o := Cell(0, true, before.objs[o].members)];
        BeginDelete(before, St(), o, dying);
        Delete(o, dying);
      }
    }

    /** The members' destructors, then the memory. */
    method Delete(o: Id, ghost dying: set<Id>)
      requires o in objs && o !in dying && Inv(St(), dying + {o})
      requires forall h :: h in objs[o].members ==> h in ptr
      modifies this
      ensures St() == AutoPtr.Delete(old(St()), o, old(objs[o].members))
      decreases |ptr|, 2, 0
    {
      hide DestroyHandle, Inv, Shrunk;
      var hs := objs[o].members;
      ghost var d := dying + {o};
      MembersDistinct(St(), o, d);
      var i := 0;
      assert hs[0..] == hs;
      while i < |hs|
        invariant i <= |hs| && |ptr| <= |old(ptr)| && Inv(St(), d) && o in objs
        invariant NoDup(hs[i..]) && forall h :: h in hs[i..] ==> h in ptr && h in objs[o].members
        invariant DestroyAll(old(St()), hs) == DestroyAll(St(), hs[i..])
      {
        ghost var before := St();
        var rest := hs[i..];
        assert rest[0] == hs[i] && rest[1..] == hs[i + 1..];
        OwnerIsDying(before, hs[i], d, o);
        DestroyWorks(before, hs[i], d);
        Destroy(hs[i], d);
        RestLives(before, St(), rest, d, o);
        i := i + 1;
      }
      objs := objs - {o};
      freed := freed + [o];
    }

    /** A handle's destructor. */
    method Destroy(h: Id, ghost dying: set<Id>)
      requires Inv(St(), dying) && h in ptr
      requires forall o :: o in objs && o !in dying ==> h !in objs[o].members
      modifies this
      ensures St() == DestroyHandle(old(St()), h)
      ensures Inv(St(), dying)
      decreases |ptr|, 0, 0
    {
      hide AutoPtr.DecRef, Inv, InvBut;
      DestroyWorks(St(), h, dying);
      HandleGone(St(), h, dying);
      Shrinks(ptr, h);
      var p := ptr[h];
      ptr := ptr - {h};
      if p.To? {
        DecRef(p.obj, dying);
      }
    }

    /** new T handed to a handle. */
    method Create(o: Id, members: seq<Id>, h: Id)
      requires Inv(St(), {}) && Legal(St(), Op.Create(o, members, h))
      modifies this
      ensures Inv(St(), {}) && St() == CreateObject(old(St()), o, members, h)
    {
      CreateKeepsInv(St(), o, members, h);
      objs := objs[o := Cell(0, false, members)];
      ptr := ptr + Nulls(members);
      ptr := ptr[h := To(o)];
      IncRef(o);
    }

    /** The constructors. */
    method Make(h: Id, p: Ptr)
      requires Inv(St(), {}) && h !in ptr && Pointable(St(), p)
      modifies this
      ensures Inv(St(), {}) && St() == MakeHandle(old(St()), h, p)
    {
      hide Inv;
      MakeKeepsInv(St(), h, p);
      ptr := ptr[h := p];
      if p.To? {
        IncRef(p.obj);
      }
    }

    /** The assignments. */
    method Assign(h: Id, p: Ptr)
      requires Inv(St(), {}) && h in ptr && Pointable(St(), p)
      modifies this
      ensures Inv(St(), {}) && St() == AssignPtr(old(St()), h, p)
    {
      hide Inv, InvBut, AutoPtr.DecRef;
      AssignKeepsInv(St(), h, p);
      if ptr[h] != p {
        Rebind(St(), h, p);
        if p.To? {
          IncRef(p.obj);
        }
        var was := ptr[h];
        ptr := ptr[h := p];
        if was.To? {
          DecRef(was.obj, {});
        }
      }
    }

    method Swap(h: Id, g: Id)
      requires Inv(St(), {}) && h in ptr && g in ptr
      modifies `ptr
      ensures Inv(St(), {}) && St() == SwapPtrs(old(St()), h, g)
      ensures ptr.Keys == old(ptr).Keys && ptr[h] == old(ptr[g]) && ptr[g] == old(ptr[h])
      ensures forall k :: k in ptr && k != h && k != g ==> ptr[k] == old(ptr)[k]
    {
      hide Inv;
      SwapKeepsInv(St(), h, g);
      var p := ptr[h];
      ptr := ptr[h := ptr[g]];
      ptr := ptr[g := p];
    }

    /** A handle pushed into a container that is a member of o, and one taken out of it. */
    method Adopt(h: Id, o: Id)
      requires Inv(St(), {}) && Legal(St(), Op.Adopt(h, o))
      modifies `objs
      ensures Inv(St(), {}) && St() == AdoptHandle(old(St()), h, o)
      ensures objs == old(objs)[o := old(objs)[o].(members := old(objs)[o].members + [h])]
    {
      hide Inv;
      AdoptKeepsInv(St(), h, o);
      objs := objs[o := objs[o].(members := objs[o].members + [h])];
    }

    method Release(h: Id, o: Id)
      requires Inv(St(), {}) && Legal(St(), Op.Release(h, o))
      modifies `objs
      ensures Inv(St(), {}) && St() == ReleaseHandle(old(St()), h, o) && Outside(St(), h)
      ensures objs.Keys == old(objs).Keys && |objs[o].members| == |old(objs)[o].members| - 1
      ensures forall g :: g in objs[o].members <==> g in old(objs)[o].members && g != h
    {
      hide Inv, Without;
      ReleaseKeepsInv(St(), h, o);
      MembersDistinct(St(), o, {});
      ghost var a, b := WithoutTakesOne(objs[o].members, h);
      objs := objs[o := objs[o].(members := Without(objs[o].members, h))];
    }

    method SetNoDelete(o: Id, b: bool)
      requires Inv(St(), {}) && o in objs
      modifies this
      ensures Inv(St(), {}) && St() == Apply(old(St()), Op.SetNoDelete(o, b))
      ensures objs == old(objs)[o := old(objs)[o].(noDelete := b)] && ptr == old(ptr)
    {
      hide Inv;
      PinKeepsInv(St(), o, b);
      objs := objs[o := objs[o].(noDelete := b)];
      pinned := pinned + {o};
    }
  }
}
