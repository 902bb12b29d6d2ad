/** Threads that share objects through handles of their own, interleaved at the atomic steps of TC_AutoPtr:
    count up, rebind, count down and test, delete, member by member. */
module AutoPtrThreads {
  import opened AutoPtr

  /** What a thread has yet to do. `via` is the handle a member is reached through; for a handle of the
      thread's own it is that handle. */
  datatype Task =
    | Inc(h: Id, via: Id, from: Id, p: Ptr) // p was read from another handle; count its object up
    | Bind(h: Id, via: Id, p: Ptr)          // it was counted up; write the handle
    | Dec(o: Id)                            // the handle was overwritten or destroyed; dec_and_test
    | Test(o: Id)                           // the count came to zero; look at the flag
    | Kill(o: Id, rest: seq<Id>)            // delete: destructors of the members that are left, then the memory

  /** A thread: the handles that are its variables, and its call stack, innermost first. */
  datatype Thread = Thread(own: set<Id>, stack: seq<Task>)

  datatype System = System(ptr: map<Id, Ptr>, objs: map<Id, Cell>, freed: seq<Id>, ths: seq<Thread>, bad: bool)

  /** A step of thread t: an operation begun, or the next atomic step of the one under way. A handle under
      construction is seen by no other thread, nor is a new object, so their first writes need no steps. */
  datatype Label =
    | New(t: nat, o: Id, members: seq<Id>, h: Id)
    | CopyTo(t: nat, h: Id, from: Id)
    | AssignTo(t: nat, h: Id, via: Id, from: Id)
    | Drop(t: nat, h: Id)
    | Give(t: nat, u: nat, h: Id)
    | Go(t: nat)

  function Started(n: nat): System
  {
    System(map[], map[], [], seq(n, _ => Thread({}, [])), false)
  }

  function WithStack(ths: seq<Thread>, t: nat, stack: seq<Task>): seq<Thread>
    requires t < |ths|
  {
    ths[t := ths[t].(stack := stack)]
  }

  function WithOwn(ths: seq<Thread>, t: nat, own: set<Id>): seq<Thread>
    requires t < |ths|
  {
    ths[t := ths[t].(own := own)]
  }

  /** A name no live handle has, nor a member of a live object, nor a thread. */
  ghost predicate Unused(s: System, h: Id)
  {
    && h !in s.ptr && (forall o :: o in s.objs ==> h !in s.objs[o].members)
    && (forall t :: 0 <= t < |s.ths| ==> h !in s.ths[t].own)
  }

  /** The thread reaches the handle: it is its own, or a member of an object an own handle holds. */
  predicate Site(ptr: map<Id, Ptr>, objs: map<Id, Cell>, own: set<Id>, h: Id, via: Id)
  {
    via in own &&
    (via == h || (via in ptr && ptr[via].To? && ptr[via].obj in objs && h in objs[ptr[via].obj].members))
  }

  /** Another thread is about to write the handle. */
  ghost predicate Contended(s: System, h: Id)
  {
    exists t, i :: 0 <= t < |s.ths| && 0 <= i < |s.ths[t].stack| && Writes(s.ths[t].stack[i], h)
  }

  predicate Writes(task: Task, h: Id)
  {
    (task.Inc? || task.Bind?) && task.h == h
  }

  /** Operations are begun by a thread that is in none, on handles it may use. */
  ghost predicate Allowed(s: System, l: Label)
  {
    l.t < |s.ths| &&
    var th := s.ths[l.t];
    match l
    case Go(t) => th.stack != []
    case New(t, o, members, h) =>
      && th.stack == [] && o !in s.objs && o !in s.freed && NoDup(members) && h !in members
      && Unused(s, h) && forall g :: g in members ==> Unused(s, g)
    case CopyTo(t, h, from) => th.stack == [] && Unused(s, h) && from in th.own && from in s.ptr
    case AssignTo(t, h, via, from) =>
      && th.stack == [] && from in th.own && from in s.ptr && h in s.ptr
      && Site(s.ptr, s.objs, th.own, h, via) && !Contended(s, h)
    case Drop(t, h) => th.stack == [] && h in th.own && h in s.ptr
    case Give(t, u, h) => th.stack == [] && u < |s.ths| && h in th.own && h in s.ptr
  }

  function Step(s: System, l: Label): System
    requires l.t < |s.ths| && (l.Go? ==> s.ths[l.t].stack != [])
  {
    match l
    case Go(t) => Advance(s, t)
    case New(t, o, members, h) =>
      s.(ptr := (s.ptr + Nulls(members))[h := To(o)], objs := s.objs[o := Cell(1, false, members)],
         ths := WithOwn(s.ths, t, s.ths[t].own + {h}))
    case CopyTo(t, h, from) =>
      if from !in s.ptr then s.(bad := true)
      else s.(ths := s.ths[t := Thread(s.ths[t].own + {h}, [Inc(h, h, from, s.ptr[from])])])
    case AssignTo(t, h, via, from) =>
      if from !in s.ptr || h !in s.ptr then s.(bad := true)
      else if s.ptr[h] == s.ptr[from] then s
      else s.(ths := WithStack(s.ths, t, [Inc(h, via, from, s.ptr[from])]))
    case Drop(t, h) =>
      if h !in s.ptr then s.(bad := true)
      else s.(ptr := s.ptr - {h}, ths := s.ths[t := Thread(s.ths[t].own - {h}, Owing(s.ptr[h]))])
    case Give(t, u, h) =>
      if u >= |s.ths| then s
      else
        var ths := WithOwn(s.ths, t, s.ths[t].own - {h});
        s.(ths := WithOwn(ths, u, ths[u].own + {h}))
  }

  /** The count down that is due when a pointer is gone from a handle. */
  function Owing(p: Ptr): seq<Task>
  {
    if p == Null then [] else [Dec(p.obj)]
  }

  /** The next atomic step of a thread. */
  function Advance(s: System, t: nat): System
    requires t < |s.ths| && s.ths[t].stack != []
  {
    var rest := s.ths[t].stack[1..];
    match s.ths[t].stack[0]
    case Inc(h, via, from, p) => AtInc(s, t, rest, h, via, p)
    case Bind(h, via, p) => AtBind(s, t, rest, h, p)
    case Dec(o) => AtDec(s, t, rest, o)
    case Test(o) => AtTest(s, t, rest, o)
    case Kill(o, members) => if members == [] then AtFree(s, t, rest, o) else AtMember(s, t, rest, o, members)
  }

  function AtInc(s: System, t: nat, rest: seq<Task>, h: Id, via: Id, p: Ptr): System
    requires t < |s.ths|
  {
    var u := s.(ths := WithStack(s.ths, t, [Bind(h, via, p)] + rest));
    if p == Null then u
    else if p.obj !in s.objs then u.(bad := true)
    else u.(objs := s.objs[p.obj := s.objs[p.obj].(count := s.objs[p.obj].count + 1)])
  }

  function AtBind(s: System, t: nat, rest: seq<Task>, h: Id, p: Ptr): System
    requires t < |s.ths|
  {
    var was := if h in s.ptr then s.ptr[h] else Null;
    s.(ptr := s.ptr[h := p], ths := WithStack(s.ths, t, Owing(was) + rest))
  }

  function AtDec(s: System, t: nat, rest: seq<Task>, o: Id): System
    requires t < |s.ths|
  {
    if o !in s.objs then s.(bad := true)
    else
      var c := s.objs[o].count - 1;
      s.(objs := s.objs[o := s.objs[o].(count := c)],
         ths := WithStack(s.ths, t, if c == 0 then [Test(o)] + rest else rest))
  }

  function AtTest(s: System, t: nat, rest: seq<Task>, o: Id): System
    requires t < |s.ths|
  {
    if o !in s.objs then s.(bad := true)
    else if s.objs[o].noDelete then s.(ths := WithStack(s.ths, t, rest))
    else
      s.(objs := s.objs[o := s.objs[o].(noDelete := true)],
         ths := WithStack(s.ths, t, [Kill(o, s.objs[o].members)] + rest))
  }

  function AtMember(s: System, t: nat, rest: seq<Task>, o: Id, members: seq<Id>): System
    requires t < |s.ths| && members != []
  {
    var m := members[0];
    if m !in s.ptr then s.(bad := true)
    else
      s.(ptr := s.ptr - {m}, ths := WithStack(s.ths, t, Owing(s.ptr[m]) + ([Kill(o, members[1..])] + rest)))
  }

  function AtFree(s: System, t: nat, rest: seq<Task>, o: Id): System
    requires t < |s.ths|
  {
    if o !in s.objs then s.(bad := true)
    else s.(objs := s.objs - {o}, freed := s.freed + [o], ths := WithStack(s.ths, t, rest))
  }

  ghost predicate Runs(s: System, ls: seq<Label>, u: System)
    decreases |ls|
  {
    if ls == [] then u == s else Allowed(s, ls[0]) && Runs(Step(s, ls[0]), ls[1..], u)
  }

  // Adding up what all threads have yet to do.

  /** A reference of a thread to an object that is no handle; a test under way; a deletion under way. */
  datatype Mark = Owes(o: Id) | Tests(o: Id) | Kills(o: Id)

  function Marked(task: Task, m: Mark): nat
  {
    match m
    case Owes(o) => if (task.Bind? && task.p == To(o)) || task == Dec(o) then 1 else 0
    case Tests(o) => if task == Test(o) then 1 else 0
    case Kills(o) => if task.Kill? && task.o == o then 1 else 0
  }

  function Within(stack: seq<Task>, m: Mark): nat
  {
    if stack == [] then 0 else Marked(stack[0], m) + Within(stack[1..], m)
  }

  function Total(ths: seq<Thread>, m: Mark): nat
  {
    if ths == [] then 0 else Within(ths[0].stack, m) + Total(ths[1..], m)
  }

  lemma {:induction false} WithinJoined(a: seq<Task>, b: seq<Task>, m: Mark)
    ensures Within(a + b, m) == Within(a, m) + Within(b, m)
    decreases |a|
  {
    hide Marked;
    if a == [] {
      assert a + b == b;
    } else {
      assert (a + b)[1..] == a[1..] + b;
      WithinJoined(a[1..], b, m);
    }
  }

  lemma WithinOne(task: Task, m: Mark)
    ensures Within([task], m) == Marked(task, m) && Within([], m) == 0
  {
    hide Marked;
    assert [task][1..] == [];
  }

  lemma {:induction false} WithinHas(stack: seq<Task>, i: nat, m: Mark)
    requires i < |stack|
    ensures Marked(stack[i], m) <= Within(stack, m)
    decreases |stack|
  {
    hide Marked;
    if i > 0 {
      WithinHas(stack[1..], i - 1, m);
    }
  }

  lemma {:induction false} TotalUpdated(ths: seq<Thread>, t: nat, th: Thread, m: Mark)
    requires t < |ths|
    ensures Total(ths[t := th], m) + Within(ths[t].stack, m) == Total(ths, m) + Within(th.stack, m)
    decreases |ths|
  {
    hide Within;
    if t == 0 {
      assert ths[t := th][1..] == ths[1..];
    } else {
      assert ths[t := th][1..] == ths[1..][t - 1 := th] && ths[t := th][0] == ths[0];
      TotalUpdated(ths[1..], t - 1, th, m);
    }
  }

  lemma {:induction false} TotalHas(ths: seq<Thread>, t: nat, m: Mark)
    requires t < |ths|
    ensures Within(ths[t].stack, m) <= Total(ths, m)
    decreases |ths|
  {
    hide Within;
    if t > 0 {
      TotalHas(ths[1..], t - 1, m);
    }
  }

  /** What the total says of one task. */
  lemma TaskInTotal(ths: seq<Thread>, t: nat, i: nat, m: Mark)
    requires t < |ths| && i < |ths[t].stack|
    ensures Marked(ths[t].stack[i], m) <= Total(ths, m)
  {
    hide Marked, Within, Total;
    WithinHas(ths[t].stack, i, m);
    TotalHas(ths, t, m);
  }

  /** The innermost task replaced by others. */
  lemma TopReplaced(ths: seq<Thread>, t: nat, tasks: seq<Task>, own: set<Id>, m: Mark)
    requires t < |ths| && ths[t].stack != []
    ensures Total(ths[t := Thread(own, tasks + ths[t].stack[1..])], m) + Marked(ths[t].stack[0], m) ==
            Total(ths, m) + Within(tasks, m)
  {
    hide Marked, Total;
    var stack := ths[t].stack;
    TotalUpdated(ths, t, Thread(own, tasks + stack[1..]), m);
    WithinJoined(tasks, stack[1..], m);
  }

  // What every step keeps.

  /** A count is the number of handles and of references on their way to a handle or from one. */
  predicate CountsHold(s: System)
  {
    forall o :: o in s.objs ==> s.objs[o].count == |Refs(s.ptr, o)| + Total(s.ths, Owes(o))
  }

  ghost predicate Aimed(s: System)
  {
    && (forall h :: h in s.ptr && s.ptr[h].To? ==> s.ptr[h].obj in s.objs)
    && (forall o :: Total(s.ths, Owes(o)) > 0 ==> o in s.objs)
  }

  /** A count is zero exactly while one thread tests or deletes, and the flag is set exactly while it deletes. */
  ghost predicate DeathsHold(s: System)
  {
    && (forall o :: Total(s.ths, Tests(o)) + Total(s.ths, Kills(o)) > 0 ==> o in s.objs)
    && (forall o :: o in s.objs ==> DeathHolds(s.objs[o], Total(s.ths, Tests(o)), Total(s.ths, Kills(o))))
  }

  predicate DeathHolds(c: Cell, tests: nat, kills: nat)
  {
    && tests + kills <= 1 && (c.count == 0 <==> tests + kills == 1) && (c.noDelete <==> kills == 1)
  }

  predicate LedgerHolds(s: System)
  {
    NoDup(s.freed) && forall o :: o in s.freed ==> o !in s.objs
  }

  predicate MembersHold(s: System)
  {
    && (forall o :: o in s.objs ==> NoDup(s.objs[o].members))
    && (forall o, h :: o in s.objs && !s.objs[o].noDelete && h in s.objs[o].members ==> h in s.ptr)
    && (forall o, p, h :: o in s.objs && p in s.objs && h in s.objs[o].members && h in s.objs[p].members ==> o == p)
  }

  predicate OwnsHold(s: System)
  {
    && (forall t, u :: 0 <= t < u < |s.ths| ==> s.ths[t].own !! s.ths[u].own)
    && (forall t, o, h :: 0 <= t < |s.ths| && h in s.ths[t].own && o in s.objs ==> h !in s.objs[o].members)
  }

  predicate TaskHolds(ptr: map<Id, Ptr>, objs: map<Id, Cell>, own: set<Id>, task: Task)
  {
    match task
    case Inc(h, via, from, p) => Site(ptr, objs, own, h, via) && from in own && from in ptr && ptr[from] == p
    case Bind(h, via, p) => Site(ptr, objs, own, h, via)
    case Kill(o, rest) => o in objs && NoDup(rest) && forall m :: m in rest ==> m in objs[o].members && m in ptr
    case _ => true
  }

  /** Counting up and binding happen outside every destructor. */
  predicate Shaped(stack: seq<Task>)
  {
    forall i :: 0 <= i < |stack| && (stack[i].Inc? || stack[i].Bind?) ==> |stack| == 1
  }

  predicate StackHolds(ptr: map<Id, Ptr>, objs: map<Id, Cell>, th: Thread)
  {
    Shaped(th.stack) && forall i :: 0 <= i < |th.stack| ==> TaskHolds(ptr, objs, th.own, th.stack[i])
  }

  predicate TasksHold(s: System)
  {
    forall t :: 0 <= t < |s.ths| ==> StackHolds(s.ptr, s.objs, s.ths[t])
  }

  ghost predicate Holds(s: System)
  {
    && !s.bad && CountsHold(s) && Aimed(s) && DeathsHold(s) && LedgerHolds(s) && MembersHold(s)
    && OwnsHold(s) && TasksHold(s)
  }

  // Consequences.

  /** An object some handle holds is neither tested nor deleted, and its members live. */
  lemma HeldIsAlive(s: System, h: Id)
    requires Holds(s) && h in s.ptr && s.ptr[h].To?
    ensures var o := s.ptr[h].obj;
            && o in s.objs && s.objs[o].count >= 1 && !s.objs[o].noDelete
            && Total(s.ths, Tests(o)) == 0 && Total(s.ths, Kills(o)) == 0
            && forall m :: m in s.objs[o].members ==> m in s.ptr
  {
    hide Total, LedgerHolds, OwnsHold, TasksHold;
    assert h in Refs(s.ptr, s.ptr[h].obj);
  }

  lemma OwedIsAlive(s: System, o: Id)
    requires Holds(s) && Total(s.ths, Owes(o)) > 0
    ensures o in s.objs && s.objs[o].count >= 1 && !s.objs[o].noDelete
    ensures Total(s.ths, Tests(o)) == 0 && Total(s.ths, Kills(o)) == 0
  {
    hide Total, LedgerHolds, OwnsHold, TasksHold, MembersHold, Refs;
  }

  lemma TopHolds(s: System, t: nat)
    requires Holds(s) && t < |s.ths| && s.ths[t].stack != []
    ensures TaskHolds(s.ptr, s.objs, s.ths[t].own, s.ths[t].stack[0]) && Shaped(s.ths[t].stack)
    ensures forall m :: Marked(s.ths[t].stack[0], m) <= Total(s.ths, m)
  {
    hide Marked, Total, CountsHold, Aimed, DeathsHold, LedgerHolds, MembersHold, OwnsHold, TaskHolds;
    assert StackHolds(s.ptr, s.objs, s.ths[t]);
    forall m
      ensures Marked(s.ths[t].stack[0], m) <= Total(s.ths, m)
    {
      TaskInTotal(s.ths, t, 0, m);
    }
  }

  /** The total of every mark after the innermost task of thread t is replaced. */
  ghost predicate Replaced(ths: seq<Thread>, us: seq<Thread>, gone: Task, tasks: seq<Task>)
  {
    forall m :: Total(us, m) + Marked(gone, m) == Total(ths, m) + Within(tasks, m)
  }

  lemma ReplacedBy(ths: seq<Thread>, t: nat, tasks: seq<Task>)
    requires t < |ths| && ths[t].stack != []
    ensures Replaced(ths, WithStack(ths, t, tasks + ths[t].stack[1..]), ths[t].stack[0], tasks)
  {
    hide Marked, Within, Total;
    forall m
      ensures Total(WithStack(ths, t, tasks + ths[t].stack[1..]), m) + Marked(ths[t].stack[0], m) ==
              Total(ths, m) + Within(tasks, m)
    {
      TopReplaced(ths, t, tasks, ths[t].own, m);
    }
  }

  // Each step in turn.

  /** Other threads' tasks, and those below the innermost, are not disturbed: every task but those of the new
      top held before and holds after. */
  lemma TasksStay(s: System, t: nat, tasks: seq<Task>, ptr: map<Id, Ptr>, objs: map<Id, Cell>)
    requires TasksHold(s) && t < |s.ths| && s.ths[t].stack != []
    requires forall u, i :: 0 <= u < |s.ths| && (if u == t then 1 else 0) <= i < |s.ths[u].stack| ==>
               TaskHolds(s.ptr, s.objs, s.ths[u].own, s.ths[u].stack[i]) ==>
                 TaskHolds(ptr, objs, s.ths[u].own, s.ths[u].stack[i])
    requires Shaped(tasks + s.ths[t].stack[1..])
    requires forall i :: 0 <= i < |tasks| ==> TaskHolds(ptr, objs, s.ths[t].own, tasks[i])
    ensures var ths := WithStack(s.ths, t, tasks + s.ths[t].stack[1..]);
            forall u :: 0 <= u < |ths| ==> StackHolds(ptr, objs, ths[u])
  {
    hide TaskHolds, Shaped;
    var ths := WithStack(s.ths, t, tasks + s.ths[t].stack[1..]);
    forall u | 0 <= u < |ths|
      ensures StackHolds(ptr, objs, ths[u])
    {
      assert StackHolds(s.ptr, s.objs, s.ths[u]);
      if u == t {
        var stack := s.ths[t].stack;
        forall i | 0 <= i < |ths[t].stack|
          ensures TaskHolds(ptr, objs, ths[t].own, ths[t].stack[i])
        {
          if i >= |tasks| {
            assert ths[t].stack[i] == stack[1..][i - |tasks|] == stack[i - |tasks| + 1];
          }
        }
      }
    }
  }

  lemma OneTask(task: Task)
    ensures forall m :: Within([task], m) == Marked(task, m)
    ensures forall m :: Within([], m) == 0
  {
    hide Marked, Within;
    forall m
      ensures Within([task], m) == Marked(task, m) && Within([], m) == 0
    {
      WithinOne(task, m);
    }
  }

  /** Counts and stacks may change; handles, members, flags and owners do not. */
  lemma SameShape(s: System, u: System)
    requires LedgerHolds(s) && MembersHold(s) && OwnsHold(s)
    requires u.ptr == s.ptr && u.freed == s.freed && u.objs.Keys == s.objs.Keys
    requires forall o :: o in s.objs ==>
               u.objs[o].members == s.objs[o].members && u.objs[o].noDelete == s.objs[o].noDelete
    requires |u.ths| == |s.ths| && forall t :: 0 <= t < |s.ths| ==> u.ths[t].own == s.ths[t].own
    ensures LedgerHolds(u) && MembersHold(u) && OwnsHold(u)
  {
  }

  // What each step does to the totals: it gives up and takes on references, tests and deletions.

  /** One, if the condition holds. */
  function If(b: bool): nat
  {
    if b then 1 else 0
  }

  lemma IncMarks(ths: seq<Thread>, us: seq<Thread>, inc: Task, bind: Task)
    requires inc.Inc? && bind == Bind(inc.h, inc.via, inc.p) && Replaced(ths, us, inc, [bind])
    ensures forall o :: Total(us, Owes(o)) == Total(ths, Owes(o)) + If(inc.p == To(o))
    ensures forall o :: Total(us, Tests(o)) == Total(ths, Tests(o)) && Total(us, Kills(o)) == Total(ths, Kills(o))
  {
    hide Total, Within;
    OneTask(bind);
  }

  lemma IncTotals(s: System, u: System, inc: Task, bind: Task)
    requires Holds(s) && inc.Inc? && bind == Bind(inc.h, inc.via, inc.p) && Replaced(s.ths, u.ths, inc, [bind])
    requires inc.from in s.ptr && s.ptr[inc.from] == inc.p && u.ptr == s.ptr
    requires inc.p == Null ==> u.objs == s.objs
    requires inc.p.To? && inc.p.obj in s.objs ==>
               u.objs == s.objs[inc.p.obj := s.objs[inc.p.obj].(count := s.objs[inc.p.obj].count + 1)]
    ensures CountsHold(u) && Aimed(u) && DeathsHold(u)
  {
    hide Total, LedgerHolds, MembersHold, OwnsHold, TasksHold, Refs, Replaced;
    IncMarks(s.ths, u.ths, inc, bind);
    if inc.p.To? {
      HeldIsAlive(s, inc.from);
    }
  }

  lemma IncKeeps(s: System, t: nat)
    requires Holds(s) && t < |s.ths| && s.ths[t].stack != [] && s.ths[t].stack[0].Inc?
    ensures Holds(Advance(s, t))
  {
    hide Total, CountsHold, Aimed, DeathsHold, LedgerHolds, MembersHold, OwnsHold, Refs, Within, Replaced;
    var inc, u := s.ths[t].stack[0], Advance(s, t);
    var bind := Bind(inc.h, inc.via, inc.p);
    TopHolds(s, t);
    if inc.p.To? {
      HeldIsAlive(s, inc.from);
    }
    ReplacedBy(s.ths, t, [bind]);
    IncTotals(s, u, inc, bind);
    SameShape(s, u);
    TasksStay(s, t, [bind], u.ptr, u.objs);
  }

  /** A handle a thread may write is in no other thread's hands. */
  lemma SiteIsPrivate(s: System, t: nat, h: Id, via: Id)
    requires OwnsHold(s) && t < |s.ths| && Site(s.ptr, s.objs, s.ths[t].own, h, via)
    ensures forall u :: 0 <= u < |s.ths| && u != t ==> h !in s.ths[u].own
  {
  }

  lemma BindMarks(ths: seq<Thread>, us: seq<Thread>, bind: Task, was: Ptr)
    requires bind.Bind? && Replaced(ths, us, bind, Owing(was))
    ensures forall o :: Total(us, Owes(o)) + If(bind.p == To(o)) == Total(ths, Owes(o)) + If(was == To(o))
    ensures forall o :: Total(us, Tests(o)) == Total(ths, Tests(o)) && Total(us, Kills(o)) == Total(ths, Kills(o))
  {
    hide Total, Within;
    OwingMarks(was);
  }

  lemma OwingMarks(p: Ptr)
    ensures forall o :: Within(Owing(p), Owes(o)) == If(p == To(o))
    ensures forall o :: Within(Owing(p), Tests(o)) == 0 && Within(Owing(p), Kills(o)) == 0
  {
    hide Within;
    OneTask(if p == Null then Dec(0) else Dec(p.obj));
  }

  lemma BindTotals(s: System, u: System, bind: Task, was: Ptr)
    requires Holds(s) && bind.Bind? && Replaced(s.ths, u.ths, bind, Owing(was))
    requires was == if bind.h in s.ptr then s.ptr[bind.h] else Null
    requires bind.p.To? ==> Total(s.ths, Owes(bind.p.obj)) > 0
    requires u.objs == s.objs && u.ptr == s.ptr[bind.h := bind.p]
    ensures CountsHold(u) && Aimed(u) && DeathsHold(u)
  {
    hide Total, LedgerHolds, MembersHold, OwnsHold, TasksHold, Refs, Replaced;
    BindMarks(s.ths, u.ths, bind, was);
    forall o
      ensures |Refs(u.ptr, o)| + If(was == To(o)) == |Refs(s.ptr, o)| + If(bind.p == To(o))
    {
      RefsRebound(s.ptr, bind.h, bind.p, o);
    }
  }

  lemma BindTasks(s: System, t: nat, bind: Task, was: Ptr)
    requires Holds(s) && t < |s.ths| && s.ths[t].stack == [bind] && bind.Bind?
    requires Site(s.ptr, s.objs, s.ths[t].own, bind.h, bind.via)
    ensures var ths := WithStack(s.ths, t, Owing(was) + s.ths[t].stack[1..]);
            forall u :: 0 <= u < |ths| ==> StackHolds(s.ptr[bind.h := bind.p], s.objs, ths[u])
  {
    hide Total, CountsHold, Aimed, DeathsHold, LedgerHolds, MembersHold, OwnsHold;
    SiteIsPrivate(s, t, bind.h, bind.via);
    TasksStay(s, t, Owing(was), s.ptr[bind.h := bind.p], s.objs);
  }

  lemma BindShape(s: System, u: System, h: Id, p: Ptr)
    requires LedgerHolds(s) && MembersHold(s) && OwnsHold(s)
    requires u.ptr == s.ptr[h := p] && u.freed == s.freed && u.objs == s.objs
    requires |u.ths| == |s.ths| && forall t :: 0 <= t < |s.ths| ==> u.ths[t].own == s.ths[t].own
    ensures LedgerHolds(u) && MembersHold(u) && OwnsHold(u)
  {
  }

  lemma BindKeeps(s: System, t: nat)
    requires Holds(s) && t < |s.ths| && s.ths[t].stack != [] && s.ths[t].stack[0].Bind?
    ensures Holds(Advance(s, t))
  {
    hide Total, CountsHold, Aimed, DeathsHold, LedgerHolds, MembersHold, OwnsHold, Refs, Within, Replaced;
    hide Site, StackHolds;
    var bind, u := s.ths[t].stack[0], Advance(s, t);
    var was := if bind.h in s.ptr then s.ptr[bind.h] else Null;
    TopHolds(s, t);
    assert s.ths[t].stack == [bind];
    assert bind.p.To? ==> Marked(bind, Owes(bind.p.obj)) == 1;
    ReplacedBy(s.ths, t, Owing(was));
    BindTotals(s, u, bind, was);
    BindTasks(s, t, bind, was);
    BindShape(s, u, bind.h, bind.p);
  }

  lemma DecMarks(ths: seq<Thread>, us: seq<Thread>, o: Id, zero: bool)
    requires Replaced(ths, us, Dec(o), if zero then [Test(o)] else [])
    ensures forall x :: Total(us, Owes(x)) + If(x == o) == Total(ths, Owes(x))
    ensures forall x :: Total(us, Tests(x)) == Total(ths, Tests(x)) + If(zero && x == o)
    ensures forall x :: Total(us, Kills(x)) == Total(ths, Kills(x))
  {
    hide Total, Within;
    OneTask(Test(o));
  }

  lemma DecTotals(s: System, u: System, o: Id)
    requires Holds(s) && Total(s.ths, Owes(o)) > 0 && o in s.objs
    requires var c := s.objs[o].count - 1;
             && u.objs == s.objs[o := s.objs[o].(count := c)] && u.ptr == s.ptr
             && Replaced(s.ths, u.ths, Dec(o), if c == 0 then [Test(o)] else [])
    ensures CountsHold(u) && Aimed(u) && DeathsHold(u)
  {
    hide Total, LedgerHolds, MembersHold, OwnsHold, TasksHold, Refs, Replaced;
    DecMarks(s.ths, u.ths, o, s.objs[o].count - 1 == 0);
    OwedIsAlive(s, o);
  }

  lemma DecKeeps(s: System, t: nat)
    requires Holds(s) && t < |s.ths| && s.ths[t].stack != [] && s.ths[t].stack[0].Dec?
    ensures Holds(Advance(s, t))
  {
    hide Total, CountsHold, Aimed, DeathsHold, LedgerHolds, MembersHold, OwnsHold, Refs, Within, Replaced;
    hide Shaped, StackHolds;
    var o, u := s.ths[t].stack[0].o, Advance(s, t);
    TopHolds(s, t);
    assert Marked(Dec(o), Owes(o)) == 1;
    OwedIsAlive(s, o);
    var tasks := if s.objs[o].count - 1 == 0 then [Test(o)] else [];
    assert [] + s.ths[t].stack[1..] == s.ths[t].stack[1..];
    ReplacedBy(s.ths, t, tasks);
    DecTotals(s, u, o);
    SameShape(s, u);
    DecTasks(s, t, o, tasks, u.objs);
  }

  lemma DecTasks(s: System, t: nat, o: Id, tasks: seq<Task>, objs: map<Id, Cell>)
    requires TasksHold(s) && t < |s.ths| && s.ths[t].stack != [] && s.ths[t].stack[0] == Dec(o)
    requires tasks == [] || tasks == [Test(o)]
    requires objs.Keys == s.objs.Keys && forall x :: x in objs ==> objs[x].members == s.objs[x].members
    ensures var ths := WithStack(s.ths, t, tasks + s.ths[t].stack[1..]);
            forall u :: 0 <= u < |ths| ==> StackHolds(s.ptr, objs, ths[u])
  {
    assert StackHolds(s.ptr, s.objs, s.ths[t]);
    TasksStay(s, t, tasks, s.ptr, objs);
  }

  lemma TestMarks(ths: seq<Thread>, us: seq<Thread>, o: Id, members: seq<Id>)
    requires Replaced(ths, us, Test(o), [Kill(o, members)])
    ensures forall x :: Total(us, Owes(x)) == Total(ths, Owes(x))
    ensures forall x :: Total(us, Tests(x)) + If(x == o) == Total(ths, Tests(x))
    ensures forall x :: Total(us, Kills(x)) == Total(ths, Kills(x)) + If(x == o)
  {
    hide Total, Within;
    OneTask(Kill(o, members));
  }

  lemma TestedIsDead(s: System, o: Id)
    requires Holds(s) && Total(s.ths, Tests(o)) > 0
    ensures o in s.objs && s.objs[o].count == 0 && !s.objs[o].noDelete && NoDup(s.objs[o].members)
    ensures forall m :: m in s.objs[o].members ==> m in s.ptr
  {
    hide Total, LedgerHolds, OwnsHold, TasksHold, CountsHold, Aimed;
  }

  lemma TestTotals(s: System, u: System, o: Id)
    requires Holds(s) && Total(s.ths, Tests(o)) > 0 && o in s.objs
    requires u.objs == s.objs[o := s.objs[o].(noDelete := true)] && u.ptr == s.ptr
    requires Replaced(s.ths, u.ths, Test(o), [Kill(o, s.objs[o].members)])
    ensures CountsHold(u) && Aimed(u) && DeathsHold(u)
  {
    hide Total, LedgerHolds, MembersHold, OwnsHold, TasksHold, Refs, Replaced;
    TestMarks(s.ths, u.ths, o, s.objs[o].members);
  }

  lemma TestShape(s: System, u: System, o: Id)
    requires LedgerHolds(s) && MembersHold(s) && OwnsHold(s) && o in s.objs
    requires u.ptr == s.ptr && u.freed == s.freed && u.objs == s.objs[o := s.objs[o].(noDelete := true)]
    requires |u.ths| == |s.ths| && forall t :: 0 <= t < |s.ths| ==> u.ths[t].own == s.ths[t].own
    ensures LedgerHolds(u) && MembersHold(u) && OwnsHold(u)
  {
  }

  lemma TestKeeps(s: System, t: nat)
    requires Holds(s) && t < |s.ths| && s.ths[t].stack != [] && s.ths[t].stack[0].Test?
    ensures Holds(Advance(s, t))
  {
    hide Total, CountsHold, Aimed, DeathsHold, LedgerHolds, MembersHold, OwnsHold, Refs, Within, Replaced, NoDup;
    var o, u := s.ths[t].stack[0].o, Advance(s, t);
    TopHolds(s, t);
    assert Marked(Test(o), Tests(o)) == 1;
    TestedIsDead(s, o);
    var kill := Kill(o, s.objs[o].members);
    ReplacedBy(s.ths, t, [kill]);
    TestTotals(s, u, o);
    TestShape(s, u, o);
    TasksStay(s, t, [kill], u.ptr, u.objs);
  }

  /** The thread that deletes an object is the only one that does, and does it once. */
  lemma OnlyKill(s: System, t: nat, u: nat, i: nat)
    requires Holds(s) && t < |s.ths| && s.ths[t].stack != [] && s.ths[t].stack[0].Kill?
    requires u < |s.ths| && i < |s.ths[u].stack| && (u != t || i > 0) && s.ths[u].stack[i].Kill?
    ensures s.ths[u].stack[i].o != s.ths[t].stack[0].o
  {
    hide Total, CountsHold, Aimed, LedgerHolds, MembersHold, OwnsHold, TasksHold, Within;
    var o, rest := s.ths[t].stack[0].o, s.ths[t].stack[1..];
    var ths := WithStack(s.ths, t, [] + rest);
    assert [] + rest == rest;
    TopHolds(s, t);
    ReplacedBy(s.ths, t, []);
    OneTask(Dec(0));
    assert Total(ths, Kills(o)) + Marked(s.ths[t].stack[0], Kills(o)) == Total(s.ths, Kills(o)) + Within([], Kills(o));
    assert Total(ths, Kills(o)) == 0;
    var k := if u == t then i - 1 else i;
    assert ths[u].stack[k] == s.ths[u].stack[i];
    TaskInTotal(ths, u, k, Kills(o));
  }

  lemma KilledIsDead(s: System, o: Id)
    requires Holds(s) && Total(s.ths, Kills(o)) > 0
    ensures o in s.objs && s.objs[o].count == 0 && s.objs[o].noDelete
    ensures Total(s.ths, Tests(o)) == 0 && Total(s.ths, Kills(o)) == 1 && Total(s.ths, Owes(o)) == 0
    ensures forall h :: h in s.ptr ==> s.ptr[h] != To(o)
  {
    hide Total, LedgerHolds, OwnsHold, TasksHold, MembersHold, Aimed;
    NoRefs(s.ptr, o);
  }

  lemma MemberMarks(ths: seq<Thread>, us: seq<Thread>, o: Id, members: seq<Id>, p: Ptr)
    requires members != [] && Replaced(ths, us, Kill(o, members), Owing(p) + [Kill(o, members[1..])])
    ensures forall x :: Total(us, Owes(x)) == Total(ths, Owes(x)) + If(p == To(x))
    ensures forall x :: Total(us, Tests(x)) == Total(ths, Tests(x)) && Total(us, Kills(x)) == Total(ths, Kills(x))
  {
    hide Total, Within;
    var kill := Kill(o, members[1..]);
    OneTask(kill);
    OwingMarks(p);
    forall m
      ensures Within(Owing(p) + [kill], m) == Within(Owing(p), m) + Marked(kill, m)
    {
      WithinJoined(Owing(p), [kill], m);
    }
  }

  lemma MemberTotals(s: System, u: System, o: Id, members: seq<Id>)
    requires Holds(s) && members != [] && members[0] in s.ptr
    requires u.objs == s.objs && u.ptr == s.ptr - {members[0]}
    requires Replaced(s.ths, u.ths, Kill(o, members), Owing(s.ptr[members[0]]) + [Kill(o, members[1..])])
    ensures CountsHold(u) && Aimed(u) && DeathsHold(u)
  {
    hide Total, LedgerHolds, MembersHold, OwnsHold, TasksHold, Refs, Replaced;
    var m := members[0];
    MemberMarks(s.ths, u.ths, o, members, s.ptr[m]);
    forall x
      ensures |Refs(u.ptr, x)| + If(s.ptr[m] == To(x)) == |Refs(s.ptr, x)|
    {
      RefsWithout(s.ptr, m, x);
    }
  }

  lemma MemberShape(s: System, u: System, o: Id, m: Id)
    requires LedgerHolds(s) && MembersHold(s) && OwnsHold(s)
    requires o in s.objs && s.objs[o].noDelete && m in s.objs[o].members
    requires u.ptr == s.ptr - {m} && u.freed == s.freed && u.objs == s.objs
    requires |u.ths| == |s.ths| && forall t :: 0 <= t < |s.ths| ==> u.ths[t].own == s.ths[t].own
    ensures LedgerHolds(u) && MembersHold(u) && OwnsHold(u)
    ensures forall t :: 0 <= t < |s.ths| ==> m !in s.ths[t].own
    ensures forall x :: x in s.objs && x != o ==> m !in s.objs[x].members
  {
    hide NoDup;
  }

  lemma MemberTasks(s: System, t: nat, o: Id, members: seq<Id>)
    requires Holds(s) && t < |s.ths| && s.ths[t].stack != [] && s.ths[t].stack[0] == Kill(o, members) && members != []
    requires TaskHolds(s.ptr, s.objs, s.ths[t].own, Kill(o, members)) && Shaped(s.ths[t].stack)
    requires forall u :: 0 <= u < |s.ths| ==> members[0] !in s.ths[u].own
    requires forall x :: x in s.objs && x != o ==> members[0] !in s.objs[x].members
    ensures var tasks := Owing(s.ptr[members[0]]) + [Kill(o, members[1..])];
            var ths := WithStack(s.ths, t, tasks + s.ths[t].stack[1..]);
            forall u :: 0 <= u < |ths| ==> StackHolds(s.ptr - {members[0]}, s.objs, ths[u])
  {
    hide Total, CountsHold, Aimed, DeathsHold, LedgerHolds, MembersHold, OwnsHold;
    var m := members[0];
    var ptr := s.ptr - {m};
    var tasks := Owing(s.ptr[m]) + [Kill(o, members[1..])];
    assert TaskHolds(ptr, s.objs, s.ths[t].own, Kill(o, members[1..]));
    forall u, i | 0 <= u < |s.ths| && (if u == t then 1 else 0) <= i < |s.ths[u].stack|
      ensures TaskHolds(s.ptr, s.objs, s.ths[u].own, s.ths[u].stack[i]) ==>
                TaskHolds(ptr, s.objs, s.ths[u].own, s.ths[u].stack[i])
    {
      if s.ths[u].stack[i].Kill? {
        OnlyKill(s, t, u, i);
      }
    }
    TasksStay(s, t, tasks, ptr, s.objs);
  }

  lemma MemberKeeps(s: System, t: nat)
    requires Holds(s) && t < |s.ths| && s.ths[t].stack != []
    requires s.ths[t].stack[0].Kill? && s.ths[t].stack[0].rest != []
    ensures Holds(Advance(s, t))
  {
    hide Total, CountsHold, Aimed, DeathsHold, LedgerHolds, MembersHold, OwnsHold, Refs, Within, Replaced, NoDup;
    hide Shaped, StackHolds;
    var Kill(o, members) := s.ths[t].stack[0];
    var m, u := members[0], Advance(s, t);
    TopHolds(s, t);
    assert Marked(Kill(o, members), Kills(o)) == 1;
    KilledIsDead(s, o);
    assert m in members;
    var tasks := Owing(s.ptr[m]) + [Kill(o, members[1..])];
    assert tasks + s.ths[t].stack[1..] == Owing(s.ptr[m]) + ([Kill(o, members[1..])] + s.ths[t].stack[1..]);
    ReplacedBy(s.ths, t, tasks);
    MemberTotals(s, u, o, members);
    MemberShape(s, u, o, m);
    MemberTasks(s, t, o, members);
  }

  lemma FreeMarks(ths: seq<Thread>, us: seq<Thread>, o: Id)
    requires Replaced(ths, us, Kill(o, []), [])
    ensures forall x :: Total(us, Owes(x)) == Total(ths, Owes(x)) && Total(us, Tests(x)) == Total(ths, Tests(x))
    ensures forall x :: Total(us, Kills(x)) + If(x == o) == Total(ths, Kills(x))
  {
    hide Total, Within;
    OneTask(Dec(0));
  }

  lemma FreeTotals(s: System, u: System, o: Id)
    requires Holds(s) && Total(s.ths, Kills(o)) > 0
    requires u.objs == s.objs - {o} && u.ptr == s.ptr && Replaced(s.ths, u.ths, Kill(o, []), [])
    ensures CountsHold(u) && Aimed(u) && DeathsHold(u)
  {
    hide Total, LedgerHolds, MembersHold, OwnsHold, TasksHold, Refs, Replaced;
    FreeMarks(s.ths, u.ths, o);
    KilledIsDead(s, o);
  }

  lemma FreeShape(s: System, u: System, o: Id)
    requires LedgerHolds(s) && MembersHold(s) && OwnsHold(s) && o in s.objs
    requires u.ptr == s.ptr && u.freed == s.freed + [o] && u.objs == s.objs - {o}
    requires |u.ths| == |s.ths| && forall t :: 0 <= t < |s.ths| ==> u.ths[t].own == s.ths[t].own
    ensures LedgerHolds(u) && MembersHold(u) && OwnsHold(u)
  {
  }

  lemma FreeTasks(s: System, t: nat, o: Id)
    requires Holds(s) && t < |s.ths| && s.ths[t].stack != [] && s.ths[t].stack[0] == Kill(o, [])
    requires Shaped(s.ths[t].stack) && forall h :: h in s.ptr ==> s.ptr[h] != To(o)
    ensures var ths := WithStack(s.ths, t, [] + s.ths[t].stack[1..]);
            forall u :: 0 <= u < |ths| ==> StackHolds(s.ptr, s.objs - {o}, ths[u])
  {
    hide Total, CountsHold, Aimed, DeathsHold, LedgerHolds, MembersHold, OwnsHold;
    forall u, i | 0 <= u < |s.ths| && (if u == t then 1 else 0) <= i < |s.ths[u].stack|
      ensures TaskHolds(s.ptr, s.objs, s.ths[u].own, s.ths[u].stack[i]) ==>
                TaskHolds(s.ptr, s.objs - {o}, s.ths[u].own, s.ths[u].stack[i])
    {
      if s.ths[u].stack[i].Kill? {
        OnlyKill(s, t, u, i);
      }
    }
    assert [] + s.ths[t].stack[1..] == s.ths[t].stack[1..];
    TasksStay(s, t, [], s.ptr, s.objs - {o});
  }

  lemma FreeKeeps(s: System, t: nat)
    requires Holds(s) && t < |s.ths| && s.ths[t].stack != []
    requires s.ths[t].stack[0].Kill? && s.ths[t].stack[0].rest == []
    ensures Holds(Advance(s, t))
  {
    hide Total, CountsHold, Aimed, DeathsHold, LedgerHolds, MembersHold, OwnsHold, Refs, Within, Replaced, NoDup;
    hide Shaped, StackHolds;
    var o, u := s.ths[t].stack[0].o, Advance(s, t);
    TopHolds(s, t);
    assert Marked(Kill(o, []), Kills(o)) == 1;
    KilledIsDead(s, o);
    assert [] + s.ths[t].stack[1..] == s.ths[t].stack[1..];
    ReplacedBy(s.ths, t, []);
    FreeTotals(s, u, o);
    FreeShape(s, u, o);
    FreeTasks(s, t, o);
  }

  lemma AdvanceKeeps(s: System, t: nat)
    requires Holds(s) && t < |s.ths| && s.ths[t].stack != []
    ensures Holds(Advance(s, t))
  {
    hide Holds, Advance;
    match s.ths[t].stack[0]
    case Inc(_, _, _, _) => IncKeeps(s, t);
    case Bind(_, _, _) => BindKeeps(s, t);
    case Dec(_) => DecKeeps(s, t);
    case Test(_) => TestKeeps(s, t);
    case Kill(_, rest) =>
      if rest == [] {
        FreeKeeps(s, t);
      } else {
        MemberKeeps(s, t);
      }
  }

  // Operations begun.

  /** A thread in no operation gets a stack and other handles of its own. */
  lemma BegunTotals(ths: seq<Thread>, t: nat, th: Thread, m: Mark)
    requires t < |ths| && ths[t].stack == []
    ensures Total(ths[t := th], m) == Total(ths, m) + Within(th.stack, m)
  {
    hide Total;
    TotalUpdated(ths, t, th, m);
  }

  /** Nothing is owed, tested or deleted by counting up. */
  lemma IncIsFree(inc: Task)
    requires inc.Inc?
    ensures forall m :: Within([inc], m) == 0
  {
    hide Within;
    OneTask(inc);
  }

  lemma SameTotals(s: System, u: System)
    requires CountsHold(s) && Aimed(s) && DeathsHold(s) && u.ptr == s.ptr && u.objs == s.objs
    requires forall m :: Total(u.ths, m) == Total(s.ths, m)
    ensures CountsHold(u) && Aimed(u) && DeathsHold(u)
  {
    hide Total, Refs;
  }

  lemma CopyKeeps(s: System, t: nat, h: Id, from: Id)
    requires Holds(s) && Allowed(s, CopyTo(t, h, from))
    ensures Holds(Step(s, CopyTo(t, h, from)))
  {
    hide Total, CountsHold, Aimed, DeathsHold, Within;
    var u := Step(s, CopyTo(t, h, from));
    IncIsFree(Inc(h, h, from, s.ptr[from]));
    forall m
      ensures Total(u.ths, m) == Total(s.ths, m)
    {
      BegunTotals(s.ths, t, u.ths[t], m);
    }
    SameTotals(s, u);
  }

  lemma AssignKeeps(s: System, t: nat, h: Id, via: Id, from: Id)
    requires Holds(s) && Allowed(s, AssignTo(t, h, via, from))
    ensures Holds(Step(s, AssignTo(t, h, via, from)))
  {
    hide Total, CountsHold, Aimed, DeathsHold, Within, Contended, MembersHold, LedgerHolds;
    if s.ptr[h] != s.ptr[from] {
      var u := Step(s, AssignTo(t, h, via, from));
      IncIsFree(Inc(h, via, from, s.ptr[from]));
      forall m
        ensures Total(u.ths, m) == Total(s.ths, m)
      {
        BegunTotals(s.ths, t, u.ths[t], m);
      }
      SameTotals(s, u);
      SameShape(s, u);
    }
  }

  lemma DropTotals(s: System, u: System, t: nat, h: Id)
    requires Holds(s) && t < |s.ths| && s.ths[t].stack == [] && h in s.ptr
    requires u.objs == s.objs && u.ptr == s.ptr - {h}
    requires u.ths == s.ths[t := Thread(s.ths[t].own - {h}, Owing(s.ptr[h]))]
    ensures CountsHold(u) && Aimed(u) && DeathsHold(u)
  {
    hide Total, LedgerHolds, MembersHold, OwnsHold, TasksHold, Refs, Within;
    var p := s.ptr[h];
    OwingMarks(p);
    forall m
      ensures Total(u.ths, m) == Total(s.ths, m) + Within(Owing(p), m)
    {
      BegunTotals(s.ths, t, u.ths[t], m);
    }
    forall x
      ensures |Refs(u.ptr, x)| + If(p == To(x)) == |Refs(s.ptr, x)|
      ensures Total(u.ths, Owes(x)) == Total(s.ths, Owes(x)) + If(p == To(x))
      ensures Total(u.ths, Tests(x)) == Total(s.ths, Tests(x)) && Total(u.ths, Kills(x)) == Total(s.ths, Kills(x))
    {
      RefsWithout(s.ptr, h, x);
    }
  }

  lemma DropTasks(s: System, t: nat, h: Id)
    requires OwnsHold(s) && TasksHold(s) && t < |s.ths| && s.ths[t].stack == [] && h in s.ptr && h in s.ths[t].own
    ensures var ths := s.ths[t := Thread(s.ths[t].own - {h}, Owing(s.ptr[h]))];
            forall u :: 0 <= u < |ths| ==> StackHolds(s.ptr - {h}, s.objs, ths[u])
  {
    forall u | 0 <= u < |s.ths| && u != t
      ensures StackHolds(s.ptr - {h}, s.objs, s.ths[u])
    {
      assert StackHolds(s.ptr, s.objs, s.ths[u]) && h !in s.ths[u].own;
    }
  }

  lemma DropKeeps(s: System, t: nat, h: Id)
    requires Holds(s) && Allowed(s, Drop(t, h))
    ensures Holds(Step(s, Drop(t, h)))
  {
    hide Total, CountsHold, Aimed, DeathsHold, Within, StackHolds, NoDup;
    DropTotals(s, Step(s, Drop(t, h)), t, h);
    DropTasks(s, t, h);
  }

  /** Own handles may pass from thread to thread without a change to any total. */
  lemma {:induction false} StacksDecide(ths: seq<Thread>, us: seq<Thread>, m: Mark)
    requires |us| == |ths| && forall t :: 0 <= t < |ths| ==> us[t].stack == ths[t].stack
    ensures Total(us, m) == Total(ths, m)
    decreases |ths|
  {
    hide Within;
    if ths != [] {
      StacksDecide(ths[1..], us[1..], m);
    }
  }

  lemma GiveKeeps(s: System, t: nat, to: nat, h: Id)
    requires Holds(s) && Allowed(s, Give(t, to, h))
    ensures Holds(Step(s, Give(t, to, h)))
  {
    hide Total, CountsHold, Aimed, DeathsHold, NoDup;
    var u := Step(s, Give(t, to, h));
    forall m
      ensures Total(u.ths, m) == Total(s.ths, m)
    {
      StacksDecide(s.ths, u.ths, m);
    }
    SameTotals(s, u);
    GiveTasks(s, u, t, to, h);
  }

  lemma GiveTasks(s: System, u: System, t: nat, to: nat, h: Id)
    requires TasksHold(s) && t < |s.ths| && to < |s.ths| && s.ths[t].stack == [] && |u.ths| == |s.ths|
    requires u.ptr == s.ptr && u.objs == s.objs
    requires forall i :: 0 <= i < |s.ths| ==> u.ths[i].stack == s.ths[i].stack
    requires forall i :: 0 <= i < |s.ths| && i != t ==> s.ths[i].own <= u.ths[i].own
    ensures TasksHold(u)
  {
    forall i | 0 <= i < |u.ths|
      ensures StackHolds(u.ptr, u.objs, u.ths[i])
    {
      assert StackHolds(s.ptr, s.objs, s.ths[i]);
    }
  }

  /** A new object with a handle on it and null members; no thread has anything to do with it yet. */
  ghost predicate Made(s: System, u: System, o: Id, members: seq<Id>, h: Id)
  {
    && o !in s.objs && h !in s.ptr && h !in members && (forall g :: g in members ==> g !in s.ptr)
    && u.ptr == (s.ptr + Nulls(members))[h := To(o)] && u.objs == s.objs[o := Cell(1, false, members)]
    && forall m :: Total(u.ths, m) == Total(s.ths, m)
  }

  lemma NewCounts(s: System, u: System, o: Id, members: seq<Id>, h: Id)
    requires CountsHold(s) && Aimed(s) && Made(s, u, o, members, h)
    ensures CountsHold(u)
  {
    hide Total, Refs, Aimed;
    NoneAim(s, o);
    forall x | x in u.objs
      ensures u.objs[x].count == |Refs(u.ptr, x)| + Total(u.ths, Owes(x))
    {
      NewRefs(s.ptr, Nulls(members), h, o, x);
    }
  }

  lemma NewAimed(s: System, u: System, o: Id, members: seq<Id>, h: Id)
    requires Aimed(s) && Made(s, u, o, members, h)
    ensures Aimed(u)
  {
    hide Total;
  }

  lemma NewDeaths(s: System, u: System, o: Id, members: seq<Id>, h: Id)
    requires DeathsHold(s) && Made(s, u, o, members, h)
    ensures DeathsHold(u)
  {
    hide Total;
  }

  lemma NewRefs(ptr: map<Id, Ptr>, nulls: map<Id, Ptr>, h: Id, o: Id, x: Id)
    requires h !in ptr && h !in nulls && forall g :: g in nulls ==> g !in ptr && nulls[g] == Null
    ensures |Refs((ptr + nulls)[h := To(o)], x)| == |Refs(ptr, x)| + If(x == o)
  {
    hide Refs;
    RefsNulls(ptr, nulls, x);
    RefsRebound(ptr + nulls, h, To(o), x);
  }

  lemma NoneAim(s: System, o: Id)
    requires Aimed(s) && o !in s.objs
    ensures Refs(s.ptr, o) == {} && Total(s.ths, Owes(o)) == 0
  {
    hide Total;
  }

  lemma NewShape(s: System, u: System, t: nat, o: Id, members: seq<Id>, h: Id)
    requires LedgerHolds(s) && MembersHold(s) && OwnsHold(s)
    requires Allowed(s, New(t, o, members, h)) && u == Step(s, New(t, o, members, h))
    ensures LedgerHolds(u) && MembersHold(u) && OwnsHold(u)
  {
    hide NoDup;
  }

  lemma NewTasks(s: System, u: System, t: nat, o: Id, members: seq<Id>, h: Id)
    requires TasksHold(s) && Allowed(s, New(t, o, members, h)) && u == Step(s, New(t, o, members, h))
    ensures TasksHold(u)
  {
    hide NoDup;
    forall i | 0 <= i < |u.ths|
      ensures StackHolds(u.ptr, u.objs, u.ths[i])
    {
      assert StackHolds(s.ptr, s.objs, s.ths[i]);
    }
  }

  lemma NewKeeps(s: System, t: nat, o: Id, members: seq<Id>, h: Id)
    requires Holds(s) && Allowed(s, New(t, o, members, h))
    ensures Holds(Step(s, New(t, o, members, h)))
  {
    hide CountsHold, Aimed, DeathsHold, LedgerHolds, MembersHold, OwnsHold, TasksHold;
    hide Total, Refs;
    var u := Step(s, New(t, o, members, h));
    forall m
      ensures Total(u.ths, m) == Total(s.ths, m)
    {
      StacksDecide(s.ths, u.ths, m);
    }
    NewCounts(s, u, o, members, h);
    NewAimed(s, u, o, members, h);
    NewDeaths(s, u, o, members, h);
    NewShape(s, u, t, o, members, h);
    NewTasks(s, u, t, o, members, h);
  }

  lemma StepKeeps(s: System, l: Label)
    requires Holds(s) && Allowed(s, l)
    ensures Holds(Step(s, l))
  {
    hide Holds, Advance;
    match l
    case New(t, o, members, h) => NewKeeps(s, t, o, members, h);
    case CopyTo(t, h, from) => CopyKeeps(s, t, h, from);
    case AssignTo(t, h, via, from) => AssignKeeps(s, t, h, via, from);
    case Drop(t, h) => DropKeeps(s, t, h);
    case Give(t, to, h) => GiveKeeps(s, t, to, h);
    case Go(t) => AdvanceKeeps(s, t);
  }

  lemma {:induction false} NoStacksNoTotals(ths: seq<Thread>, m: Mark)
    requires forall t :: 0 <= t < |ths| ==> ths[t].stack == []
    ensures Total(ths, m) == 0
    decreases |ths|
  {
    if ths != [] {
      NoStacksNoTotals(ths[1..], m);
    }
  }

  lemma StartedHolds(n: nat)
    ensures Holds(Started(n))
  {
    hide Total;
    forall m
      ensures Total(Started(n).ths, m) == 0
    {
      NoStacksNoTotals(Started(n).ths, m);
    }
  }

  lemma {:induction false} RunKeeps(s: System, ls: seq<Label>, u: System)
    requires Holds(s) && Runs(s, ls, u)
    ensures Holds(u)
    decreases |ls|
  {
    hide Holds, Step;
    if ls != [] {
      StepKeeps(s, ls[0]);
      RunKeeps(Step(s, ls[0]), ls[1..], u);
    }
  }

  predicate Quiet(s: System)
  {
    forall t :: 0 <= t < |s.ths| ==> s.ths[t].stack == []
  }

  /** What a thread may do between operations, if no other is in one: copy or assign any of its handles, drop
      or give one away, and make an object with storage that is not in use. */
  lemma QuietAllows(s: System, t: nat, u: nat, h: Id, from: Id)
    requires Quiet(s) && t < |s.ths| && u < |s.ths| && from in s.ths[t].own && from in s.ptr
    ensures Allowed(s, Drop(t, from)) && Allowed(s, Give(t, u, from))
    ensures h in s.ths[t].own && h in s.ptr ==> Allowed(s, AssignTo(t, h, h, from))
    ensures s.ptr[from].To? && s.ptr[from].obj in s.objs && h in s.objs[s.ptr[from].obj].members && h in s.ptr ==>
              Allowed(s, AssignTo(t, h, from, from))
    ensures Unused(s, h) ==> Allowed(s, CopyTo(t, h, from))
    ensures forall o :: Unused(s, h) && o !in s.objs && o !in s.freed ==> Allowed(s, New(t, o, [], h))
  {
    hide Unused;
  }

  /** A handle given away is the other thread's, and nothing else has changed. */
  lemma GiveMoves(s: System, t: nat, u: nat, h: Id)
    requires OwnsHold(s) && Allowed(s, Give(t, u, h))
    ensures var v := Step(s, Give(t, u, h));
            && v == s.(ths := v.ths) && |v.ths| == |s.ths|
            && forall i :: 0 <= i < |s.ths| ==>
                 && v.ths[i].stack == s.ths[i].stack
                 && (forall g :: g != h ==> (g in v.ths[i].own <==> g in s.ths[i].own))
                 && (h in v.ths[i].own <==> i == u)
  {
    hide Unused, Contended;
  }

  // Over every interleaving.

  predicate Deletes(s: System, t: int, i: int)
  {
    0 <= t < |s.ths| && 0 <= i < |s.ths[t].stack| && s.ths[t].stack[i].Kill?
  }

  /** In every interleaving of any number of threads: a live object's count is the number of live handles on
      it, and of counted references on their way to a handle or from one; nothing dead is ever used, and
      nothing is freed twice; and no two threads ever delete the same object. */
  lemma SharedCountsAreExact(n: nat, ls: seq<Label>, s: System)
    requires Runs(Started(n), ls, s)
    ensures forall o :: o in s.objs ==> s.objs[o].count == |Refs(s.ptr, o)| + Total(s.ths, Owes(o))
    ensures !s.bad && NoDup(s.freed) && (forall o :: o in s.freed ==> o !in s.objs)
    ensures forall h :: h in s.ptr && s.ptr[h].To? ==> s.ptr[h].obj in s.objs
    ensures forall t, u, i, j ::
              (Deletes(s, t, i) && Deletes(s, u, j) && s.ths[t].stack[i].o == s.ths[u].stack[j].o) ==> t == u && i == j
  {
    hide Runs, Total, NoDup, Refs, MembersHold, OwnsHold, TasksHold;
    StartedHolds(n);
    RunKeeps(Started(n), ls, s);
    forall t, u, i, j | Deletes(s, t, i) && Deletes(s, u, j) && s.ths[t].stack[i].o == s.ths[u].stack[j].o
      ensures t == u && i == j
    {
      if t != u || i != j {
        TwoInTotal(s.ths, t, i, u, j, Kills(s.ths[t].stack[i].o));
      }
    }
  }

  /** Two places count twice. */
  lemma TwoInTotal(ths: seq<Thread>, t: nat, i: nat, u: nat, j: nat, m: Mark)
    requires t < |ths| && u < |ths| && i < |ths[t].stack| && j < |ths[u].stack| && (t != u || i != j)
    ensures Marked(ths[t].stack[i], m) + Marked(ths[u].stack[j], m) <= Total(ths, m)
  {
    hide Marked, Total, Within;
    var stack := ths[t].stack;
    var less := stack[..i] + stack[i + 1..];
    var us := WithStack(ths, t, less);
    assert stack == stack[..i] + ([stack[i]] + stack[i + 1..]);
    WithinJoined(stack[..i], [stack[i]] + stack[i + 1..], m);
    WithinJoined([stack[i]], stack[i + 1..], m);
    WithinJoined(stack[..i], stack[i + 1..], m);
    WithinOne(stack[i], m);
    TotalUpdated(ths, t, us[t], m);
    var k := if u != t || j < i then j else j - 1;
    assert us[u].stack[k] == ths[u].stack[j];
    TaskInTotal(us, u, k, m);
  }

  /** The shared heap, as the operations of one thread see it. */
  function Heap(s: System): State
  {
    State(s.ptr, s.objs, s.freed, {}, s.bad)
  }

  /** With no operation under way the heap is as whole operations leave it. */
  lemma QuietIsSound(s: System)
    requires Holds(s) && Quiet(s)
    ensures Inv(Heap(s), {})
  {
    hide Total, Refs, NoDup, OwnsHold, TasksHold;
    forall m
      ensures Total(s.ths, m) == 0
    {
      NoStacksNoTotals(s.ths, m);
    }
  }

  /** So whenever all threads are between operations, however they were interleaved before, counts are exact;
      and if the graph has no cycle the live objects are exactly those reachable from the threads' handles. */
  lemma QuietLiveIffReachable(n: nat, ls: seq<Label>, s: System, level: map<Id, nat>, o: Id)
    requires Runs(Started(n), ls, s) && Quiet(s) && Acyclic(Heap(s), level)
    ensures o in s.objs <==> Reachable(Heap(s), o)
  {
    hide Inv, Runs, Acyclic, IsPath, Holds, Quiet;
    StartedHolds(n);
    RunKeeps(Started(n), ls, s);
    QuietIsSound(s);
    if o in s.objs {
      var path := LiveIsReachable(Heap(s), level, o);
      assert Reachable(Heap(s), o);
    }
    if Reachable(Heap(s), o) {
      var path: seq<Id> :| path != [] && IsPath(Heap(s), path) && path[|path| - 1] == o;
      PathIsLive(Heap(s), path, |path| - 1);
    }
  }

  // An operation that is not interrupted is the whole operation, whatever the other threads are in the middle of.

  /** Up to n steps of one thread while the others stand still. */
  function Alone(s: System, t: nat, n: nat): System
    decreases n
  {
    if n == 0 || t >= |s.ths| || s.ths[t].stack == [] then s else Alone(Advance(s, t), t, n - 1)
  }

  lemma {:induction false} AloneTwice(s: System, t: nat, m: nat, n: nat)
    ensures Alone(s, t, m + n) == Alone(Alone(s, t, m), t, n)
    decreases m
  {
    hide Advance;
    if m > 0 && t < |s.ths| && s.ths[t].stack != [] {
      AloneTwice(Advance(s, t), t, m - 1, n);
    }
  }

  lemma {:induction false} AloneKeeps(s: System, t: nat, n: nat)
    requires Holds(s)
    ensures Holds(Alone(s, t, n))
    decreases n
  {
    hide Holds, Advance;
    if n > 0 && t < |s.ths| && s.ths[t].stack != [] {
      AdvanceKeeps(s, t);
      AloneKeeps(Advance(s, t), t, n - 1);
    }
  }

  lemma Restacked(ths: seq<Thread>, t: nat, a: seq<Task>, b: seq<Task>)
    requires t < |ths|
    ensures WithStack(WithStack(ths, t, a), t, b) == WithStack(ths, t, b)
  {
  }

  /** Heap and stacks are as the whole operation leaves them. */
  predicate Done(s: System, u: System, t: nat, r: State, rest: seq<Task>)
    requires t < |s.ths|
  {
    Heap(u) == r && u.ths == WithStack(s.ths, t, rest)
  }

  lemma DecStep(s: System, t: nat, o: Id, rest: seq<Task>)
    requires Holds(s) && t < |s.ths| && s.ths[t].stack == [Dec(o)] + rest
    ensures Holds(Advance(s, t)) && o in s.objs && !s.objs[o].noDelete
    ensures s.objs[o].count != 1 ==> Done(s, Advance(s, t), t, DecRef(Heap(s), o), rest)
    ensures s.objs[o].count == 1 ==>
              Done(s, Advance(s, t), t, Heap(s).(objs := s.objs[o := s.objs[o].(count := 0)]), [Test(o)] + rest)
  {
    hide Holds, Delete;
    AdvanceKeeps(s, t);
    DueIsAlive(s, t, o);
    assert s.ths[t].stack[1..] == rest;
  }

  lemma DueIsAlive(s: System, t: nat, o: Id)
    requires Holds(s) && t < |s.ths| && s.ths[t].stack != [] && s.ths[t].stack[0] == Dec(o)
    ensures o in s.objs && !s.objs[o].noDelete
  {
    hide Holds, Total;
    TopHolds(s, t);
    assert Marked(Dec(o), Owes(o)) == 1;
    OwedIsAlive(s, o);
  }

  lemma TestStep(s: System, t: nat, o: Id, rest: seq<Task>)
    requires Holds(s) && t < |s.ths| && s.ths[t].stack == [Test(o)] + rest && o in s.objs && !s.objs[o].noDelete
    ensures Holds(Advance(s, t))
    ensures Done(s, Advance(s, t), t, Heap(s).(objs := s.objs[o := s.objs[o].(noDelete := true)]),
                 [Kill(o, s.objs[o].members)] + rest)
  {
    hide Holds;
    AdvanceKeeps(s, t);
    assert s.ths[t].stack[1..] == rest;
  }

  lemma FreeStep(s: System, t: nat, o: Id, rest: seq<Task>)
    requires Holds(s) && t < |s.ths| && s.ths[t].stack == [Kill(o, [])] + rest
    ensures Done(s, Advance(s, t), t, Delete(Heap(s), o, []), rest)
  {
    hide CountsHold, Aimed, DeathsHold, LedgerHolds, MembersHold, OwnsHold, TasksHold;
    TopHolds(s, t);
    assert s.ths[t].stack[1..] == rest;
  }

  lemma MemberStep(s: System, t: nat, o: Id, members: seq<Id>, rest: seq<Task>)
    requires Holds(s) && t < |s.ths| && s.ths[t].stack == [Kill(o, members)] + rest && members != []
    ensures Holds(Advance(s, t)) && members[0] in s.ptr
    ensures Done(s, Advance(s, t), t, Heap(s).(ptr := s.ptr - {members[0]}),
                 Owing(s.ptr[members[0]]) + ([Kill(o, members[1..])] + rest))
  {
    hide CountsHold, Aimed, DeathsHold, LedgerHolds, MembersHold, OwnsHold, TasksHold;
    AdvanceKeeps(s, t);
    TopHolds(s, t);
    assert members[0] in members;
    assert s.ths[t].stack[1..] == rest;
  }

  lemma {:induction false} DecAlone(s: System, t: nat, o: Id, rest: seq<Task>) returns (n: nat)
    requires Holds(s) && t < |s.ths| && s.ths[t].stack == [Dec(o)] + rest
    ensures Done(s, Alone(s, t, n), t, DecRef(Heap(s), o), rest)
    decreases |s.ptr|, 3, 0
  {
    hide Holds, Advance, Delete;
    DecStep(s, t, o, rest);
    var s1 := Advance(s, t);
    if s.objs[o].count == 1 {
      TestStep(s1, t, o, rest);
      var s2 := Advance(s1, t);
      var m := KillAlone(s2, t, o, s.objs[o].members, rest);
      Restacked(s.ths, t, [Test(o)] + rest, [Kill(o, s.objs[o].members)] + rest);
      Restacked(s.ths, t, [Kill(o, s.objs[o].members)] + rest, rest);
      assert Heap(s2).objs == s.objs[o := Cell(0, true, s.objs[o].members)];
      n := m + 2;
    } else {
      n := 1;
    }
  }

  lemma {:induction false} KillAlone(s: System, t: nat, o: Id, members: seq<Id>, rest: seq<Task>) returns (n: nat)
    requires Holds(s) && t < |s.ths| && s.ths[t].stack == [Kill(o, members)] + rest
    ensures Done(s, Alone(s, t, n), t, Delete(Heap(s), o, members), rest)
    decreases |s.ptr|, 2, 0
  {
    hide Holds, Advance, DecRef;
    if members == [] {
      FreeStep(s, t, o, rest);
      n := 1;
    } else {
      var more := [Kill(o, members[1..])] + rest;
      var k := MemberAlone(s, t, o, members, rest);
      var s2 := Alone(s, t, k);
      var m := KillAlone(s2, t, o, members[1..], rest);
      AloneTwice(s, t, k, m);
      Restacked(s.ths, t, more, rest);
      n := k + m;
    }
  }

  /** One member's destructor. */
  lemma {:induction false} MemberAlone(s: System, t: nat, o: Id, members: seq<Id>, rest: seq<Task>) returns (n: nat)
    requires Holds(s) && t < |s.ths| && s.ths[t].stack == [Kill(o, members)] + rest && members != []
    ensures Holds(Alone(s, t, n)) && |Alone(s, t, n).ptr| < |s.ptr|
    ensures Done(s, Alone(s, t, n), t, DestroyHandle(Heap(s), members[0]), [Kill(o, members[1..])] + rest)
    decreases |s.ptr|, 1, 0
  {
    hide Holds, Advance, DecRef;
    var m, more := members[0], [Kill(o, members[1..])] + rest;
    MemberStep(s, t, o, members, rest);
    Shrinks(s.ptr, m);
    var s1 := Advance(s, t);
    if s.ptr[m] == Null {
      assert [] + more == more;
      n := 1;
    } else {
      var k := DecAlone(s1, t, s.ptr[m].obj, more);
      AloneKeeps(s1, t, k);
      Restacked(s.ths, t, Owing(s.ptr[m]) + more, more);
      n := k + 1;
    }
  }

  /** The whole operation a thread begins. */
  function Whole(l: Label): Op
    requires !l.Give? && !l.Go?
  {
    match l
    case New(_, o, members, h) => Create(o, members, h)
    case CopyTo(_, h, from) => Copy(h, from)
    case AssignTo(_, h, _, from) => Assign(h, from)
    case Drop(_, h) => Destroy(h)
  }

  lemma AimedAt(s: System, h: Id)
    requires Holds(s) && h in s.ptr && s.ptr[h].To?
    ensures s.ptr[h].obj in s.objs
  {
    hide CountsHold, DeathsHold, LedgerHolds, MembersHold, OwnsHold, TasksHold, Total;
  }

  /** What a thread read from its own handle is still there, so the object lives. */
  lemma ReadIsKept(s: System, t: nat)
    requires Holds(s) && t < |s.ths| && s.ths[t].stack != [] && s.ths[t].stack[0].Inc?
    ensures s.ths[t].stack[0].p.To? ==> s.ths[t].stack[0].p.obj in s.objs
  {
    hide Holds, Site, Marked, Total;
    TopHolds(s, t);
    if s.ths[t].stack[0].p.To? {
      AimedAt(s, s.ths[t].stack[0].from);
    }
  }

  lemma IncStep(s: System, t: nat, h: Id, via: Id, from: Id, p: Ptr)
    requires Holds(s) && t < |s.ths| && s.ths[t].stack == [Inc(h, via, from, p)]
    ensures Holds(Advance(s, t)) && (p.To? ==> p.obj in s.objs)
    ensures Done(s, Advance(s, t), t, if p == Null then Heap(s) else IncRef(Heap(s), p.obj), [Bind(h, via, p)])
  {
    hide Holds, Site;
    AdvanceKeeps(s, t);
    ReadIsKept(s, t);
    assert s.ths[t].stack[1..] == [] && [Bind(h, via, p)] + [] == [Bind(h, via, p)];
  }

  lemma BindStep(s: System, t: nat, h: Id, via: Id, p: Ptr)
    requires Holds(s) && t < |s.ths| && s.ths[t].stack == [Bind(h, via, p)]
    ensures Holds(Advance(s, t))
    ensures Done(s, Advance(s, t), t, Heap(s).(ptr := s.ptr[h := p]), Owing(if h in s.ptr then s.ptr[h] else Null))
  {
    hide Holds;
    AdvanceKeeps(s, t);
    var owing := Owing(if h in s.ptr then s.ptr[h] else Null);
    assert s.ths[t].stack[1..] == [] && owing + [] == owing;
  }

  /** Count up and bind, then what is owed for the old pointer. */
  lemma BoundAlone(s: System, t: nat, h: Id, via: Id, from: Id, p: Ptr) returns (n: nat)
    requires Holds(s) && t < |s.ths| && s.ths[t].stack == [Inc(h, via, from, p)]
    ensures var counted := if p == Null then Heap(s) else IncRef(Heap(s), p.obj);
            var bound := counted.(ptr := s.ptr[h := p]);
            Done(s, Alone(s, t, n), t,
                 if h in s.ptr && s.ptr[h].To? then DecRef(bound, s.ptr[h].obj) else bound, [])
  {
    hide Holds, Advance, DecRef;
    IncStep(s, t, h, via, from, p);
    var s1 := Advance(s, t);
    BindStep(s1, t, h, via, p);
    var s2 := Advance(s1, t);
    Restacked(s.ths, t, [Bind(h, via, p)], s2.ths[t].stack);
    if h in s.ptr && s.ptr[h].To? {
      assert [Dec(s.ptr[h].obj)] + [] == [Dec(s.ptr[h].obj)];
      var k := DecAlone(s2, t, s.ptr[h].obj, []);
      Restacked(s.ths, t, s2.ths[t].stack, []);
      n := k + 2;
    } else {
      n := 2;
    }
  }

  predicate Finishes(u: System, t: nat, r: State)
  {
    Heap(u) == r && t < |u.ths| && u.ths[t].stack == []
  }

  lemma CopyAlone(s: System, t: nat, h: Id, from: Id) returns (n: nat)
    requires Holds(s) && Allowed(s, CopyTo(t, h, from))
    ensures Finishes(Alone(Step(s, CopyTo(t, h, from)), t, n), t, Apply(Heap(s), Copy(h, from)))
  {
    hide Holds, Advance, DecRef, Alone;
    var l := CopyTo(t, h, from);
    StepKeeps(s, l);
    n := BoundAlone(Step(s, l), t, h, h, from, s.ptr[from]);
    if s.ptr[from].To? {
      AimedAt(s, from);
    }
  }

  lemma AssignAlone(s: System, t: nat, h: Id, via: Id, from: Id) returns (n: nat)
    requires Holds(s) && Allowed(s, AssignTo(t, h, via, from))
    ensures Finishes(Alone(Step(s, AssignTo(t, h, via, from)), t, n), t, Apply(Heap(s), Assign(h, from)))
  {
    hide Holds, Advance, DecRef;
    var l := AssignTo(t, h, via, from);
    if s.ptr[h] == s.ptr[from] {
      n := 0;
    } else {
      StepKeeps(s, l);
      n := BoundAlone(Step(s, l), t, h, via, from, s.ptr[from]);
    }
  }

  lemma DropAlone(s: System, t: nat, h: Id) returns (n: nat)
    requires Holds(s) && Allowed(s, Drop(t, h))
    ensures Finishes(Alone(Step(s, Drop(t, h)), t, n), t, Apply(Heap(s), Destroy(h)))
  {
    hide Holds, Advance, DecRef;
    var l := Drop(t, h);
    StepKeeps(s, l);
    if s.ptr[h] == Null {
      n := 0;
    } else {
      assert [Dec(s.ptr[h].obj)] + [] == [Dec(s.ptr[h].obj)];
      n := DecAlone(Step(s, l), t, s.ptr[h].obj, []);
    }
  }

  lemma NewAlone(s: System, t: nat, o: Id, members: seq<Id>, h: Id) returns (n: nat)
    requires Holds(s) && Allowed(s, New(t, o, members, h))
    ensures Finishes(Alone(Step(s, New(t, o, members, h)), t, n), t, Apply(Heap(s), Create(o, members, h)))
  {
    hide Holds;
    var u := Step(s, New(t, o, members, h));
    assert u.objs == s.objs[o := Cell(0, false, members)][o := Cell(1, false, members)];
    n := 0;
  }

  lemma WholeIsLegal(s: System, l: Label)
    requires Holds(s) && Allowed(s, l) && !l.Give? && !l.Go?
    ensures Legal(Heap(s), Whole(l))
  {
    hide CountsHold, Aimed, DeathsHold, LedgerHolds, MembersHold, TasksHold, Contended, Site, NoDup;
  }

  /** Begun in any state of any interleaving and then left alone, an operation ends, and does to the heap what
      the same operation does in a program of one thread; and it is one that program may do. */
  lemma AloneIsWhole(s: System, l: Label) returns (n: nat)
    requires Holds(s) && Allowed(s, l) && !l.Give? && !l.Go?
    ensures Legal(Heap(s), Whole(l))
    ensures Finishes(Alone(Step(s, l), l.t, n), l.t, Apply(Heap(s), Whole(l)))
  {
    hide Holds, Advance, Apply, Legal, Step, Alone;
    WholeIsLegal(s, l);
    match l
    case New(t, o, members, h) => n := NewAlone(s, t, o, members, h);
    case CopyTo(t, h, from) => n := CopyAlone(s, t, h, from);
    case AssignTo(t, h, via, from) => n := AssignAlone(s, t, h, via, from);
    case Drop(t, h) => n := DropAlone(s, t, h);
  }
}
