/** The interleaved watcher thread delivers the scan of the records it read: the pure account of EventPump
    holds of every run of WatcherMachine. */
module WatcherScan {
  import opened EventPump
  import opened WatcherMachine

  function MasksOf(xs: seq<Item>): (ms: seq<nat>)
    ensures |ms| == |xs|
  {
    seq(|xs|, i requires 0 <= i < |xs| => xs[i].record.mask)
  }

  /** Masks read whose record has not reached the stop check. */
  function Waiting(s: State): seq<nat>
  {
    if s.th.pc.CheckStop? then [s.th.pc.mask] + s.th.queue else s.th.queue
  }

  /** The thread has taken a Delete past the stop check. */
  predicate PastDelete(s: State)
  {
    match s.th.pc
    case CheckFilter(e) => e == Delete
    case CallBack(e) => e == Delete
    case StopServer(e) => e == Delete
    case Finish(e) => e == Delete
    case AfterEvent(e) => e == Delete
    case TestCancelled => true
    case Sending(_) => true
    case _ => !s.th.loop
  }

  function LastWord(s: State): seq<Event>
  {
    if PastError(s) then [Error] else []
  }

  /** What was delivered, with what is owed, is the scan of what was checked. */
  predicate Scanned(s: State)
  {
    s.hist.log + Owed(s) == PassOn(s.mem.filter, CutOff(s.hist.checked)) + LastWord(s)
  }

  /** What was checked is, up to the cut, what was read, in order; without a cut the rest is waiting. */
  predicate InOrder(s: State)
  {
    && MasksOf(CutOff(s.hist.checked)) <= s.hist.masks
    && (!HitsStop(s.hist.checked) && !HitsDelete(s.hist.checked) ==>
          s.hist.masks == MasksOf(s.hist.checked) + Waiting(s))
    && (s.th.pc == Top ==> s.th.queue == [])
  }

  /** A stop found once is found ever after; a Delete past the check ends the checking. */
  predicate Cutting(s: State)
  {
    && (forall i :: 0 <= i < |s.hist.checked| && s.hist.checked[i].look.stopped ==> s.mem.stopped)
    && StaysStopped(s.hist.checked)
    && (HitsDelete(s.hist.checked) <==> PastDelete(s))
  }

  predicate ScanInv(s: State)
  {
    Scanned(s) && InOrder(s) && Cutting(s)
  }

  lemma MasksAppend(xs: seq<Item>, x: Item)
    ensures MasksOf(xs + [x]) == MasksOf(xs) + [x.record.mask]
  {
  }

  lemma CutOne(filter: int, x: Item)
    ensures CutOff([x]) == if x.look.stopped then [] else [x]
    ensures PassOn(filter, CutOff([x])) == if !x.look.stopped && Passes(filter, EventOf(x)) then [EventOf(x)] else []
    ensures HitsStop([x]) == x.look.stopped && HitsDelete([x]) == (!x.look.stopped && EventOf(x) == Delete)
  {
    hide EventOf, Passes;
    assert [x][1..] == [];
  }

  lemma {:induction false} StopIsSome(xs: seq<Item>)
    requires HitsStop(xs)
    ensures exists i :: 0 <= i < |xs| && xs[i].look.stopped
    decreases |xs|
  {
    hide EventOf;
    if xs[0].look.stopped {
    } else {
      StopIsSome(xs[1..]);
      var i :| 0 <= i < |xs[1..]| && xs[1..][i].look.stopped;
      assert xs[i + 1].look.stopped;
    }
  }

  /** One more record at the stop check. */
  lemma CheckStopScans(s: State, mask: nat, found: bool)
    requires Inv(s) && ScanInv(s) && s.th.pc == CheckStop(mask, found)
    ensures ScanInv(AtCheckStop(s, mask, found))
  {
    hide Inv, Classify, Passes, PassOn, CutOff, HitsDelete, HitsStop, StaysStopped, MasksOf;
    var xs, x := s.hist.checked, Seen(mask, found, s.mem.stopped);
    LoopGoesOn(s);
    CutOffAppend(xs, [x]);
    CutAppend(s.mem.filter, xs, [x]);
    CutOne(s.mem.filter, x);
    MasksAppend(xs, x);
    StopsStay(xs, x, s.mem.stopped);
    if HitsStop(xs) {
      StopIsSome(xs);
    }
    CheckedInOrder(s, mask, found);
    CheckedScanned(s, mask, found);
  }

  lemma LoopGoesOn(s: State)
    requires Inv(s) && s.th.pc.CheckStop?
    ensures s.th.loop && !PastDelete(s) && !PastError(s)
  {
  }

  lemma StopsStay(xs: seq<Item>, x: Item, stopped: bool)
    requires StaysStopped(xs) && x.look.stopped == stopped
    requires forall i :: 0 <= i < |xs| && xs[i].look.stopped ==> stopped
    ensures StaysStopped(xs + [x])
    ensures forall i :: 0 <= i < |xs + [x]| && (xs + [x])[i].look.stopped ==> stopped
  {
  }

  lemma CheckedInOrder(s: State, mask: nat, found: bool)
    requires InOrder(s) && s.th.pc == CheckStop(mask, found) && !HitsDelete(s.hist.checked)
    requires HitsStop(s.hist.checked) ==> s.mem.stopped
    ensures InOrder(AtCheckStop(s, mask, found))
  {
    hide Classify, CutOff, HitsDelete, HitsStop, MasksOf;
    var xs, x := s.hist.checked, Seen(mask, found, s.mem.stopped);
    CutOffAppend(xs, [x]);
    CutOne(0, x);
    MasksAppend(xs, x);
    assert xs + [] == xs && CutOff(xs) + [] == CutOff(xs);
    if !HitsStop(xs) {
      assert s.hist.masks == MasksOf(xs) + ([mask] + s.th.queue) == MasksOf(xs) + [mask] + s.th.queue;
    }
  }

  lemma CheckedScanned(s: State, mask: nat, found: bool)
    requires Scanned(s) && s.th.pc == CheckStop(mask, found) && !HitsDelete(s.hist.checked) && !PastError(s)
    requires HitsStop(s.hist.checked) ==> s.mem.stopped
    ensures Scanned(AtCheckStop(s, mask, found))
  {
    hide Classify, Passes, CutOff, HitsDelete, HitsStop, PassOn;
    var xs, x := s.hist.checked, Seen(mask, found, s.mem.stopped);
    CutAppend(s.mem.filter, xs, [x]);
    CutOne(s.mem.filter, x);
    assert s.hist.log + [] == s.hist.log;
    var p := PassOn(s.mem.filter, CutOff(xs));
    assert p + [] == p;
  }

  lemma DequeueScans(s: State, found: bool)
    requires Inv(s) && ScanInv(s) && s.th.pc == Dequeue
    ensures ScanInv(AtDequeue(s, found))
  {
    hide Passes, Named, PassOn, CutOff, HitsDelete, HitsStop, StaysStopped, MasksOf, Untouched;
    if s.th.queue != [] {
      assert [s.th.queue[0]] + s.th.queue[1..] == s.th.queue;
    }
  }

  lemma CallBackScans(s: State, e: Event)
    requires ScanInv(s) && s.th.pc == CallBack(e)
    ensures ScanInv(AtCallBack(s, e))
  {
    hide PassOn, CutOff, HitsDelete, HitsStop, StaysStopped, MasksOf;
    assert s.hist.log + [e] + [] == s.hist.log + [e];
  }

  lemma AfterLoopScans(s: State)
    requires Inv(s) && ScanInv(s) && s.th.pc == AfterLoop
    ensures ScanInv(AtAfterLoop(s))
  {
    hide PassOn, CutOff, HitsDelete, HitsStop, StaysStopped, MasksOf, Untouched, Deleted;
    var p := PassOn(s.mem.filter, CutOff(s.hist.checked));
    assert s.hist.log + [] == s.hist.log && s.hist.log + [Error] + [] == s.hist.log + [Error] && p + [] == p;
  }

  /** Steps that deliver nothing: they keep what was checked, read and owed. */
  lemma QuietStep(s: State, t: State)
    requires ScanInv(s) && t.mem == s.mem.(alive := t.mem.alive) && t.hist.log == s.hist.log
    requires t.hist.checked == s.hist.checked && t.hist.masks == s.hist.masks
    requires Owed(t) == Owed(s) && PastDelete(t) == PastDelete(s) && PastError(t) == PastError(s)
    requires t.th.queue == s.th.queue || (t.th.queue == [] && PastDelete(s))
    requires !s.th.pc.CheckStop? && !t.th.pc.CheckStop? && (t.th.pc == Top ==> t.th.queue == [])
    ensures ScanInv(t)
  {
    hide PassOn, CutOff, HitsDelete, HitsStop, StaysStopped, MasksOf, Owed, PastDelete, PastError;
  }

  /** The other steps of the thread. */
  lemma OtherStepsScan(s: State, found: bool)
    requires Inv(s) && ScanInv(s) && s.th.pc != Top && s.th.pc != Exited && !s.th.pc.CheckStop?
    ensures ScanInv(Advance(s, found))
  {
    hide AtDequeue, AtCheckStop, AtCallBack, AtAfterLoop, ScanInv, Passes;
    hide Untouched, Settled, Deleting, Deleted, GoodAttempts;
    var t := Advance(s, found);
    if s.th.pc == Dequeue {
      DequeueScans(s, found);
    } else if s.th.pc.CallBack? {
      CallBackScans(s, s.th.pc.e);
    } else if s.th.pc == AfterLoop {
      AfterLoopScans(s);
    } else {
      QuietStep(s, t);
    }
  }

  lemma StepKeepsScan(s: State, l: Label)
    requires Inv(s) && ScanInv(s) && Step(s, l).Reached?
    ensures ScanInv(Step(s, l).s)
  {
    hide Inv, Advance, Passes, PassOn, CutOff, HitsDelete, HitsStop, StaysStopped, MasksOf;
    if l.ReadBatch? {
      assert MasksOf(s.hist.checked) + [] == MasksOf(s.hist.checked);
    } else if l.Go? && s.th.pc != Top {
      if s.th.pc.CheckStop? {
        CheckStopScans(s, s.th.pc.mask, s.th.pc.found);
        AdvanceChecks(s, l.found);
      } else {
        OtherStepsScan(s, l.found);
      }
    }
  }

  lemma AdvanceChecks(s: State, found: bool)
    requires s.th.pc.CheckStop?
    ensures Advance(s, found) == AtCheckStop(s, s.th.pc.mask, s.th.pc.found)
  {
    hide AtCheckStop;
  }

  lemma {:induction false} RunKeepsScan(s: State, ls: seq<Label>)
    requires Inv(s) && ScanInv(s) && Run(s, ls).Reached?
    ensures ScanInv(Run(s, ls).s)
    decreases |ls|
  {
    hide Step, Inv, ScanInv;
    if ls != [] {
      StepKeepsInv(s, ls[0]);
      StepKeepsScan(s, ls[0]);
      RunKeepsScan(Step(s, ls[0]).s, ls[1..]);
    }
  }

  /** In every interleaving, with no event on its way to the delegate: the callbacks are the scan of the
      records checked, cut at the first Delete or at the stop, and an Error if the thread gave up. The
      records checked are, up to the cut, the records read, in order and none left out; without a cut the
      others are still waiting. A stop once found is found for every later record. */
  lemma RunIsScan(filter: int, ls: seq<Label>)
    requires Run(Started(filter), ls).Reached? && Owed(Run(Started(filter), ls).s) == []
    ensures var s := Run(Started(filter), ls).s;
            var xs := s.hist.checked;
            && s.hist.log == PassOn(s.mem.filter, CutOff(xs)) + LastWord(s)
            && StaysStopped(xs)
            && MasksOf(CutOff(xs)) <= s.hist.masks
            && (!HitsStop(xs) && !HitsDelete(xs) ==> s.hist.masks == MasksOf(xs) + Waiting(s))
            && (s.th.pc == Exited ==> HitsDelete(xs) || s.hist.log == PassOn(s.mem.filter, CutOff(xs)) + [Error])
  {
    hide Run, PassOn, CutOff, HitsDelete, HitsStop, StaysStopped, MasksOf;
    StartedInv(filter);
    RunKeepsInv(Started(filter), ls);
    NothingYet(filter);
    RunKeepsScan(Started(filter), ls);
    var s := Run(Started(filter), ls).s;
    assert s.hist.log + [] == s.hist.log;
    if s.th.pc == Exited {
      ExitedFor(s);
    }
  }

  /** The thread ends for one of two reasons. */
  lemma ExitedFor(s: State)
    requires Inv(s) && s.th.pc == Exited
    ensures PastDelete(s) || PastError(s)
  {
  }

  lemma NothingYet(filter: int)
    ensures ScanInv(Started(filter))
  {
    NoItems(filter);
    assert MasksOf([]) == [];
  }

  /** With the filter of FileDeleteObserver a scan delivers the Delete at the cut and nothing else. */
  lemma {:induction false} TerminalScan(xs: seq<Item>)
    ensures PassOn(TERMINAL_FILTER, CutOff(xs)) == if HitsDelete(xs) then [Delete] else []
    decreases |xs|
  {
    hide Classify, Passes, PassOn, CutOff, HitsDelete;
    NoItems(TERMINAL_FILTER);
    if xs != [] {
      var x, rest := xs[0], xs[1..];
      assert xs == [x] + rest && [x] + [] == [x];
      TerminalScan(rest);
      CutOffAppend([x], rest);
      CutOne(TERMINAL_FILTER, x);
      PassOnFirst(TERMINAL_FILTER, x, CutOff(rest));
      OnlyTerminalPass(EventOf(x));
      NeverClassifiedError(x.record.mask, x.look.exists_);
    }
  }

  /** So in every interleaving FileDeleteObserver hears nothing, or one Delete, exactly when a record that
      means deletion was checked before the stop, or one Error. */
  lemma DeleteObserverHears(ls: seq<Label>)
    requires Run(Started(TERMINAL_FILTER), ls).Reached? && Owed(Run(Started(TERMINAL_FILTER), ls).s) == []
    ensures var s := Run(Started(TERMINAL_FILTER), ls).s;
            && s.hist.log == (if HitsDelete(s.hist.checked) then [Delete] else if PastError(s) then [Error] else [])
            && !(HitsDelete(s.hist.checked) && PastError(s))
  {
    hide Run, PassOn, CutOff, HitsDelete, Owed, Inv;
    var s := Run(Started(TERMINAL_FILTER), ls).s;
    StartedInv(TERMINAL_FILTER);
    RunKeepsInv(Started(TERMINAL_FILTER), ls);
    LabelsDecide(Started(TERMINAL_FILTER), ls);
    RunIsScan(TERMINAL_FILTER, ls);
    TerminalScan(s.hist.checked);
    TerminalEventIsLast(TERMINAL_FILTER, ls);
    assert [] + LastWord(s) == LastWord(s);
    NotBothTerminal(s.hist.log);
  }

  lemma NotBothTerminal(log: seq<Event>)
    requires forall i :: 0 <= i < |log| && Terminal(log[i]) ==> i == |log| - 1
    ensures log != [Delete] + [Error]
  {
    assert Terminal(([Delete] + [Error])[0]);
  }

  // A stop ends the batch in which it is found.

  function StopsFound(xs: seq<Item>): nat
    decreases |xs|
  {
    if xs == [] then 0 else StopsFound(xs[..|xs| - 1]) + if xs[|xs| - 1].look.stopped then 1 else 0
  }

  /** The thread is between a read and the next. */
  predicate InBatch(pc: Pc)
  {
    match pc
    case Top => false
    case AfterLoop => false
    case Exited => false
    case StopServer(e) => e != Error
    case Finish(e) => e != Error
    case _ => true
  }

  predicate OneStopEach(s: State)
  {
    StopsFound(s.hist.checked) + (if InBatch(s.th.pc) then 1 else 0) <= s.hist.batches
  }

  lemma AdvanceStopsOnce(s: State, found: bool)
    requires OneStopEach(s) && s.th.pc != Top && s.th.pc != Exited
    ensures OneStopEach(Advance(s, found))
  {
    hide Passes, Named, StopsFound, AtCheckStop;
    if s.th.pc.CheckStop? {
      CheckStopsOnce(s, s.th.pc.mask, s.th.pc.found);
      AdvanceChecks(s, found);
    }
  }

  lemma CheckStopsOnce(s: State, mask: nat, found: bool)
    requires OneStopEach(s) && s.th.pc == CheckStop(mask, found)
    ensures OneStopEach(AtCheckStop(s, mask, found))
  {
    hide Classify;
    var xs, x := s.hist.checked, Seen(mask, found, s.mem.stopped);
    assert (xs + [x])[..|xs|] == xs;
  }

  lemma StepStopsOnce(s: State, l: Label)
    requires OneStopEach(s) && Step(s, l).Reached?
    ensures OneStopEach(Step(s, l).s)
  {
    hide Advance, StopsFound;
    if l.Go? && s.th.pc != Top {
      AdvanceStopsOnce(s, l.found);
    }
  }

  lemma {:induction false} RunStopsOnce(s: State, ls: seq<Label>)
    requires OneStopEach(s) && Run(s, ls).Reached?
    ensures OneStopEach(Run(s, ls).s)
    decreases |ls|
  {
    hide Step, OneStopEach;
    if ls != [] {
      StepStopsOnce(s, ls[0]);
      RunStopsOnce(Step(s, ls[0]).s, ls[1..]);
    }
  }

  /** In every interleaving the thread looks at one record per read, at most, once the observer is stopped:
      the one that finds the stop, and the rest of its batch is dropped. */
  lemma StopEndsBatch(filter: int, ls: seq<Label>)
    requires Run(Started(filter), ls).Reached?
    ensures var h := Run(Started(filter), ls).s.hist; StopsFound(h.checked) <= h.batches
  {
    hide Run;
    RunStopsOnce(Started(filter), ls);
  }
}
