/** One watcher thread and the FileDeleteObserver it reports to, interleaved step by step with the thread
    that stops the observer or changes its URL. */
module WatcherMachine {
  import opened EventPump

  /** What onEvent found in mCancelled, if it has looked. */
  datatype Tested = NotYet | FoundCancelled | FoundRunning

  const FAIL_RETRY_TIMES := 10

  /** Where the watcher thread is. */
  datatype Pc =
    | Top                  // the outer loop's condition, or blocked in read
    | Dequeue              // the inner loop's condition and the classification
    | CheckStop(mask: nat, found: bool) // isStopped(), for a classified event
    | CheckFilter(e: Event)
    | CallBack(e: Event)   // entering onEvent
    | TestCancelled        // onEvent(Delete) looks at mCancelled
    | Sending(i: nat)      // the i-th turn of onDelete's loop
    | StopServer(e: Event)
    | Finish(e: Event)     // delete this
    | AfterEvent(e: Event) // onEvent has returned
    | AfterLoop
    | Exited

  /** The thread's locals. */
  datatype Thread = Thread(pc: Pc, loop: bool, failed: nat, queue: seq<nat>)

  /** The observer, whether it and its FileObserver still exist, and whether stopWatching is between its
      two writes. */
  datatype Memory = Memory(filter: int, cancelled: bool, stopped: bool, hasUrl: bool, alive: bool, stopping: bool)

  /** What has happened: callbacks the delegate got, outcomes of the requests sent, the server's stop,
      whether the watcher thread touched the observer or the delegate after their deletion, the masks read
      from inotify and in how many reads, and the records whose event reached the stop check, with what was
      found there. */
  datatype History = History(log: seq<Event>, attempts: seq<bool>, serverStopped: bool, tested: Tested, badTouch: bool,
                             masks: seq<nat>, batches: nat, checked: seq<Item>)

  datatype State = State(th: Thread, mem: Memory, hist: History)

  /** The history after the thread touches the observer once more. */
  function Touch(s: State): History
  {
    s.hist.(badTouch := s.hist.badTouch || !s.mem.alive)
  }

  /** A step: of the watcher thread, with what it finds outside, or of another thread. */
  datatype Label =
    | ReadFails
    | ReadBatch(masks: seq<nat>)
    | Go(found: bool)
    | SetCancelled
    | SetStopped
    | SetUrl(nonEmpty: bool)

  datatype Next = Impossible | Reached(s: State)

  function Started(filter: int): State
  {
    State(Thread(Top, true, 0, []), Memory(filter, false, false, false, true, false),
          History([], [], false, NotYet, false, [], 0, []))
  }

  /** The step a label stands for. */
  function Step(s: State, l: Label): Next
  {
    match l
    case SetCancelled =>
      if s.mem.alive && !s.mem.stopping then Reached(s.(mem := s.mem.(cancelled := true, stopping := true)))
        else Impossible
    case SetStopped =>
      if s.mem.alive && s.mem.stopping then Reached(s.(mem := s.mem.(stopped := true, stopping := false)))
        else Impossible
    case SetUrl(n) => if s.mem.alive then Reached(s.(mem := s.mem.(hasUrl := n))) else Impossible
    case ReadFails => if Reading(s.th) then Reached(s.(th := s.th.(failed := s.th.failed + 1))) else Impossible
    case ReadBatch(masks) =>
      if Reading(s.th) then
        Reached(State(s.th.(queue := masks, pc := Dequeue), s.mem,
                      s.hist.(masks := s.hist.masks + masks, batches := s.hist.batches + 1)))
      else Impossible
    case Go(found) =>
      if Reading(s.th) || s.th.pc == Exited then Impossible
      else if s.th.pc == Top then Reached(s.(th := s.th.(pc := AfterLoop)))
      else Reached(Advance(s, found))
  }

  /** The outer loop's condition holds, and the thread is in read. */
  predicate Reading(th: Thread)
  {
    th.pc == Top && th.loop && th.failed < FAILED_RETRY_TIMES
  }

  function Advance(s: State, found: bool): State
    requires s.th.pc != Top && s.th.pc != Exited
  {
    match s.th.pc
    case Dequeue => AtDequeue(s, found)
    case CheckStop(mask, found_) => AtCheckStop(s, mask, found_)
    case CheckFilter(e) => State(s.th.(pc := if Passes(s.mem.filter, e) then CallBack(e) else AfterEvent(e)), s.mem,
                                 Touch(s))
    case CallBack(e) => AtCallBack(s, e)
    case TestCancelled => AtTest(s)
    case Sending(i) => AtSending(s, i, found && s.mem.hasUrl)
    case StopServer(e) => State(s.th.(pc := Finish(e)), s.mem, s.hist.(serverStopped := true))
    case Finish(e) => State(s.th.(pc := if e == Error then Exited else AfterEvent(e)), s.mem.(alive := false), Touch(s))
    case AfterEvent(e) =>
      s.(th := if e == Delete then s.th.(loop := false, queue := [], pc := Top) else s.th.(pc := Dequeue))
    case AfterLoop => AtAfterLoop(s)
  }

  /** Looking whether the file exists reads the observer's path. */
  function AtDequeue(s: State, found: bool): State
  {
    if s.th.queue == [] then s.(th := s.th.(pc := Top))
    else
      var mask := s.th.queue[0];
      State(s.th.(queue := s.th.queue[1..], pc := CheckStop(mask, found)), s.mem,
            if Named(mask) == IN_CLOSE_NOWRITE then Touch(s) else s.hist)
  }

  /** A record as the thread saw it; nothing but the mask of it matters. */
  function Seen(mask: nat, found: bool, stopped: bool): Item
  {
    Item(Record(0, mask, 0, []), Look(stopped, found))
  }

  function AtCheckStop(s: State, mask: nat, found: bool): State
  {
    State(if s.mem.stopped then s.th.(queue := [], pc := Top)
          else s.th.(pc := CheckFilter(Classify(mask, found))), s.mem,
          Touch(s).(checked := s.hist.checked + [Seen(mask, found, s.mem.stopped)]))
  }

  function AtCallBack(s: State, e: Event): State
  {
    State(s.th.(pc := if e == Delete then TestCancelled else AfterEvent(e)), s.mem, Touch(s).(log := s.hist.log + [e]))
  }

  function AtTest(s: State): State
  {
    State(s.th.(pc := if s.mem.cancelled then Finish(Delete) else Sending(0)), s.mem,
          Touch(s).(tested := if s.mem.cancelled then FoundCancelled else FoundRunning))
  }

  function AtSending(s: State, i: nat, ok: bool): State
  {
    State(s.th.(pc := if ok || i + 1 >= FAIL_RETRY_TIMES then StopServer(Delete) else Sending(i + 1)), s.mem,
          Touch(s).(attempts := s.hist.attempts + [ok]))
  }

  function AtAfterLoop(s: State): State
  {
    if s.th.failed == FAILED_RETRY_TIMES then
      State(s.th.(pc := StopServer(Error)), s.mem, Touch(s).(log := s.hist.log + [Error]))
    else s.(th := s.th.(pc := Exited))
  }

  function Run(s: State, ls: seq<Label>): Next
    decreases |ls|
  {
    if ls == [] then Reached(s)
    else match Step(s, ls[0])
      case Impossible => Impossible
      case Reached(t) => Run(t, ls[1..])
  }

  // What every step keeps.

  predicate Terminal(e: Event)
  {
    e == Delete || e == Error
  }

  predicate Quiet(log: seq<Event>)
  {
    forall i :: 0 <= i < |log| ==> !Terminal(log[i])
  }

  /** The log ends with this terminal event, and it is the only one. */
  predicate ClosedBy(log: seq<Event>, e: Event)
  {
    log != [] && log[|log| - 1] == e && Quiet(log[..|log| - 1])
  }

  predicate AllFailed(attempts: seq<bool>)
  {
    forall i :: 0 <= i < |attempts| ==> !attempts[i]
  }

  /** Requests are sent until one succeeds, at least one and at most ten. */
  predicate GoodAttempts(attempts: seq<bool>)
  {
    && 1 <= |attempts| <= 10 && AllFailed(attempts[..|attempts| - 1])
    && (attempts[|attempts| - 1] || |attempts| == 10)
  }

  /** Nothing terminal has happened yet. */
  predicate Untouched(s: State)
  {
    Quiet(s.hist.log) && s.mem.alive && s.hist.tested == NotYet && s.hist.attempts == [] && !s.hist.serverStopped
  }

  predicate Settled(s: State)
  {
    && (s.hist.tested == FoundCancelled ==> s.hist.attempts == [] && !s.hist.serverStopped)
    && (s.hist.tested == FoundRunning ==> s.hist.serverStopped && GoodAttempts(s.hist.attempts))
  }

  predicate Deleting(s: State)
  {
    s.th.loop && s.th.failed < FAILED_RETRY_TIMES && ClosedBy(s.hist.log, Delete) && s.mem.alive
  }

  predicate Deleted(s: State)
  {
    ClosedBy(s.hist.log, Delete) && !s.mem.alive && s.hist.tested != NotYet && Settled(s)
  }

  predicate Failing(s: State)
  {
    s.th.loop && s.th.failed == FAILED_RETRY_TIMES && ClosedBy(s.hist.log, Error) && s.mem.alive &&
    s.hist.tested == NotYet && s.hist.attempts == []
  }

  predicate Inv(s: State)
  {
    && !s.hist.badTouch && s.th.failed <= FAILED_RETRY_TIMES
    && (match s.th.pc
        case Top => if s.th.loop then Untouched(s) else s.th.failed < FAILED_RETRY_TIMES && (Untouched(s) || Deleted(s))
        case Dequeue => s.th.loop && s.th.failed < FAILED_RETRY_TIMES && Untouched(s)
        case CheckStop(_, _) => s.th.loop && s.th.failed < FAILED_RETRY_TIMES && Untouched(s)
        case CheckFilter(e) => s.th.loop && s.th.failed < FAILED_RETRY_TIMES && Untouched(s) && e != Error
        case CallBack(e) => s.th.loop && s.th.failed < FAILED_RETRY_TIMES && Untouched(s) && e != Error
        case TestCancelled => Deleting(s) && s.hist.tested == NotYet && s.hist.attempts == [] && !s.hist.serverStopped
        case Sending(i) =>
          Deleting(s) && s.hist.tested == FoundRunning && i == |s.hist.attempts| < FAIL_RETRY_TIMES &&
          AllFailed(s.hist.attempts) && !s.hist.serverStopped
        case StopServer(e) =>
          if e == Error then Failing(s) && !s.hist.serverStopped
          else
            e == Delete && Deleting(s) && s.hist.tested == FoundRunning &&
            GoodAttempts(s.hist.attempts) && !s.hist.serverStopped
        case Finish(e) =>
          if e == Error then Failing(s) && s.hist.serverStopped
          else e == Delete && Deleting(s) && s.hist.tested != NotYet && Settled(s)
        case AfterEvent(e) =>
          s.th.loop && s.th.failed < FAILED_RETRY_TIMES && (Untouched(s) || (e == Delete && Deleted(s)))
        case AfterLoop =>
          if s.th.loop then s.th.failed == FAILED_RETRY_TIMES && Untouched(s)
          else s.th.failed < FAILED_RETRY_TIMES && (Untouched(s) || Deleted(s))
        case Exited =>
          if s.th.failed == FAILED_RETRY_TIMES then
            ClosedBy(s.hist.log, Error) && !s.mem.alive &&
            s.hist.tested == NotYet && s.hist.attempts == [] && s.hist.serverStopped
          else
            !s.th.loop && (Untouched(s) || Deleted(s)))
  }

  lemma QuietAppend(log: seq<Event>, e: Event)
    requires Quiet(log)
    ensures Terminal(e) ==> ClosedBy(log + [e], e)
    ensures !Terminal(e) ==> Quiet(log + [e])
  {
    assert (log + [e])[..|log|] == log;
  }

  lemma AttemptsAppend(attempts: seq<bool>, ok: bool)
    requires AllFailed(attempts) && |attempts| < FAIL_RETRY_TIMES
    ensures ok || |attempts| + 1 == FAIL_RETRY_TIMES ==> GoodAttempts(attempts + [ok])
    ensures !ok ==> AllFailed(attempts + [ok])
  {
    assert (attempts + [ok])[..|attempts|] == attempts;
  }

  lemma NoAttempts()
    ensures AllFailed([])
  {
  }

  lemma DequeueKeepsInv(s: State, found: bool)
    requires Inv(s) && s.th.pc == Dequeue
    ensures Inv(AtDequeue(s, found))
  {
    hide Classify, Passes, Named, Quiet, ClosedBy, AllFailed, GoodAttempts;
  }

  lemma CheckStopKeepsInv(s: State, mask: nat, found: bool)
    requires Inv(s) && s.th.pc == CheckStop(mask, found)
    ensures Inv(AtCheckStop(s, mask, found))
  {
    hide Classify, Quiet, ClosedBy, AllFailed, GoodAttempts;
    NeverClassifiedError(mask, found);
  }

  lemma CallBackKeepsInv(s: State, e: Event)
    requires Inv(s) && s.th.pc == CallBack(e)
    ensures Inv(AtCallBack(s, e))
  {
    hide Classify, Passes, Named, Quiet, ClosedBy, AllFailed, GoodAttempts;
    QuietAppend(s.hist.log, e);
  }

  lemma TestKeepsInv(s: State)
    requires Inv(s) && s.th.pc == TestCancelled
    ensures Inv(AtTest(s))
  {
    hide Classify, Passes, Named, Quiet, ClosedBy, AllFailed, GoodAttempts;
    NoAttempts();
  }

  lemma SendingKeepsInv(s: State, i: nat, ok: bool)
    requires Inv(s) && s.th.pc == Sending(i)
    ensures Inv(AtSending(s, i, ok))
  {
    hide Quiet, ClosedBy, AllFailed, GoodAttempts, Untouched, Deleted, Failing, Settled;
    AttemptsAppend(s.hist.attempts, ok);
  }

  lemma AfterLoopKeepsInv(s: State)
    requires Inv(s) && s.th.pc == AfterLoop
    ensures Inv(AtAfterLoop(s))
  {
    hide Classify, Passes, Named, Quiet, ClosedBy, AllFailed, GoodAttempts;
    if s.th.failed == FAILED_RETRY_TIMES {
      QuietAppend(s.hist.log, Error);
    }
  }

  lemma AdvanceKeepsInv(s: State, found: bool)
    requires Inv(s) && s.th.pc != Top && s.th.pc != Exited
    ensures Inv(Advance(s, found))
  {
    hide Passes, Quiet, ClosedBy, AllFailed, GoodAttempts, AtDequeue;
    hide AtCheckStop, AtCallBack, AtTest, AtSending, AtAfterLoop;
    match s.th.pc
    case Dequeue => DequeueKeepsInv(s, found);
    case CheckStop(mask, found_) => CheckStopKeepsInv(s, mask, found_);
    case CallBack(e) => CallBackKeepsInv(s, e);
    case TestCancelled => TestKeepsInv(s);
    case Sending(i) => SendingKeepsInv(s, i, found && s.mem.hasUrl);
    case AfterLoop => AfterLoopKeepsInv(s);
    case _ =>
  }

  lemma StepKeepsInv(s: State, l: Label)
    requires Inv(s) && Step(s, l).Reached?
    ensures Inv(Step(s, l).s)
  {
    hide Advance, Quiet, ClosedBy, AllFailed, GoodAttempts;
    if l.Go? && s.th.pc != Top {
      AdvanceKeepsInv(s, l.found);
    }
  }

  lemma {:induction false} RunKeepsInv(s: State, ls: seq<Label>)
    requires Inv(s) && Run(s, ls).Reached?
    ensures Inv(Run(s, ls).s)
    decreases |ls|
  {
    hide Step, Inv;
    if ls != [] {
      StepKeepsInv(s, ls[0]);
      RunKeepsInv(Step(s, ls[0]).s, ls[1..]);
    }
  }

  lemma StartedInv(filter: int)
    ensures Inv(Started(filter))
  {
  }

  lemma Exclusive(log: seq<Event>)
    ensures !(Quiet(log) && (ClosedBy(log, Error) || ClosedBy(log, Delete)))
    ensures !(ClosedBy(log, Error) && ClosedBy(log, Delete))
  {
  }

  /** What the invariant says of requests and of the server. */
  lemma InvGives(s: State)
    requires Inv(s)
    ensures s.hist.tested == NotYet || s.hist.tested == FoundCancelled ==> s.hist.attempts == []
    ensures s.hist.serverStopped ==> s.hist.tested == FoundRunning || ClosedBy(s.hist.log, Error)
    ensures s.hist.tested == FoundCancelled ==> !s.hist.serverStopped
    ensures s.th.pc == Exited && s.hist.tested == FoundRunning ==> s.hist.serverStopped && GoodAttempts(s.hist.attempts)
    ensures s.th.pc == Exited ==> Quiet(s.hist.log) || ClosedBy(s.hist.log, Delete) || s.hist.serverStopped
  {
    hide GoodAttempts, ClosedBy, Quiet, AllFailed;
  }

  /** What may happen next: the URL may change while the observer lives, stopWatching may run if it is not
      running, a read may fail or return, and elsewhere the thread goes on until it has ended. */
  lemma StepsAreThere(s: State, nonEmpty: bool, found: bool, masks: seq<nat>)
    ensures s.mem.alive ==> Step(s, SetUrl(nonEmpty)).Reached?
    ensures s.mem.alive && !s.mem.stopping ==> Run(s, [SetCancelled, SetStopped]).Reached?
    ensures s.th.pc == Top && s.th.loop && s.th.failed < 10 ==>
              Step(s, ReadFails).Reached? && Step(s, ReadBatch(masks)).Reached?
    ensures !(s.th.pc == Top && s.th.loop && s.th.failed < 10) && s.th.pc != Exited ==> Step(s, Go(found)).Reached?
  {
    hide Advance;
    assert [SetCancelled, SetStopped][1..] == [SetStopped] && [SetStopped][1..] == [];
  }

  // Over every interleaving.

  /** At most one terminal event, nothing after it, and no access to the observer or the delegate once they
      are deleted; they are deleted only after the terminal event was delivered. */
  lemma TerminalEventIsLast(filter: int, ls: seq<Label>)
    requires Run(Started(filter), ls).Reached?
    ensures var s := Run(Started(filter), ls).s;
            && (forall i :: 0 <= i < |s.hist.log| && Terminal(s.hist.log[i]) ==> i == |s.hist.log| - 1)
            && !s.hist.badTouch
            && (!s.mem.alive ==> s.hist.log != [] && Terminal(s.hist.log[|s.hist.log| - 1]))
            && (s.th.pc == Exited && s.hist.log != [] && Terminal(s.hist.log[|s.hist.log| - 1]) ==> !s.mem.alive)
  {
    hide Run;
    RunKeepsInv(Started(filter), ls);
    var s := Run(Started(filter), ls).s;
    assert Quiet(s.hist.log) || ClosedBy(s.hist.log, Delete) || ClosedBy(s.hist.log, Error);
    assert forall i :: 0 <= i < |s.hist.log| - 1 ==> s.hist.log[i] == s.hist.log[..|s.hist.log| - 1][i];
  }

  /** A step that uses observer or delegate after their deletion would be noticed, and never forgotten. */
  lemma BadTouchIsSeen(s: State, found: bool)
    requires s.th.pc != Top && s.th.pc != Exited
    ensures s.hist.badTouch ==> Advance(s, found).hist.badTouch
    ensures !s.mem.alive &&
            (s.th.pc.CheckStop? || s.th.pc.CheckFilter? || s.th.pc.CallBack? || s.th.pc == TestCancelled ||
             s.th.pc.Sending? || s.th.pc.Finish? || (s.th.pc == AfterLoop && s.th.failed == 10) ||
             (s.th.pc == Dequeue && s.th.queue != [] && s.th.queue[0] == 0x10)) ==>
              Advance(s, found).hist.badTouch
  {
    hide Classify, Passes;
  }

  /** Once observer and delegate are deleted the thread is at none of the steps that use them. */
  lemma DeadIsLeftAlone(filter: int, ls: seq<Label>)
    requires Run(Started(filter), ls).Reached?
    ensures var s := Run(Started(filter), ls).s;
            !s.mem.alive ==>
              (s.th.pc == AfterEvent(Delete) || (s.th.pc == Top && !s.th.loop) ||
               (s.th.pc == AfterLoop && s.th.failed < 10) || s.th.pc == Exited)
  {
    hide Run, ClosedBy, Quiet, Settled, GoodAttempts, AllFailed;
    StartedInv(filter);
    RunKeepsInv(Started(filter), ls);
  }

  /** A Delete found cancelled sends nothing and leaves the server running; found uncancelled it sends
      requests until one succeeds, ten at most, and then stops the server. An Error always stops it. */
  lemma CancelledMeansSilent(filter: int, ls: seq<Label>)
    requires Run(Started(filter), ls).Reached?
    ensures var s := Run(Started(filter), ls).s;
            && (s.hist.tested == FoundCancelled ==> s.hist.attempts == [] && !s.hist.serverStopped)
            && (s.hist.tested == FoundRunning && s.th.pc == Exited ==>
                s.hist.serverStopped && GoodAttempts(s.hist.attempts))
            && (s.hist.serverStopped ==> s.hist.tested == FoundRunning || ClosedBy(s.hist.log, Error))
            && (s.th.pc == Exited && ClosedBy(s.hist.log, Error) ==> s.hist.serverStopped)
  {
    hide Run, GoodAttempts, ClosedBy, Quiet, AllFailed, Inv;
    StartedInv(filter);
    RunKeepsInv(Started(filter), ls);
    var s := Run(Started(filter), ls).s;
    Exclusive(s.hist.log);
    InvGives(s);
  }

  /** mCancelled is set, and no test has missed it. */
  predicate Cancelled(s: State)
  {
    s.mem.cancelled && s.hist.tested != FoundRunning
  }

  lemma CancelTest(s: State)
    requires s.mem.cancelled
    ensures Cancelled(AtTest(s))
  {
  }

  /** No other step changes mCancelled or repeats the test. */
  lemma OnlyTestTests(s: State, found: bool, i: nat, e: Event, mask: nat)
    ensures var t := AtDequeue(s, found); t.mem.cancelled == s.mem.cancelled && t.hist.tested == s.hist.tested
    ensures var t := AtCheckStop(s, mask, found); t.mem.cancelled == s.mem.cancelled && t.hist.tested == s.hist.tested
    ensures var t := AtCallBack(s, e); t.mem.cancelled == s.mem.cancelled && t.hist.tested == s.hist.tested
    ensures var t := AtSending(s, i, found); t.mem.cancelled == s.mem.cancelled && t.hist.tested == s.hist.tested
    ensures var t := AtAfterLoop(s); t.mem.cancelled == s.mem.cancelled && t.hist.tested == s.hist.tested
  {
    hide Classify, Named;
  }

  lemma CancelAdvance(s: State, found: bool)
    requires Cancelled(s) && s.th.pc != Top && s.th.pc != Exited
    ensures Cancelled(Advance(s, found))
  {
    hide AtDequeue, AtCheckStop, AtCallBack, AtTest, AtSending, AtAfterLoop, Passes;
    match s.th.pc
    case Dequeue => OnlyTestTests(s, found, 0, Nothing, 0);
    case CheckStop(mask, found_) => OnlyTestTests(s, found_, 0, Nothing, mask);
    case CallBack(e) => OnlyTestTests(s, found, 0, e, 0);
    case TestCancelled => CancelTest(s);
    case Sending(i) => OnlyTestTests(s, found && s.mem.hasUrl, i, Nothing, 0);
    case AfterLoop => OnlyTestTests(s, found, 0, Nothing, 0);
    case _ =>
  }

  lemma CancelStep(s: State, l: Label)
    requires Cancelled(s) && Step(s, l).Reached?
    ensures Cancelled(Step(s, l).s)
  {
    hide Advance;
    if l.Go? && s.th.pc != Top {
      CancelAdvance(s, l.found);
    }
  }

  /** Once stopWatching has set mCancelled it stays set, so a test that comes later finds it. */
  lemma {:induction false} CancelSticks(s: State, ls: seq<Label>)
    requires Cancelled(s) && Run(s, ls).Reached?
    ensures Cancelled(Run(s, ls).s)
    decreases |ls|
  {
    hide Step, Cancelled;
    if ls != [] {
      CancelStep(s, ls[0]);
      CancelSticks(Step(s, ls[0]).s, ls[1..]);
    }
  }

  // What the labels of a run decide.

  predicate NoUrl(ls: seq<Label>)
  {
    forall i :: 0 <= i < |ls| ==> !ls[i].SetUrl?
  }

  /** The last URL set in the run was empty or not. */
  predicate LastUrl(ls: seq<Label>, nonEmpty: bool)
  {
    exists i :: 0 <= i < |ls| && ls[i] == SetUrl(nonEmpty) && NoUrl(ls[i + 1..])
  }

  lemma UrlSplits(ls: seq<Label>, nonEmpty: bool)
    requires ls != []
    ensures NoUrl(ls) <==> !ls[0].SetUrl? && NoUrl(ls[1..])
    ensures LastUrl(ls, nonEmpty) <==> LastUrl(ls[1..], nonEmpty) || (ls[0] == SetUrl(nonEmpty) && NoUrl(ls[1..]))
  {
    var rest := ls[1..];
    if LastUrl(ls, nonEmpty) {
      var i :| 0 <= i < |ls| && ls[i] == SetUrl(nonEmpty) && NoUrl(ls[i + 1..]);
      assert i > 0 ==> rest[i - 1] == ls[i] && rest[i..] == ls[i + 1..];
    }
    if LastUrl(rest, nonEmpty) {
      var i :| 0 <= i < |rest| && rest[i] == SetUrl(nonEmpty) && NoUrl(rest[i + 1..]);
      assert ls[i + 1] == rest[i] && ls[i + 2..] == rest[i + 1..];
    }
  }

  /** The masks of all batches read, in order. */
  function MasksRead(ls: seq<Label>): seq<nat>
    decreases |ls|
  {
    if ls == [] then [] else (if ls[0].ReadBatch? then ls[0].masks else []) + MasksRead(ls[1..])
  }

  /** The thread's own steps change of the observer only whether it exists, and count and record no reads. */
  lemma AdvanceKeepsMemory(s: State, found: bool)
    requires s.th.pc != Top && s.th.pc != Exited
    ensures var t := Advance(s, found);
            t.mem == s.mem.(alive := t.mem.alive) && t.th.failed == s.th.failed && t.hist.masks == s.hist.masks
  {
    hide AtDequeue, AtCheckStop, AtCallBack, AtTest, AtSending, AtAfterLoop, Passes;
    match s.th.pc
    case Dequeue => PartsKeepMemory(s, found, 0, Nothing, 0);
    case CheckStop(mask, found_) => PartsKeepMemory(s, found_, 0, Nothing, mask);
    case CallBack(e) => PartsKeepMemory(s, found, 0, e, 0);
    case TestCancelled => PartsKeepMemory(s, found, 0, Nothing, 0);
    case Sending(i) => PartsKeepMemory(s, found && s.mem.hasUrl, i, Nothing, 0);
    case AfterLoop => PartsKeepMemory(s, found, 0, Nothing, 0);
    case _ =>
  }

  predicate SameMemory(s: State, t: State)
  {
    t.mem == s.mem && t.th.failed == s.th.failed && t.hist.masks == s.hist.masks
  }

  lemma PartsKeepMemory(s: State, found: bool, i: nat, e: Event, mask: nat)
    ensures SameMemory(s, AtDequeue(s, found)) && SameMemory(s, AtCheckStop(s, mask, found))
    ensures SameMemory(s, AtCallBack(s, e)) && SameMemory(s, AtTest(s))
    ensures SameMemory(s, AtSending(s, i, found)) && SameMemory(s, AtAfterLoop(s))
  {
    hide Classify, Named;
  }

  lemma StepMemory(s: State, l: Label)
    requires Step(s, l).Reached?
    ensures var t := Step(s, l).s;
            && (t.mem.cancelled <==> s.mem.cancelled || l == SetCancelled)
            && (t.mem.stopped <==> s.mem.stopped || l == SetStopped)
            && (t.mem.hasUrl <==> if l.SetUrl? then l.nonEmpty else s.mem.hasUrl)
            && t.th.failed == s.th.failed + (if l == ReadFails then 1 else 0)
            && t.hist.masks == s.hist.masks + (if l.ReadBatch? then l.masks else [])
            && t.mem.filter == s.mem.filter
  {
    hide Advance;
    assert s.hist.masks + [] == s.hist.masks;
    if l.Go? && s.th.pc != Top {
      AdvanceKeepsMemory(s, l.found);
    }
  }

  /** The flags are set when stopWatching has set them in the run, and never otherwise; the URL is the last
      one set; and failures and masks read are those of the reads that returned. */
  lemma {:induction false} LabelsDecide(s: State, ls: seq<Label>)
    requires Run(s, ls).Reached?
    ensures var t := Run(s, ls).s;
            && (t.mem.cancelled <==> s.mem.cancelled || SetCancelled in ls)
            && (t.mem.stopped <==> s.mem.stopped || SetStopped in ls)
            && (t.mem.hasUrl <==> LastUrl(ls, true) || (NoUrl(ls) && s.mem.hasUrl))
            && t.th.failed == s.th.failed + multiset(ls)[ReadFails]
            && t.hist.masks == s.hist.masks + MasksRead(ls)
            && t.mem.filter == s.mem.filter
    decreases |ls|
  {
    hide Step, NoUrl, LastUrl;
    if ls == [] {
      NothingSet();
      assert s.hist.masks + [] == s.hist.masks;
    } else {
      var l, rest := ls[0], ls[1..];
      assert ls == [l] + rest;
      StepMemory(s, l);
      LabelsDecide(Step(s, l).s, rest);
      UrlSplits(ls, true);
      UrlLast(rest);
      assert s.hist.masks + (if l.ReadBatch? then l.masks else []) + MasksRead(rest) ==
             s.hist.masks + ((if l.ReadBatch? then l.masks else []) + MasksRead(rest));
    }
  }

  lemma NothingSet()
    ensures NoUrl([]) && !LastUrl([], true)
  {
  }

  lemma UrlLast(ls: seq<Label>)
    ensures LastUrl(ls, true) ==> !NoUrl(ls)
  {
  }

  /** From the start: mCancelled, the stop, the URL and the reads are exactly what the run did to them. */
  lemma RunIsItsLabels(filter: int, ls: seq<Label>)
    requires Run(Started(filter), ls).Reached?
    ensures var s := Run(Started(filter), ls).s;
            && (s.mem.cancelled <==> SetCancelled in ls) && (s.mem.stopped <==> SetStopped in ls)
            && (s.mem.hasUrl <==> LastUrl(ls, true))
            && s.th.failed == multiset(ls)[ReadFails] && s.hist.masks == MasksRead(ls)
  {
    hide Run, NoUrl, LastUrl, MasksRead;
    LabelsDecide(Started(filter), ls);
    assert [] + MasksRead(ls) == MasksRead(ls);
  }

  // What the thread finds outside is what the labels say.

  /** Every look at the file system so far had this answer. */
  predicate Looked(s: State, found: bool)
  {
    && (forall i :: 0 <= i < |s.hist.checked| ==> s.hist.checked[i].look.exists_ == found)
    && (s.th.pc.CheckStop? ==> s.th.pc.found == found)
  }

  lemma LookedStep(s: State, l: Label, found: bool)
    requires Looked(s, found) && Step(s, l).Reached? && (l.Go? ==> l.found == found)
    ensures Looked(Step(s, l).s, found)
  {
    hide Classify, Named, Passes;
  }

  /** If the file was there at every look of the run, every record was checked with the file there; and if it
      was gone at every look, with the file gone. */
  lemma {:induction false} LooksAreTheRuns(s: State, ls: seq<Label>, found: bool)
    requires Looked(s, found) && Run(s, ls).Reached? && Go(!found) !in ls
    ensures Looked(Run(s, ls).s, found)
    decreases |ls|
  {
    hide Step, Looked;
    if ls != [] {
      assert ls[0] in ls && forall l :: l in ls[1..] ==> l in ls;
      LookedStep(s, ls[0], found);
      LooksAreTheRuns(Step(s, ls[0]).s, ls[1..], found);
    }
  }

  /** No request has succeeded, and none can. */
  predicate Fruitless(s: State, ls: seq<Label>)
  {
    AllFailed(s.hist.attempts) && (Go(true) !in ls || (SetUrl(true) !in ls && !s.mem.hasUrl))
  }

  lemma FruitlessStep(s: State, l: Label, rest: seq<Label>)
    requires Fruitless(s, [l] + rest) && Step(s, l).Reached?
    ensures Fruitless(Step(s, l).s, rest)
  {
    hide Advance;
    assert l in [l] + rest && forall k :: k in rest ==> k in [l] + rest;
    if l.Go? && s.th.pc != Top {
      AdvanceKeepsMemory(s, l.found);
      AttemptsAdvance(s, l.found);
    }
  }

  /** What a step adds to the requests: nothing, or one that succeeds if the server answers and there is a URL. */
  lemma AttemptsAdvance(s: State, found: bool)
    requires s.th.pc != Top && s.th.pc != Exited
    ensures var t := Advance(s, found);
            t.hist.attempts == s.hist.attempts + if s.th.pc.Sending? then [found && s.mem.hasUrl] else []
  {
    hide Classify, Named, Passes;
    assert s.hist.attempts + [] == s.hist.attempts;
  }

  lemma {:induction false} FruitlessRun(s: State, ls: seq<Label>)
    requires Fruitless(s, ls) && Run(s, ls).Reached?
    ensures AllFailed(Run(s, ls).s.hist.attempts)
    decreases |ls|
  {
    hide Step, Fruitless;
    if ls == [] {
      FruitlessNow(s);
    } else {
      assert [ls[0]] + ls[1..] == ls;
      FruitlessStep(s, ls[0], ls[1..]);
      FruitlessRun(Step(s, ls[0]).s, ls[1..]);
    }
  }

  lemma FruitlessNow(s: State)
    requires Fruitless(s, [])
    ensures AllFailed(s.hist.attempts)
  {
  }

  /** There is a URL, and requests that were sent have succeeded. */
  predicate Fruitful(s: State)
  {
    s.mem.hasUrl && (s.hist.attempts == [] || s.hist.attempts == [true])
  }

  lemma FruitfulStep(s: State, l: Label)
    requires Inv(s) && Fruitful(s) && l != SetUrl(false) && l != Go(false) && Step(s, l).Reached?
    ensures Fruitful(Step(s, l).s)
  {
    hide Advance, Inv;
    if l.Go? && s.th.pc != Top {
      AdvanceKeepsMemory(s, l.found);
      AttemptsAdvance(s, l.found);
      assert s.hist.attempts + [] == s.hist.attempts;
      if s.th.pc.Sending? {
        NoneSentYet(s);
        assert [] + [true] == [true];
      }
    }
  }

  lemma NoneSentYet(s: State)
    requires Inv(s) && Fruitful(s) && s.th.pc.Sending?
    ensures s.hist.attempts == []
  {
    assert AllFailed(s.hist.attempts);
    assert !AllFailed([true]) by {
      assert [true][0];
    }
  }

  lemma {:induction false} FruitfulRun(s: State, ls: seq<Label>)
    requires Inv(s) && Fruitful(s) && SetUrl(false) !in ls && Go(false) !in ls && Run(s, ls).Reached?
    ensures Fruitful(Run(s, ls).s)
    decreases |ls|
  {
    hide Step, Fruitful, Inv;
    if ls != [] {
      assert ls[0] in ls && forall l :: l in ls[1..] ==> l in ls;
      StepKeepsInv(s, ls[0]);
      FruitfulStep(s, ls[0]);
      FruitfulRun(Step(s, ls[0]).s, ls[1..]);
    }
  }

  /** A request succeeds only if some URL was set that is not empty and some request was answered; and with a
      URL from the start and every request answered, the first one succeeds and is the only one. */
  lemma RequestsNeedUrl(filter: int, ls: seq<Label>)
    requires Run(Started(filter), ls).Reached?
    ensures var a := Run(Started(filter), ls).s.hist.attempts;
            && (SetUrl(true) !in ls || Go(true) !in ls ==> AllFailed(a))
            && (ls != [] && ls[0] == SetUrl(true) && SetUrl(false) !in ls && Go(false) !in ls ==>
                  a == [] || a == [true])
  {
    hide Run, AllFailed, Inv;
    var s := Started(filter);
    StartedInv(filter);
    NoAttempts();
    if SetUrl(true) !in ls || Go(true) !in ls {
      FruitlessRun(s, ls);
    }
    if ls != [] && ls[0] == SetUrl(true) && SetUrl(false) !in ls && Go(false) !in ls {
      assert forall l :: l in ls[1..] ==> l in ls;
      var t := Step(s, ls[0]).s;
      RunFirst(s, ls);
      StepKeepsInv(s, ls[0]);
      FruitfulRun(t, ls[1..]);
    }
  }

  lemma RunFirst(s: State, ls: seq<Label>)
    requires ls != [] && Run(s, ls).Reached?
    ensures Step(s, ls[0]).Reached? && Run(s, ls) == Run(Step(s, ls[0]).s, ls[1..])
  {
    hide Step;
  }

  /** So a Delete that meets an observer cancelled before the test sends no request and stops no server,
      however the threads interleave from there. */
  lemma CancelBeforeTest(filter: int, before: seq<Label>, after: seq<Label>)
    requires Run(Started(filter), before).Reached? && SetCancelled in before
    requires Run(Started(filter), before).s.hist.tested == NotYet
    requires Run(Run(Started(filter), before).s, after).Reached?
    ensures var t := Run(Run(Started(filter), before).s, after).s;
            t.hist.attempts == [] && (t.hist.serverStopped ==> ClosedBy(t.hist.log, Error))
  {
    hide Run, GoodAttempts, ClosedBy, Quiet, AllFailed, Inv;
    var s := Run(Started(filter), before).s;
    StartedInv(filter);
    LabelsDecide(Started(filter), before);
    RunKeepsInv(Started(filter), before);
    RunKeepsInv(s, after);
    CancelSticks(s, after);
    InvGives(Run(s, after).s);
  }

  // After the stop.

  /** The event on its way from the stop check to the delegate. */
  function Owed(s: State): seq<Event>
  {
    match s.th.pc
    case CheckFilter(e) => if Passes(s.mem.filter, e) then [e] else []
    case CallBack(e) => [e]
    case _ => []
  }

  /** The thread has reported that reading failed too often. */
  predicate PastError(s: State)
  {
    match s.th.pc
    case StopServer(e) => e == Error
    case Finish(e) => e == Error
    case Exited => s.th.failed == FAILED_RETRY_TIMES
    case _ => false
  }

  /** A stopped observer has got, or is owed, what it was owed before, and perhaps an Error. */
  predicate Silenced(s: State, log: seq<Event>, reported: bool)
  {
    s.mem.stopped && s.hist.log + Owed(s) == log + if PastError(s) && !reported then [Error] else []
  }

  lemma SilencedDequeue(s: State, found: bool, log: seq<Event>)
    requires Silenced(s, log, false) && s.th.pc == Dequeue
    ensures Silenced(AtDequeue(s, found), log, false)
  {
    hide Classify, Named;
  }

  lemma SilencedCheckStop(s: State, mask: nat, found: bool, log: seq<Event>)
    requires Silenced(s, log, false) && s.th.pc == CheckStop(mask, found)
    ensures Silenced(AtCheckStop(s, mask, found), log, false)
  {
    hide Classify;
  }

  lemma SilencedCallBack(s: State, e: Event, log: seq<Event>)
    requires Silenced(s, log, false) && s.th.pc == CallBack(e)
    ensures Silenced(AtCallBack(s, e), log, false)
  {
    assert s.hist.log + [e] + [] == s.hist.log + [e];
  }

  lemma SilencedAfterLoop(s: State, log: seq<Event>)
    requires Silenced(s, log, false) && s.th.pc == AfterLoop
    ensures Silenced(AtAfterLoop(s), log, false)
  {
    assert s.hist.log + [] == s.hist.log && s.hist.log + [Error] + [] == s.hist.log + [Error];
    assert log + [] == log;
  }

  /** The other steps touch neither the log nor what is owed. */
  lemma SilencedOther(s: State, found: bool, log: seq<Event>, reported: bool)
    requires Inv(s) && Silenced(s, log, reported) && s.th.pc != Top && s.th.pc != Exited
    requires s.th.pc != Dequeue && !s.th.pc.CheckStop? && !s.th.pc.CallBack? && s.th.pc != AfterLoop
    ensures Silenced(Advance(s, found), log, reported)
  {
    hide AtDequeue, AtCheckStop, AtCallBack, AtAfterLoop, Passes, Untouched, Settled, Deleting, Deleted, GoodAttempts;
    hide ClosedBy, Quiet, AllFailed;
  }

  lemma SilencedAdvance(s: State, found: bool, log: seq<Event>, reported: bool)
    requires Inv(s) && Silenced(s, log, reported) && s.th.pc != Top && s.th.pc != Exited
    requires reported ==> PastError(s)
    ensures Silenced(Advance(s, found), log, reported)
  {
    hide AtDequeue, AtCheckStop, AtCallBack, AtTest, AtSending, AtAfterLoop, Passes, Inv, Silenced;
    match s.th.pc
    case Dequeue => SilencedDequeue(s, found, log);
    case CheckStop(mask, found_) => SilencedCheckStop(s, mask, found_, log);
    case CallBack(e) => SilencedCallBack(s, e, log);
    case AfterLoop => SilencedAfterLoop(s, log);
    case _ => SilencedOther(s, found, log, reported);
  }

  lemma SilencedStep(s: State, l: Label, log: seq<Event>, reported: bool)
    requires Inv(s) && Silenced(s, log, reported) && Step(s, l).Reached? && (reported ==> PastError(s))
    ensures Silenced(Step(s, l).s, log, reported)
  {
    hide Advance, Inv;
    if l.Go? && s.th.pc != Top {
      SilencedAdvance(s, l.found, log, reported);
    }
  }

  /** A reported Error stays reported. */
  lemma ErrorStays(s: State, l: Label)
    requires Inv(s) && PastError(s) && Step(s, l).Reached?
    ensures PastError(Step(s, l).s)
  {
    hide Untouched, Settled, Deleting, Deleted, GoodAttempts, ClosedBy, Quiet, AllFailed;
    hide AtDequeue, AtCheckStop, AtCallBack, AtTest, AtSending, AtAfterLoop, Passes;
  }

  lemma {:induction false} SilencedRun(s: State, ls: seq<Label>, log: seq<Event>, reported: bool)
    requires Inv(s) && Silenced(s, log, reported) && Run(s, ls).Reached? && (reported ==> PastError(s))
    ensures Silenced(Run(s, ls).s, log, reported)
    decreases |ls|
  {
    hide Step, Inv, Silenced, PastError;
    if ls != [] {
      StepKeepsInv(s, ls[0]);
      SilencedStep(s, ls[0], log, reported);
      if reported {
        ErrorStays(s, ls[0]);
      }
      SilencedRun(Step(s, ls[0]).s, ls[1..], log, reported);
    }
  }

  lemma ErrorMeansTen(s: State)
    requires Inv(s)
    ensures PastError(s) ==> s.th.failed == 10
    ensures s.th.pc == Exited && s.th.failed == 10 ==> PastError(s)
  {
    hide Untouched, Settled, Deleting, Deleted, GoodAttempts, ClosedBy, Quiet, AllFailed;
  }

  /** Once stopWatching has stopped the observer, whenever that was, the delegate gets what had passed the
      stop check before, and nothing more except an Error; and by the time the thread has ended, the Error
      if and only if ten reads failed. */
  lemma StoppedGetsAtMostError(filter: int, before: seq<Label>, after: seq<Label>)
    requires Run(Started(filter), before).Reached? && SetStopped in before
    requires Run(Run(Started(filter), before).s, after).Reached?
    ensures var s := Run(Started(filter), before).s;
            var t := Run(s, after).s;
            && t.hist.log + Owed(t) ==
               s.hist.log + Owed(s) + (if PastError(t) && !PastError(s) then [Error] else [])
            && (PastError(t) ==> t.th.failed == 10)
            && (t.th.pc == Exited ==> (PastError(t) <==> t.th.failed == 10))
            && t.th.failed == multiset(before)[ReadFails] + multiset(after)[ReadFails]
  {
    hide Run, Owed, PastError, Inv;
    var s := Run(Started(filter), before).s;
    var t := Run(s, after).s;
    StartedInv(filter);
    RunKeepsInv(Started(filter), before);
    RunKeepsInv(s, after);
    LabelsDecide(Started(filter), before);
    LabelsDecide(s, after);
    var log := s.hist.log + Owed(s);
    assert log + [] == log;
    SilencedRun(s, after, log, PastError(s));
    ErrorMeansTen(t);
  }

  /** And the Error does come: ten failed reads after the stop. */
  lemma StoppedCanGetError(filter: int)
    ensures var ls := [SetCancelled, SetStopped] + seq(10, _ => ReadFails) + [Go(true), Go(true)];
            Run(Started(filter), ls).Reached? && Run(Started(filter), ls).s.hist.log == [Error]
  {
    var s := Started(filter).(mem := Memory(filter, true, true, false, true, false));
    var fails, last := seq(10, _ => ReadFails), [Go(true), Go(true)];
    var ls := [SetCancelled, SetStopped] + fails + last;
    assert ls[1..][1..] == fails + last;
    assert Run(Started(filter), ls) == Run(s, fails + last);
    FailedReads(s, 10, last);
    assert last[1..] == [Go(true)] && [Go(true)][1..] == [];
    assert [] + [Error] == [Error];
  }

  lemma {:induction false} FailedReads(s: State, n: nat, last: seq<Label>)
    requires s.th.pc == Top && s.th.loop && s.th.failed + n <= FAILED_RETRY_TIMES
    ensures Run(s, seq(n, _ => ReadFails) + last) == Run(s.(th := s.th.(failed := s.th.failed + n)), last)
    decreases n
  {
    var ls := seq(n, _ => ReadFails) + last;
    if n == 0 {
      assert ls == last;
    } else {
      assert ls[1..] == seq(n - 1, _ => ReadFails) + last;
      FailedReads(s.(th := s.th.(failed := s.th.failed + 1)), n - 1, last);
    }
  }
}
