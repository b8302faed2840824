/** What has happened to a thread of a binder process, told from the steps of a run alone: whether a signal or a flush
    is still to be answered, and what work is still owed. The flags and counters of the driver are exactly these, so
    what is asked of a thread is never lost. */
module ParkedHistory {
  import opened Common
  import opened ParkedReads

  // ---- how one step changes what is outstanding ----

  function One(b: bool): nat {
    if b then 1 else 0
  }

  /** The thread's read is over at this step, and did not park. */
  ghost predicate ReadReturned(s: State, u: State, t: Tid) {
    t in s.inside && t !in u.inside && !Parked(u, t)
  }

  /** A signal reaches a thread that exists, and is answered by a blocking read that finds nothing and returns. */
  ghost predicate SignalAfter(s: State, step: Step, u: State, t: Tid, was: bool) {
    match step
    case Signal(x) => was || (x == t && t in s.threads)
    case LookForWork(x) => was && !(x == t && !s.nonblocking && ReadReturned(s, u, t))
    case ThreadExit(x) => was && x != t
    case Close(_) => false
    case _ => was
  }

  /** A flush asks every thread to return, and a new thread's first call returns too; the end of a call answers. */
  ghost predicate FlushAfter(s: State, step: Step, u: State, t: Tid, was: bool) {
    match step
    case FlushAll(tids) => was || (t in tids && t in s.threads)
    case BeginRead(x) => was || (x == t && s.open && t !in s.threads)
    case LookForWork(x) => was && !(x == t && t !in u.inside)
    case BadRead(x) => was && x != t
    case OtherCall(x) => was && x != t
    case Return(x) => was && x != t
    case ThreadExit(x) => was && x != t
    case Close(_) => false
    case _ => was
  }

  /** A transaction goes to the thread of choice or to the one that waits longest. */
  ghost predicate Receives(s: State, to: Option<Tid>, t: Tid) {
    s.open && t in s.threads && (if to.Some? then to.value == t else s.waiting != [] && s.waiting[0] == t)
  }

  /** The pieces of work queued for the thread and not yet taken. */
  ghost function OwedAfter(s: State, step: Step, t: Tid, was: nat): nat {
    match step
    case ThreadWork(x) => was + One(x == t && t in s.threads)
    case DeferredWork(x) => was + One(x == t && t in s.threads)
    case Transaction(to) => was + One(Receives(s, to, t))
    case TakeWork(x) => if x == t && was > 0 then was - 1 else was
    case ThreadExit(x) => if x == t then 0 else was
    case Close(_) => 0
    case _ => was
  }

  /** Some of them are not deferred: the thread is to read them without waiting. */
  ghost predicate PromptAfter(s: State, step: Step, t: Tid, was: bool, owed: nat) {
    match step
    case ThreadWork(x) => was || (x == t && t in s.threads)
    case Transaction(to) => was || Receives(s, to, t)
    case TakeWork(x) => was && !(x == t && owed <= 1)
    case ThreadExit(x) => was && x != t
    case Close(_) => false
    case _ => was
  }

  /** The thread is in a transaction. */
  ghost predicate BusyAfter(s: State, step: Step, t: Tid, was: bool) {
    match step
    case StackChange(x, busy) => if x == t && t in s.threads then busy else was
    case ThreadExit(x) => was && x != t
    case Close(_) => false
    case _ => was
  }

  /** The thread's read is for process work too: it began, or began again, outside any transaction and without work of
      its own. */
  ghost predicate WaitsAfter(step: Step, t: Tid, was: bool, busy: bool, owed: nat) {
    match step
    case BeginRead(x) => if x == t then !busy && owed == 0 else was
    case TryAgain(x) => if x == t then !busy && owed == 0 else was
    case _ => was
  }

  /** The pieces of work queued for the process and not yet taken. */
  ghost function ProcAfter(s: State, step: Step, was: nat, owed: nat): nat {
    match step
    case ProcWork => was + One(s.open)
    case Transaction(to) => was + One(s.open && to.None? && s.waiting == [])
    case TakeWork(t) =>
      if was > 0 && owed == 0 && t in s.threads && t in s.inside && s.inside[t].wait then was - 1 else was
    case Close(_) => 0
    case _ => was
  }

  // ---- what is outstanding after a run ----

  ghost predicate Signalled(steps: seq<Step>, t: Tid)
    requires Exec(steps).Some?
  {
    steps != [] &&
    var front := steps[..|steps| - 1];
    SignalAfter(Exec(front).value, steps[|steps| - 1], Exec(steps).value, t, Signalled(front, t))
  }

  ghost predicate Flushed(steps: seq<Step>, t: Tid)
    requires Exec(steps).Some?
  {
    steps != [] &&
    var front := steps[..|steps| - 1];
    FlushAfter(Exec(front).value, steps[|steps| - 1], Exec(steps).value, t, Flushed(front, t))
  }

  ghost function Owed(steps: seq<Step>, t: Tid): nat
    requires Exec(steps).Some?
  {
    if steps == [] then 0
    else
      var front := steps[..|steps| - 1];
      OwedAfter(Exec(front).value, steps[|steps| - 1], t, Owed(front, t))
  }

  ghost predicate Prompted(steps: seq<Step>, t: Tid)
    requires Exec(steps).Some?
  {
    steps != [] &&
    var front := steps[..|steps| - 1];
    PromptAfter(Exec(front).value, steps[|steps| - 1], t, Prompted(front, t), Owed(front, t))
  }

  ghost predicate Busy(steps: seq<Step>, t: Tid)
    requires Exec(steps).Some?
  {
    steps != [] &&
    var front := steps[..|steps| - 1];
    BusyAfter(Exec(front).value, steps[|steps| - 1], t, Busy(front, t))
  }

  ghost predicate Waits(steps: seq<Step>, t: Tid)
    requires Exec(steps).Some?
  {
    steps != [] &&
    var front := steps[..|steps| - 1];
    WaitsAfter(steps[|steps| - 1], t, Waits(front, t), Busy(front, t), Owed(front, t))
  }

  ghost function ProcOwed(steps: seq<Step>): nat
    requires Exec(steps).Some?
  {
    if steps == [] then 0
    else
      var front := steps[..|steps| - 1];
      var step := steps[|steps| - 1];
      ProcAfter(Exec(front).value, step, ProcOwed(front), if step.TakeWork? then Owed(front, step.tid) else 0)
  }

  // ---- the driver keeps exactly that ----

  function NoThread(): Thread {
    Thread(0, false, false, false, false, None)
  }

  /** A thread's own flags and counters; one that does not exist has none. */
  function Flags(s: State, t: Tid): Thread {
    if t in s.threads then s.threads[t].(parked := None) else NoThread()
  }

  /** Only resumes have moved. */
  ghost predicate SameFlags(s: State, u: State) {
    && u.threads.Keys == s.threads.Keys && u.todo == s.todo && u.open == s.open && u.nonblocking == s.nonblocking
    && u.inside == s.inside && forall t {:trigger Flags(u, t)} :: Flags(u, t) == Flags(s, t)
  }

  lemma WakeSame(s: State, t: Tid)
    ensures SameFlags(s, WakeWaiter(s, t)) && NoMoreParked(s, WakeWaiter(s, t))
  {
  }

  ghost predicate NoMoreParked(s: State, u: State) {
    forall t {:trigger Parked(u, t)} :: Parked(u, t) ==> Parked(s, t)
  }

  lemma WakeupSame(s: State)
    ensures SameFlags(s, WakeupProc(s)) && NoMoreParked(s, WakeupProc(s))
  {
    hide WakeWaiter;
    if s.waiting != [] {
      WakeSame(s.(waiting := s.waiting[1..]), s.waiting[0]);
    }
  }

  /** One thread's flags are set. */
  ghost predicate OneChanged(s: State, u: State, t: Tid, th: Thread) {
    && u.threads.Keys == s.threads.Keys && u.todo == s.todo && u.open == s.open && u.inside == s.inside
    && forall x {:trigger Flags(u, x)} :: Flags(u, x) == if x == t then th.(parked := None) else Flags(s, x)
  }

  lemma SetChanged(s: State, t: Tid, th: Thread)
    requires t in s.threads
    ensures OneChanged(s, SetThread(s, t, th), t, th)
  {
  }

  lemma SetThenWoken(s: State, t: Tid, th: Thread)
    requires t in s.threads
    ensures OneChanged(s, WakeWaiter(SetThread(s, t, th), t), t, th)
  {
    hide WakeWaiter;
    WakeSame(SetThread(s, t, th), t);
  }

  lemma QueueThreadWorkFlags(s: State, t: Tid)
    requires t in s.threads
    ensures OneChanged(s, QueueThreadWork(s, t), t,
                       s.threads[t].(queued := s.threads[t].queued + 1, processTodo := true))
  {
    hide WakeWaiter;
    SetThenWoken(s, t, s.threads[t].(queued := s.threads[t].queued + 1, processTodo := true));
  }

  lemma {:induction false} FlushFlags(s: State, tids: seq<Tid>, t: Tid)
    ensures var u := Flush(s, tids);
            && u.threads.Keys == s.threads.Keys && u.todo == s.todo && u.inside == s.inside
            && Flags(u, t) == if t in s.threads && t in tids then Flags(s, t).(needReturn := true) else Flags(s, t)
  {
    if tids != [] {
      hide WakeWaiter;
      var last := |tids| - 1;
      var u, x := Flush(s, tids[..last]), tids[last];
      FlushFlags(s, tids[..last], t);
      assert tids == tids[..last] + [x];
      if x in u.threads {
        SetThenWoken(u, x, u.threads[x].(needReturn := true));
      }
    }
  }

  lemma TailFlags(s: State, x: Tid)
    ensures var u := Tail(s, x);
            && NoMoreParked(s, u)
            && u.threads.Keys == s.threads.Keys && u.todo == s.todo && u.inside == s.inside
            && forall t {:trigger Flags(u, t)} ::
                 Flags(u, t) == if t == x && t in s.threads then Flags(s, t).(needReturn := false) else Flags(s, t)
  {
    hide WakeupProc;
    var w := if s.open && s.todo > 0 then WakeupProc(s) else s;
    if s.open && s.todo > 0 {
      WakeupSame(s);
    }
    assert forall t {:trigger Flags(w, t)} :: Flags(w, t) == Flags(s, t);
    if x in w.threads {
      SetChanged(w, x, w.threads[x].(needReturn := false));
      assert Flags(w, x) == Flags(s, x);
      var u := SetThread(w, x, w.threads[x].(needReturn := false));
      assert forall t {:trigger Parked(u, t)} :: Parked(u, t) == Parked(w, t);
    }
  }

  lemma FinishFlags(s: State, x: Tid)
    requires Calls(s, x) > 0
    ensures var u := Finish(s, x);
            && NoMoreParked(s, u)
            && u.threads.Keys == s.threads.Keys && u.todo == s.todo && u.inside == s.inside - {x}
            && forall t {:trigger Flags(u, t)} ::
                 Flags(u, t) == if t == x && t in s.threads then Flags(s, t).(needReturn := false) else Flags(s, t)
  {
    hide Tail;
    var v := s.(inside := s.inside - {x}, returned := s.returned + {Latest(s, x)});
    TailFlags(v, x);
    assert forall t {:trigger Flags(v, t)} :: Flags(v, t) == Flags(s, t);
    assert NoMoreParked(s, v);
  }

  lemma ParkFlags(s: State, x: Tid)
    requires x in s.threads && x in s.inside && Calls(s, x) > 0
    ensures var u := Park(s, x);
            && u.threads.Keys == s.threads.Keys && u.todo == s.todo && u.inside == s.inside - {x}
            && forall t {:trigger Flags(u, t)} ::
                 Flags(u, t) == if t == x then Flags(s, t).(needReturn := false) else Flags(s, t)
  {
    hide Tail;
    var v := SetThread(s.(waiting := if s.inside[x].wait then s.waiting + [x] else s.waiting, inside := s.inside - {x}),
                       x, s.threads[x].(parked := Some(Latest(s, x))));
    TailFlags(v, x);
    assert forall t {:trigger Flags(v, t)} :: Flags(v, t) == Flags(s, t);
    ParkIs(s, x, v);
  }

  /** A read that parks stays parked: the wake-up it passes on is another's. */
  lemma ParkParks(s: State, t: Tid)
    requires Inv(s) && t in s.threads && t in s.inside && Calls(s, t) > 0 && !HasWork(s, t, s.inside[t].wait)
    ensures Parked(Park(s, t), t)
  {
    var v := SetThread(s.(waiting := if s.inside[t].wait then s.waiting + [t] else s.waiting, inside := s.inside - {t}),
                       t, s.threads[t].(parked := Some(Latest(s, t))));
    assert !Parked(s, t) && t !in s.waiting;
    if v.waiting != [] && s.todo > 0 {
      assert v.waiting == s.waiting && s.waiting[0] in s.waiting;
    }
  }

  /** The step's effect on one thread's flags, and on the process's work. */
  ghost predicate Follows(s: State, step: Step, u: State, t: Tid) {
    && Flags(u, t).interrupted == SignalAfter(s, step, u, t, Flags(s, t).interrupted)
    && Flags(u, t).needReturn == FlushAfter(s, step, u, t, Flags(s, t).needReturn)
    && Flags(u, t).queued == OwedAfter(s, step, t, Flags(s, t).queued)
    && Flags(u, t).busy == BusyAfter(s, step, t, Flags(s, t).busy)
    && Flags(u, t).processTodo == PromptAfter(s, step, t, Flags(s, t).processTodo, Flags(s, t).queued)
    && u.todo == ProcAfter(s, step, s.todo, if step.TakeWork? then Flags(s, step.tid).queued else 0)
  }

  /** A thread with work to read at once has work. */
  ghost predicate PromptIsWork(s: State) {
    forall t {:trigger Flags(s, t)} :: Flags(s, t).processTodo ==> Flags(s, t).queued > 0
  }

  lemma ThreadWorkFollows(s: State, x: Tid, t: Tid)
    ensures Follows(s, ThreadWork(x), QueueThreadWork(s, x), t)
  {
    if x in s.threads {
      QueueThreadWorkFlags(s, x);
      hide QueueThreadWork;
    }
  }

  lemma DeferredFollows(s: State, x: Tid, t: Tid)
    ensures Follows(s, DeferredWork(x), DeferThreadWork(s, x), t)
  {
  }

  lemma ProcWorkFollows(s: State, t: Tid)
    ensures Follows(s, ProcWork, QueueProcWork(s), t)
  {
    hide WakeupProc;
    var v := s.(todo := s.todo + 1);
    WakeupSame(v);
    assert Flags(v, t) == Flags(s, t);
  }

  lemma TransactionFollows(s: State, to: Option<Tid>, t: Tid)
    requires WaitingParked(s)
    ensures Follows(s, Transaction(to), Transact(s, to), t)
  {
    hide QueueThreadWork, WaitingParked;
    if s.open {
      if to.Some? {
        TransactionToThread(s, to, to.value, s, t);
      } else if s.waiting != [] {
        HeadIsThread(s);
        TransactionToThread(s, to, s.waiting[0], s.(waiting := s.waiting[1..]), t);
      }
    }
  }

  lemma HeadIsThread(s: State)
    requires WaitingParked(s) && s.waiting != []
    ensures s.waiting[0] in s.threads
  {
    assert s.waiting[0] in s.waiting && Parked(s, s.waiting[0]);
  }

  lemma TransactionToThread(s: State, to: Option<Tid>, x: Tid, v: State, t: Tid)
    requires s.open && v == s.(waiting := v.waiting)
    requires if to.Some? then to.value == x else s.waiting != [] && s.waiting[0] == x
    ensures Follows(s, Transaction(to), QueueThreadWork(v, x), t)
  {
    hide QueueThreadWork, OneChanged;
    assert Flags(v, t) == Flags(s, t);
    if x in s.threads {
      QueueThreadWorkFlags(v, x);
      ChangedAt(v, QueueThreadWork(v, x), x,
                v.threads[x].(queued := v.threads[x].queued + 1, processTodo := true), t);
    } else {
      Nobody(v, x);
    }
  }

  lemma ChangedAt(s: State, u: State, x: Tid, th: Thread, t: Tid)
    requires OneChanged(s, u, x, th)
    ensures u.todo == s.todo && Flags(u, t) == if t == x then th.(parked := None) else Flags(s, t)
  {
  }

  lemma Nobody(s: State, t: Tid)
    requires t !in s.threads
    ensures QueueThreadWork(s, t) == s
  {
  }

  lemma FlushFollows(s: State, tids: seq<Tid>, t: Tid)
    ensures Follows(s, FlushAll(tids), Flush(s, tids), t)
  {
    hide Flush;
    FlushFlags(s, tids, t);
  }

  lemma SignalFollows(s: State, x: Tid, t: Tid)
    ensures Follows(s, Signal(x), Interrupt(s, x), t)
  {
    hide WakeWaiter;
    if x in s.threads {
      SetThenWoken(s, x, s.threads[x].(interrupted := true));
    }
  }

  lemma ExitFollows(s: State, x: Tid, t: Tid)
    ensures Follows(s, ThreadExit(x), ThreadRelease(s, x), t)
  {
    hide Without;
  }

  lemma CloseFollows(s: State, tids: seq<Tid>, t: Tid)
    requires Inv(s) && forall x :: x in s.threads ==> x in tids
    ensures Follows(s, Close(tids), Release(s, tids), t)
  {
    hide Inv, Woken, ThreadsReleased;
    var w := Woken(s, tids);
    WokenInv(s, tids);
    ThreadsReleasedInv(w, tids);
    forall x | x in w.threads.Keys ensures x in tids {
      assert x in s.threads;
    }
    assert t !in ThreadsReleased(w, tids).threads.Keys;
  }

  lemma CalledFollows(s: State, x: Tid, t: Tid)
    ensures Follows(s, OtherCall(x), Called(s, x), t)
  {
  }

  lemma BeginFollows(s: State, x: Tid, t: Tid)
    requires WaitingParked(s)
    ensures Follows(s, BeginRead(x), Begin(s, x), t)
  {
    assert t in s.threads ==> s.open;
  }

  lemma BadFollows(s: State, x: Tid, t: Tid)
    requires WaitingParked(s)
    ensures Follows(s, BadRead(x), Faulted(s, x), t)
  {
    BeginFlags(s, x, t);
    hide Finish, Begin, WaitingParked;
    if s.open {
      FinishFlags(Begin(s, x), x);
    }
  }

  lemma BeginFlags(s: State, x: Tid, t: Tid)
    requires WaitingParked(s)
    ensures var u := Begin(s, x);
            && Calls(u, x) > 0 && u.todo == s.todo && (s.open ==> x in u.threads) && (!s.open ==> t !in s.threads)
            && Flags(u, t) ==
                 if x == t && s.open && t !in s.threads then NoThread().(needReturn := true) else Flags(s, t)
  {
    assert t in s.threads ==> s.open;
    hide WaitingParked;
  }

  lemma ReturnFollows(s: State, x: Tid, t: Tid)
    requires Calls(s, x) > 0
    ensures Follows(s, Return(x), Finish(s, x), t)
  {
    hide Finish;
    FinishFlags(s, x);
  }

  lemma TakeFlags(s: State, x: Tid, t: Tid)
    requires x in s.inside
    ensures var u, th := ReadOne(s, x), Flags(s, x);
            var fromProc := th.queued == 0 && s.todo > 0 && s.inside[x].wait && x in s.threads;
            && u.todo == (if fromProc then s.todo - 1 else s.todo)
            && (t != x ==> Flags(u, t) == Flags(s, t))
            && Flags(u, x) ==
                 if th.queued > 0
                 then th.(queued := th.queued - 1, processTodo := th.processTodo && th.queued > 1)
                 else if fromProc then th.(processTodo := false)
                 else th
  {
    hide SetThread;
    if x in s.threads {
      var th, v := s.threads[x], s.(todo := if s.todo > 0 then s.todo - 1 else 0);
      SetChanged(s, x, th.(queued := if th.queued > 0 then th.queued - 1 else 0,
                           processTodo := th.processTodo && th.queued > 1));
      SetChanged(v, x, th.(processTodo := false));
      assert Flags(v, t) == Flags(s, t);
    }
  }

  lemma TakeFollows(s: State, x: Tid, t: Tid)
    requires PromptIsWork(s) && x in s.inside
    ensures Follows(s, TakeWork(x), ReadOne(s, x), t)
  {
    hide ReadOne;
    assert Flags(s, t).processTodo ==> Flags(s, t).queued > 0;
    hide PromptIsWork;
    TakeFlags(s, x, t);
  }

  lemma LookFollows(s: State, x: Tid, t: Tid)
    requires Inv(s) && x in s.inside && Calls(s, x) > 0
    ensures Follows(s, LookForWork(x), Look(s, x), t)
  {
    assert !Parked(s, x);
    hide Inv, Finish, Park, Follows, SetThread;
    if x !in s.threads {
      LookEnds(s, x, t);
    } else if HasWork(s, x, s.inside[x].wait) {
      LookStays(s, x, Look(s, x), t);
    } else if s.nonblocking {
      LookEnds(s, x, t);
    } else if s.threads[x].interrupted {
      LookAnswers(s, x, t);
    } else if s.pending > 0 {
      LookStays(s, x, Look(s, x), t);
    } else {
      LookParks(s, x, t);
    }
  }

  lemma LookStays(s: State, x: Tid, u: State, t: Tid)
    requires u == s.(inside := u.inside, pending := u.pending) && x in u.inside
    ensures Follows(s, LookForWork(x), u, t)
  {
  }

  lemma LookEnds(s: State, x: Tid, t: Tid)
    requires x in s.inside && Calls(s, x) > 0 && (x !in s.threads || s.nonblocking)
    ensures Follows(s, LookForWork(x), Finish(s, x), t)
  {
    hide Finish;
    FinishFlags(s, x);
  }

  lemma LookAnswers(s: State, x: Tid, t: Tid)
    requires x in s.inside && Calls(s, x) > 0 && x in s.threads && !s.nonblocking && !Parked(s, x)
    ensures Follows(s, LookForWork(x), Finish(SetThread(s, x, s.threads[x].(interrupted := false)), x), t)
  {
    hide Finish;
    var v := SetThread(s, x, s.threads[x].(interrupted := false));
    FinishFlags(v, x);
    assert !Parked(v, x);
    assert Flags(v, t) == if t == x then Flags(s, t).(interrupted := false) else Flags(s, t);
    hide SetThread, NoMoreParked;
  }

  lemma LookParks(s: State, x: Tid, t: Tid)
    requires x in s.inside && Calls(s, x) > 0 && x in s.threads && !s.threads[x].interrupted
    ensures Follows(s, LookForWork(x), Park(s, x), t)
  {
    hide Park;
    ParkFlags(s, x);
  }

  /** What is outstanding moves with every step as the flags do. */
  lemma NextFollows(s: State, step: Step, t: Tid)
    requires Inv(s) && PromptIsWork(s) && Enabled(s, step)
    ensures Follows(s, step, Next(s, step), t)
  {
    InvGives(s);
    hide Inv, WaitingParked, PromptIsWork, Follows, QueueThreadWork, DeferThreadWork, QueueProcWork, Transact, Flush,
         Interrupt, ThreadRelease, Release, Called, Begin, Faulted, Look, ReadOne, Finish;
    match step
    case ThreadWork(x) => ThreadWorkFollows(s, x, t);
    case DeferredWork(x) => DeferredFollows(s, x, t);
    case ProcWork => ProcWorkFollows(s, t);
    case Transaction(to) => TransactionFollows(s, to, t);
    case FlushAll(tids) => FlushFollows(s, tids, t);
    case Signal(x) => SignalFollows(s, x, t);
    case ThreadExit(x) => ExitFollows(s, x, t);
    case Close(tids) => CloseFollows(s, tids, t);
    case OtherCall(x) => CalledFollows(s, x, t);
    case BeginRead(x) => BeginFollows(s, x, t);
    case BadRead(x) => BadFollows(s, x, t);
    case LookForWork(x) => LookFollows(s, x, t);
    case TakeWork(x) => TakeFollows(s, x, t);
    case Return(x) => ReturnFollows(s, x, t);
    case _ => QuietFollows(s, step, t);
  }

  lemma InvGives(s: State)
    requires Inv(s)
    ensures WaitingParked(s) && forall x {:trigger x in s.inside} :: x in s.inside ==> Calls(s, x) > 0
  {
  }

  lemma QuietFollows(s: State, step: Step, t: Tid)
    requires Inv(s) && Enabled(s, step)
    requires step.StackChange? || step.SetNonblocking? || step.Unlock? || step.TryAgain?
    ensures Follows(s, step, Next(s, step), t)
  {
    hide Inv;
  }

  lemma StillWork(s: State, step: Step, u: State, t: Tid)
    requires Follows(s, step, u, t) && (Flags(s, t).processTodo ==> Flags(s, t).queued > 0)
    ensures Flags(u, t).processTodo ==> Flags(u, t).queued > 0
  {
  }

  lemma {:induction false} RunPrompt(steps: seq<Step>)
    requires Exec(steps).Some?
    ensures PromptIsWork(Exec(steps).value)
  {
    hide Inv, Enabled, Next, Follows;
    if steps != [] {
      var front, step := steps[..|steps| - 1], steps[|steps| - 1];
      RunPrompt(front);
      var s, u := Exec(front).value, Exec(steps).value;
      forall t ensures Flags(u, t).processTodo ==> Flags(u, t).queued > 0 {
        NextFollows(s, step, t);
        StillWork(s, step, u, t);
      }
    }
  }

  /** The driver's flags and counters are what the run says is outstanding. */
  lemma {:induction false} RunFollows(steps: seq<Step>, t: Tid)
    requires Exec(steps).Some?
    ensures var th := Flags(Exec(steps).value, t);
            && th.interrupted == Signalled(steps, t) && th.needReturn == Flushed(steps, t)
            && th.queued == Owed(steps, t) && th.processTodo == Prompted(steps, t) && th.busy == Busy(steps, t)
  {
    hide Inv, Enabled, Next, PromptIsWork, SignalAfter, FlushAfter, BusyAfter, OwedAfter, PromptAfter, ProcAfter;
    if steps != [] {
      var front, step := steps[..|steps| - 1], steps[|steps| - 1];
      RunFollows(front, t);
      RunPrompt(front);
      NextFollows(Exec(front).value, step, t);
    }
  }

  lemma {:induction false} RunProcWork(steps: seq<Step>)
    requires Exec(steps).Some?
    ensures Exec(steps).value.todo == ProcOwed(steps)
  {
    hide Inv, Enabled, Next, PromptIsWork, SignalAfter, FlushAfter, BusyAfter, OwedAfter, PromptAfter, ProcAfter;
    if steps != [] {
      var front, step := steps[..|steps| - 1], steps[|steps| - 1];
      RunProcWork(front);
      RunPrompt(front);
      NextFollows(Exec(front).value, step, 0);
      if step.TakeWork? {
        RunFollows(front, step.tid);
      }
    }
  }

  // ---- which reads wait for process work ----

  lemma {:induction false} ReleasedInside(s: State, tids: seq<Tid>)
    ensures ThreadsReleased(s, tids).inside == s.inside
  {
    if tids != [] {
      ReleasedInside(s, tids[..|tids| - 1]);
    }
  }

  lemma {:induction false} WokenInside(s: State, tids: seq<Tid>)
    ensures Woken(s, tids).inside == s.inside
  {
    if tids != [] {
      WokenInside(s, tids[..|tids| - 1]);
    }
  }

  /** A step other than the read's own leaves it as it is. */
  ghost predicate ReadsStay(s: State, u: State) {
    forall t {:trigger t in u.inside} :: t in u.inside ==> t in s.inside && u.inside[t].wait == s.inside[t].wait
  }

  lemma OthersStay(s: State, step: Step)
    requires Inv(s) && Enabled(s, step) && !step.BeginRead? && !step.TryAgain? && !step.LookForWork? && !step.BadRead?
    ensures ReadsStay(s, Next(s, step))
  {
    InvGives(s);
    hide Inv, WaitingParked, Flush, ThreadsReleased, Woken, Finish, WakeWaiter, WakeupProc;
    match step
    case ThreadWork(x) => WakeInside(s, x);
    case ProcWork => WakeupSame(s.(todo := s.todo + 1));
    case Transaction(to) =>
      if to.Some? {
        WakeInside(s, to.value);
      } else if s.waiting != [] {
        WakeInside(s.(waiting := s.waiting[1..]), s.waiting[0]);
      }
    case FlushAll(tids) => FlushFlags(s, tids, 0);
    case Signal(x) =>
      if x in s.threads {
        WakeSame(SetThread(s, x, s.threads[x].(interrupted := true)), x);
      }
    case Close(tids) => WokenInside(s, tids); ReleasedInside(Woken(s, tids), tids);
    case Return(x) => FinishFlags(s, x);
    case _ =>
  }

  lemma WakeInside(s: State, x: Tid)
    ensures QueueThreadWork(s, x).inside == s.inside
  {
  }

  lemma LookStaysInside(s: State, x: Tid)
    requires x in s.inside && Calls(s, x) > 0
    ensures ReadsStay(s, Look(s, x))
  {
    hide Finish, Park;
    FinishFlags(s, x);
    if x in s.threads {
      FinishFlags(SetThread(s, x, s.threads[x].(interrupted := false)), x);
      ParkFlags(s, x);
    }
  }

  lemma BadStays(s: State, x: Tid)
    requires WaitingParked(s)
    ensures ReadsStay(s, Faulted(s, x))
  {
    BeginFlags(s, x, x);
    if s.open {
      FinishFlags(Begin(s, x), x);
    }
    hide WaitingParked, Finish;
  }

  lemma NextWaits(s: State, step: Step, t: Tid)
    requires Inv(s) && Enabled(s, step) && t in Next(s, step).inside
    ensures var th := Flags(s, t);
            Next(s, step).inside[t].wait ==
            WaitsAfter(step, t, t in s.inside && s.inside[t].wait, th.busy, th.queued)
  {
    InvGives(s);
    if step.BeginRead? || step.TryAgain? {
      hide Inv, WaitingParked;
    } else {
      hide Inv, WaitingParked, Look, Faulted;
      if step.LookForWork? {
        LookStaysInside(s, step.tid);
      } else if step.BadRead? {
        BadStays(s, step.tid);
      } else {
        OthersStay(s, step);
      }
    }
  }

  /** A read inside the driver waits for process work exactly as the run says. */
  lemma {:induction false} RunWaits(steps: seq<Step>, t: Tid)
    requires Exec(steps).Some? && t in Exec(steps).value.inside
    ensures Exec(steps).value.inside[t].wait == Waits(steps, t)
  {
    hide Inv, Enabled, Next;
    if steps != [] {
      var front, step := steps[..|steps| - 1], steps[|steps| - 1];
      var s := Exec(front).value;
      RunFollows(front, t);
      NextWaits(s, step, t);
      if t in s.inside {
        RunWaits(front, t);
      } else {
        OnlyBegins(s, step, t);
      }
    }
  }

  lemma OnlyBegins(s: State, step: Step, t: Tid)
    requires Inv(s) && Enabled(s, step) && t in Next(s, step).inside && t !in s.inside
    ensures step == BeginRead(t)
  {
    InvGives(s);
    if !step.BeginRead? && !step.TryAgain? {
      hide Inv, WaitingParked, Look, Faulted, Next;
      if step.LookForWork? {
        LookIsNext(s, step.tid);
        LookStaysInside(s, step.tid);
      } else if step.BadRead? {
        BadIsNext(s, step.tid);
        BadStays(s, step.tid);
      } else {
        OthersStay(s, step);
      }
    }
  }

  lemma LookIsNext(s: State, t: Tid)
    requires Inv(s) && Enabled(s, LookForWork(t))
    ensures Calls(s, t) > 0 && Next(s, LookForWork(t)) == Look(s, t)
  {
  }

  lemma BadIsNext(s: State, t: Tid)
    requires Inv(s) && Enabled(s, BadRead(t))
    ensures Next(s, BadRead(t)) == Faulted(s, t)
  {
  }

  // ---- nothing asked of a thread is lost ----

  /** In every run: a thread that was signalled, or asked to return, or given work, and has not answered, is not parked;
      and a thread waits for the process's work only while none is outstanding or another is on its way to it. */
  lemma NothingAskedIsLost(steps: seq<Step>, t: Tid)
    requires Exec(steps).Some?
    ensures var s := Exec(steps).value;
            && (Signalled(steps, t) || Flushed(steps, t) || Prompted(steps, t) ==> t in s.threads && !Parked(s, t))
            && (t in s.waiting && s.inside == map[] && s.due == {} ==> ProcOwed(steps) == 0 && Parked(s, t))
  {
    hide Exec, Inv, Signalled, Flushed, Owed, Prompted, ProcOwed;
    NoLostWakeup(steps, t);
    RunFollows(steps, t);
    RunProcWork(steps);
  }

  /** The thread has work, or was asked to return and has not. */
  ghost predicate HasCause(steps: seq<Step>, t: Tid)
    requires Exec(steps).Some?
  {
    Prompted(steps, t) || Flushed(steps, t) || (Waits(steps, t) && ProcOwed(steps) > 0)
  }

  /** What a read that looks for work does, told from the run: it goes on to read if it has cause to, else returns if it
      may not wait or was signalled, else delivers the wake-ups it owes and looks again, else parks. */
  lemma LookOutcome(steps: seq<Step>, t: Tid)
    requires Exec(steps).Some? && Enabled(Exec(steps).value, LookForWork(t))
    ensures var s := Exec(steps).value;
            var u := Next(s, LookForWork(t));
            if t !in s.threads then ReadReturned(s, u, t)
            else if HasCause(steps, t) then t in u.inside && u.inside[t].reading
            else if MayNotWait(steps) || Signalled(steps, t) then ReadReturned(s, u, t)
            else if Undelivered(steps) > 0 then u == s.(pending := 0)
            else Parked(u, t) && t !in u.inside
  {
    var s := Exec(steps).value;
    InvGives(s);
    assert !Parked(s, t);
    hide Exec, Inv, WaitingParked, Signalled, Flushed, Owed, Prompted, ProcOwed, Waits, Busy, Finish, Park;
    RunFollows(steps, t);
    RunProcWork(steps);
    RunWaits(steps, t);
    RunProcess(steps);
    hide MayNotWait, Undelivered, StillOpen;
    FinishFlags(s, t);
    if t in s.threads {
      var v := SetThread(s, t, s.threads[t].(interrupted := false));
      FinishFlags(v, t);
      assert !Parked(v, t);
      if !HasWork(s, t, s.inside[t].wait) {
        ParkParks(s, t);
        ParkFlags(s, t);
      }
    }
  }

  // ---- first to wait, first to be woken ----

  /** The step at which the thread last parked. */
  ghost function ParkedAt(steps: seq<Step>, t: Tid): nat
    requires Exec(steps).Some?
  {
    if steps == [] then 0
    else
      var front := steps[..|steps| - 1];
      if steps[|steps| - 1] == LookForWork(t) && Parked(Exec(steps).value, t) then |steps| else ParkedAt(front, t)
  }

  ghost predicate Rising(q: seq<Tid>, when: Tid -> nat) {
    forall i, j {:trigger when(q[i]), when(q[j])} :: 0 <= i < j < |q| ==> when(q[i]) < when(q[j])
  }

  lemma InWithout(q: seq<Tid>, t: Tid, x: Tid)
    requires x in Without(q, t)
    ensures x in q
  {
    WithoutIs(q, t);
    hide Without;
  }

  lemma {:induction false} WithoutRises(q: seq<Tid>, t: Tid, when: Tid -> nat)
    requires Rising(q, when)
    ensures Rising(Without(q, t), when)
  {
    if q != [] {
      var rest := q[1..];
      assert forall i :: 0 <= i < |rest| ==> when(q[0]) < when(rest[i]) && rest[i] == q[i + 1];
      forall i, j | 0 <= i < j < |rest| ensures when(rest[i]) < when(rest[j]) {
        assert when(q[i + 1]) < when(q[j + 1]);
      }
      WithoutRises(rest, t, when);
      var r := Without(rest, t);
      forall i | 0 <= i < |r| ensures when(q[0]) < when(r[i]) {
        InWithout(rest, t, r[i]);
        var k :| 0 <= k < |rest| && rest[k] == r[i];
      }
    }
  }

  lemma WakeRises(s: State, t: Tid, when: Tid -> nat)
    requires Rising(s.waiting, when)
    ensures Rising(WakeWaiter(s, t).waiting, when)
  {
    WithoutRises(s.waiting, t, when);
    hide Without;
  }

  lemma PopRises(q: seq<Tid>, when: Tid -> nat)
    requires Rising(q, when) && q != []
    ensures Rising(q[1..], when)
  {
    var r := q[1..];
    forall i, j | 0 <= i < j < |r| ensures when(r[i]) < when(r[j]) {
      assert when(q[i + 1]) < when(q[j + 1]);
    }
  }

  lemma WakeupRises(s: State, when: Tid -> nat)
    requires Rising(s.waiting, when)
    ensures Rising(WakeupProc(s).waiting, when)
  {
    hide WakeWaiter, Rising;
    if s.waiting != [] {
      PopRises(s.waiting, when);
      WakeRises(s.(waiting := s.waiting[1..]), s.waiting[0], when);
    }
  }

  lemma {:induction false} FlushRises(s: State, tids: seq<Tid>, when: Tid -> nat)
    requires Rising(s.waiting, when)
    ensures Rising(Flush(s, tids).waiting, when)
  {
    if tids != [] {
      hide WakeWaiter, Rising;
      var u, x := Flush(s, tids[..|tids| - 1]), tids[|tids| - 1];
      FlushRises(s, tids[..|tids| - 1], when);
      if x in u.threads {
        WakeRises(SetThread(u, x, u.threads[x].(needReturn := true)), x, when);
      }
    }
  }

  lemma {:induction false} WokenRises(s: State, tids: seq<Tid>, when: Tid -> nat)
    requires Rising(s.waiting, when)
    ensures Rising(Woken(s, tids).waiting, when)
  {
    if tids != [] {
      hide WakeWaiter, Rising;
      WokenRises(s, tids[..|tids| - 1], when);
      WakeRises(Woken(s, tids[..|tids| - 1]), tids[|tids| - 1], when);
    }
  }

  lemma {:induction false} ReleasedRises(s: State, tids: seq<Tid>, when: Tid -> nat)
    requires Rising(s.waiting, when)
    ensures Rising(ThreadsReleased(s, tids).waiting, when)
  {
    if tids != [] {
      hide Without, Rising;
      ReleasedRises(s, tids[..|tids| - 1], when);
      WithoutRises(ThreadsReleased(s, tids[..|tids| - 1]).waiting, tids[|tids| - 1], when);
    }
  }

  lemma TailRises(s: State, x: Tid, when: Tid -> nat)
    requires Rising(s.waiting, when)
    ensures Rising(Tail(s, x).waiting, when)
  {
    hide WakeupProc, Rising;
    WakeupRises(s, when);
  }

  lemma FinishRises(s: State, x: Tid, when: Tid -> nat)
    requires Rising(s.waiting, when) && Calls(s, x) > 0
    ensures Rising(Finish(s, x).waiting, when)
  {
    hide Tail, Rising;
    TailRises(s.(inside := s.inside - {x}, returned := s.returned + {Latest(s, x)}), x, when);
  }

  /** The thread that parks comes last. */
  lemma ParkRises(s: State, x: Tid, when: Tid -> nat)
    requires x in s.threads && x in s.inside && Calls(s, x) > 0
    requires Rising(s.waiting, when)
    requires forall i {:trigger s.waiting[i]} :: 0 <= i < |s.waiting| ==> when(s.waiting[i]) < when(x)
    ensures Rising(Park(s, x).waiting, when)
  {
    var v := SetThread(s.(waiting := if s.inside[x].wait then s.waiting + [x] else s.waiting, inside := s.inside - {x}),
                       x, s.threads[x].(parked := Some(Latest(s, x))));
    assert Rising(v.waiting, when);
    hide Tail, Rising;
    TailRises(v, x, when);
    ParkIs(s, x, v);
  }

  lemma QueueRises(s: State, x: Tid, when: Tid -> nat)
    requires Rising(s.waiting, when)
    ensures Rising(QueueThreadWork(s, x).waiting, when)
  {
    hide WakeWaiter, Rising;
    if x in s.threads {
      WakeRises(SetThread(s, x, s.threads[x].(queued := s.threads[x].queued + 1, processTodo := true)), x, when);
    }
  }

  lemma NextRises(s: State, step: Step, when: Tid -> nat)
    requires Inv(s) && Enabled(s, step) && Rising(s.waiting, when)
    requires step.LookForWork? && Parked(Next(s, step), step.tid) ==>
               forall i {:trigger s.waiting[i]} :: 0 <= i < |s.waiting| ==> when(s.waiting[i]) < when(step.tid)
    ensures Rising(Next(s, step).waiting, when)
  {
    InvGives(s);
    hide Inv, WaitingParked, Rising, QueueThreadWork, WakeWaiter, WakeupProc, Flush, Woken, ThreadsReleased, Finish,
         Park, Without;
    match step
    case ThreadWork(x) => QueueRises(s, x, when);
    case ProcWork => WakeupRises(s.(todo := s.todo + 1), when);
    case Transaction(to) =>
      if to.Some? {
        QueueRises(s, to.value, when);
      } else if s.waiting != [] {
        PopRises(s.waiting, when);
        QueueRises(s.(waiting := s.waiting[1..]), s.waiting[0], when);
      }
    case FlushAll(tids) => FlushRises(s, tids, when);
    case Signal(x) =>
      if x in s.threads {
        WakeRises(SetThread(s, x, s.threads[x].(interrupted := true)), x, when);
      }
    case ThreadExit(x) => WithoutRises(s.waiting, x, when);
    case Close(tids) => WokenRises(s, tids, when); ReleasedRises(Woken(s, tids), tids, when);
    case BadRead(x) =>
      if s.open {
        FinishRises(Begin(s, x), x, when);
      }
    case LookForWork(x) => LookRises(s, x, when);
    case Return(x) => FinishRises(s, x, when);
    case _ =>
  }

  lemma LookRises(s: State, x: Tid, when: Tid -> nat)
    requires Inv(s) && x in s.inside && Calls(s, x) > 0 && Rising(s.waiting, when)
    requires Parked(Look(s, x), x) ==>
               forall i {:trigger s.waiting[i]} :: 0 <= i < |s.waiting| ==> when(s.waiting[i]) < when(x)
    ensures Rising(Look(s, x).waiting, when)
  {
    hide Inv, Rising, Finish, Park;
    if x !in s.threads {
      FinishRises(s, x, when);
    } else if HasWork(s, x, s.inside[x].wait) {
    } else if s.nonblocking {
      FinishRises(s, x, when);
    } else if s.threads[x].interrupted {
      FinishRises(SetThread(s, x, s.threads[x].(interrupted := false)), x, when);
    } else if s.pending == 0 {
      ParkParks(s, x);
      ParkRises(s, x, when);
    }
  }

  ghost function When(steps: seq<Step>): Tid -> nat
    requires Exec(steps).Some?
  {
    (t: Tid) => ParkedAt(steps, t)
  }

  lemma {:induction false} ParkedBefore(steps: seq<Step>, t: Tid)
    requires Exec(steps).Some?
    ensures ParkedAt(steps, t) <= |steps|
  {
    hide Inv, Enabled, Next;
    if steps != [] {
      ParkedBefore(steps[..|steps| - 1], t);
    }
  }

  /** In every run the threads that wait for process work stand in the order in which they parked, so the one that has
      waited longest is woken first. */
  lemma {:induction false} FirstToWait(steps: seq<Step>)
    requires Exec(steps).Some?
    ensures Rising(Exec(steps).value.waiting, When(steps))
  {
    hide Inv, Enabled, Next, Parked;
    if steps != [] {
      var front, step := steps[..|steps| - 1], steps[|steps| - 1];
      var s, u := Exec(front).value, Exec(steps).value;
      FirstToWait(front);
      SameTimes(steps);
      if step.LookForWork? && Parked(u, step.tid) {
        forall i | 0 <= i < |s.waiting| ensures When(steps)(s.waiting[i]) < When(steps)(step.tid) {
          ParkedBefore(front, s.waiting[i]);
          assert s.waiting[i] in s.waiting;
        }
      }
      NextRises(s, step, When(steps));
    }
  }

  /** A thread that waits parked before this step. */
  lemma SameTimes(steps: seq<Step>)
    requires Exec(steps).Some? && steps != []
    requires Rising(Exec(steps[..|steps| - 1]).value.waiting, When(steps[..|steps| - 1]))
    ensures var front := steps[..|steps| - 1];
            var q := Exec(front).value.waiting;
            && Rising(q, When(steps))
            && forall i :: 0 <= i < |q| ==> When(steps)(q[i]) == ParkedAt(front, q[i])
  {
    var front, step := steps[..|steps| - 1], steps[|steps| - 1];
    var s := Exec(front).value;
    forall i | 0 <= i < |s.waiting| ensures When(steps)(s.waiting[i]) == When(front)(s.waiting[i]) {
      InsideNotWaiting(s, step, s.waiting[i]);
    }
  }

  lemma InsideNotWaiting(s: State, step: Step, t: Tid)
    requires Inv(s) && Enabled(s, step) && t in s.waiting
    ensures step != LookForWork(t)
  {
    assert Parked(s, t);
  }

  // ---- the process itself ----

  /** The process stays open, in its mode, and every resume taken is one more to deliver. */
  ghost predicate Ongoing(s: State, u: State) {
    && u.open == s.open && u.nonblocking == s.nonblocking
    && |s.released| <= |u.released| && u.pending - s.pending == |u.released| - |s.released|
  }

  lemma WakeOngoing(s: State, t: Tid)
    ensures Ongoing(s, WakeWaiter(s, t))
  {
    hide Without;
  }

  lemma WakeupOngoing(s: State)
    ensures Ongoing(s, WakeupProc(s))
  {
    hide WakeWaiter;
    if s.waiting != [] {
      WakeOngoing(s.(waiting := s.waiting[1..]), s.waiting[0]);
    }
  }

  lemma QueueOngoing(s: State, t: Tid)
    ensures Ongoing(s, QueueThreadWork(s, t))
  {
    hide WakeWaiter;
    if t in s.threads {
      WakeOngoing(SetThread(s, t, s.threads[t].(queued := s.threads[t].queued + 1, processTodo := true)), t);
    }
  }

  lemma {:induction false} FlushOngoing(s: State, tids: seq<Tid>)
    ensures Ongoing(s, Flush(s, tids))
  {
    if tids != [] {
      hide WakeWaiter;
      var u, x := Flush(s, tids[..|tids| - 1]), tids[|tids| - 1];
      FlushOngoing(s, tids[..|tids| - 1]);
      if x in u.threads {
        WakeOngoing(SetThread(u, x, u.threads[x].(needReturn := true)), x);
      }
    }
  }

  lemma {:induction false} WokenOngoing(s: State, tids: seq<Tid>)
    ensures Ongoing(s, Woken(s, tids))
  {
    if tids != [] {
      hide WakeWaiter;
      WokenOngoing(s, tids[..|tids| - 1]);
      WakeOngoing(Woken(s, tids[..|tids| - 1]), tids[|tids| - 1]);
    }
  }

  lemma {:induction false} ReleasedOngoing(s: State, tids: seq<Tid>)
    ensures Ongoing(s, ThreadsReleased(s, tids))
  {
    if tids != [] {
      hide Without;
      ReleasedOngoing(s, tids[..|tids| - 1]);
    }
  }

  lemma TailOngoing(s: State, t: Tid)
    ensures Ongoing(s, Tail(s, t))
  {
    hide WakeupProc;
    WakeupOngoing(s);
  }

  lemma FinishOngoing(s: State, t: Tid)
    requires Calls(s, t) > 0
    ensures Ongoing(s, Finish(s, t))
  {
    hide Tail;
    TailOngoing(s.(inside := s.inside - {t}, returned := s.returned + {Latest(s, t)}), t);
  }

  lemma ParkOngoing(s: State, t: Tid)
    requires t in s.threads && t in s.inside && Calls(s, t) > 0
    ensures Ongoing(s, Park(s, t))
  {
    hide Tail;
    var v := SetThread(s.(waiting := if s.inside[t].wait then s.waiting + [t] else s.waiting, inside := s.inside - {t}),
                       t, s.threads[t].(parked := Some(Latest(s, t))));
    TailOngoing(v, t);
    ParkIs(s, t, v);
  }

  /** A read that owes wake-ups before it waits looks again once they are delivered. */
  ghost predicate LooksAgain(s: State, u: State, step: Step) {
    step.LookForWork? && step.tid in u.inside && !u.inside[step.tid].reading
  }

  lemma LookOngoing(s: State, t: Tid)
    requires t in s.inside && !s.inside[t].reading && Calls(s, t) > 0
    ensures var u := Look(s, t);
            if LooksAgain(s, u, LookForWork(t)) then u == s.(pending := 0) else Ongoing(s, u)
  {
    hide Finish, Park;
    if t !in s.threads {
      FinishOngoing(s, t);
      FinishFlags(s, t);
    } else if HasWork(s, t, s.inside[t].wait) {
    } else if s.nonblocking {
      FinishOngoing(s, t);
      FinishFlags(s, t);
    } else if s.threads[t].interrupted {
      var v := SetThread(s, t, s.threads[t].(interrupted := false));
      FinishOngoing(v, t);
      FinishFlags(v, t);
    } else if s.pending == 0 {
      ParkOngoing(s, t);
      ParkFlags(s, t);
    }
  }

  ghost predicate OpenAfter(step: Step, was: bool) {
    was && !step.Close?
  }

  ghost predicate ModeAfter(step: Step, was: bool) {
    if step.SetNonblocking? then step.on else was
  }

  /** The resumes taken and not yet delivered: the lock is released, or a read delivers them before it waits. */
  ghost function UndeliveredAfter(s: State, step: Step, u: State, was: nat): int {
    if step.Unlock? || LooksAgain(s, u, step) then 0 else was + |u.released| - |s.released|
  }

  ghost predicate Processed(s: State, step: Step, u: State) {
    && u.open == OpenAfter(step, s.open) && u.nonblocking == ModeAfter(step, s.nonblocking)
    && u.pending == UndeliveredAfter(s, step, u, s.pending)
  }

  lemma OngoingProcessed(s: State, step: Step, u: State)
    requires Ongoing(s, u) && !step.Close? && !step.SetNonblocking? && !step.Unlock? && !LooksAgain(s, u, step)
    ensures Processed(s, step, u)
  {
  }

  lemma CloseProcessed(s: State, tids: seq<Tid>)
    ensures Processed(s, Close(tids), Release(s, tids))
  {
    hide Woken, ThreadsReleased;
    WokenOngoing(s, tids);
    ReleasedOngoing(Woken(s, tids), tids);
  }

  lemma LookProcessed(s: State, t: Tid)
    requires t in s.inside && !s.inside[t].reading && Calls(s, t) > 0
    ensures Processed(s, LookForWork(t), Look(s, t))
  {
    hide Look;
    LookOngoing(s, t);
  }

  lemma NextProcess(s: State, step: Step)
    requires Inv(s) && Enabled(s, step)
    ensures Processed(s, step, Next(s, step))
  {
    InvGives(s);
    hide Inv, WaitingParked, Processed, Ongoing;
    if step.Close? {
      CloseProcessed(s, step.tids);
    } else if step.LookForWork? {
      LookProcessed(s, step.tid);
    } else if step.SetNonblocking? || step.Unlock? {
      ToldProcessed(s, step);
    } else {
      NextOngoing(s, step);
      OngoingProcessed(s, step, Next(s, step));
    }
  }

  lemma ToldProcessed(s: State, step: Step)
    requires Inv(s) && Enabled(s, step) && (step.SetNonblocking? || step.Unlock?)
    ensures Processed(s, step, Next(s, step))
  {
    hide Inv;
  }

  lemma NextOngoing(s: State, step: Step)
    requires Inv(s) && Enabled(s, step)
    requires !step.Close? && !step.LookForWork? && !step.SetNonblocking? && !step.Unlock?
    ensures Ongoing(s, Next(s, step))
  {
    InvGives(s);
    hide Inv, WaitingParked, QueueThreadWork, WakeWaiter, WakeupProc, Flush, Finish, Without;
    match step
    case ThreadWork(x) => QueueOngoing(s, x);
    case ProcWork => WakeupOngoing(s.(todo := s.todo + 1));
    case Transaction(to) =>
      if to.Some? {
        QueueOngoing(s, to.value);
      } else if s.waiting != [] {
        QueueOngoing(s.(waiting := s.waiting[1..]), s.waiting[0]);
      }
    case FlushAll(tids) => FlushOngoing(s, tids);
    case Signal(x) =>
      if x in s.threads {
        WakeOngoing(SetThread(s, x, s.threads[x].(interrupted := true)), x);
      }
    case BadRead(x) =>
      if s.open {
        FinishOngoing(Begin(s, x), x);
      }
    case Return(x) => FinishOngoing(s, x);
    case _ =>
  }

  ghost predicate StillOpen(steps: seq<Step>) {
    forall i :: 0 <= i < |steps| ==> !steps[i].Close?
  }

  ghost predicate MayNotWait(steps: seq<Step>) {
    steps != [] && ModeAfter(steps[|steps| - 1], MayNotWait(steps[..|steps| - 1]))
  }

  ghost function Undelivered(steps: seq<Step>): int
    requires Exec(steps).Some?
  {
    if steps == [] then 0
    else
      var front := steps[..|steps| - 1];
      var was := Undelivered(front);
      if was < 0 then was else UndeliveredAfter(Exec(front).value, steps[|steps| - 1], Exec(steps).value, was)
  }

  /** In every run the process is open until it is closed, waits or not as it was last told, and owes exactly the
      wake-ups taken since some were last delivered. */
  lemma {:induction false} RunProcess(steps: seq<Step>)
    requires Exec(steps).Some?
    ensures var s := Exec(steps).value;
            s.open == StillOpen(steps) && s.nonblocking == MayNotWait(steps) && s.pending == Undelivered(steps)
  {
    hide Inv, Enabled, Next;
    if steps != [] {
      var front, step := steps[..|steps| - 1], steps[|steps| - 1];
      RunProcess(front);
      NextProcess(Exec(front).value, step);
      assert forall i {:trigger steps[i]} :: 0 <= i < |front| ==> steps[i] == front[i];
    }
  }
}
