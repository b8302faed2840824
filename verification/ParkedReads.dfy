/** Parked reads of one binder process (`crates/aim-binder-driver/src/driver.rs`, `state.rs`, `read.rs`,
    `release.rs`): a read that would wait leaves a resume behind instead, and whoever brings it work, an
    interrupt or its end takes that resume and lets it run once the lock is free.

    Work is counted, not named. The callers are parking ones: each read brings a resume of its own, and a
    resumed caller reads again before it does anything else. */
module ParkedReads {
  import opened Common

  type Tid = int

  /** The resume a thread brings to its `serial`-th read. */
  datatype Resume = Resume(tid: Tid, serial: nat)

  datatype Thread = Thread(
    queued: nat,
    processTodo: bool,
    needReturn: bool,
    interrupted: bool,
    busy: bool,
    parked: Option<Resume>)

  /** A read inside the driver: whether it waits for process work, and whether it has begun to read. */
  datatype Reader = Reader(wait: bool, reading: bool)

  /** `released` lists the resumes taken, of which the last `pending` have yet to run; `returned` are
      those of reads that returned without parking; `due` are the threads resumed that have not read again. */
  datatype State = State(
    open: bool,
    nonblocking: bool,
    threads: map<Tid, Thread>,
    todo: nat,
    waiting: seq<Tid>,
    calls: map<Tid, nat>,
    inside: map<Tid, Reader>,
    released: seq<Resume>,
    pending: nat,
    returned: set<Resume>,
    due: set<Tid>)

  function Calls(s: State, t: Tid): nat {
    if t in s.calls then s.calls[t] else 0
  }

  /** The resume of the thread's latest read. */
  function Latest(s: State, t: Tid): Resume
    requires Calls(s, t) > 0
  {
    Resume(t, Calls(s, t) - 1)
  }

  function SetThread(s: State, t: Tid, thread: Thread): State {
    s.(threads := s.threads[t := thread])
  }

  function Without(q: seq<Tid>, t: Tid): seq<Tid> {
    if q == [] then [] else (if q[0] == t then [] else [q[0]]) + Without(q[1..], t)
  }

  // ---- waking ----

  /** A parked thread leaves the waiting list and its resume is taken. */
  function Resumed(s: State, t: Tid, r: Resume): State {
    s.(waiting := Without(s.waiting, t), released := s.released + [r], pending := s.pending + 1, due := s.due + {t})
  }

  /** `wake_waiter`. */
  function WakeWaiter(s: State, t: Tid): State {
    if t !in s.threads || s.threads[t].parked.None? then s
    else Resumed(SetThread(s, t, s.threads[t].(parked := None)), t, s.threads[t].parked.value)
  }

  /** `enqueue_thread_work`. */
  function QueueThreadWork(s: State, t: Tid): State {
    if t !in s.threads then s
    else WakeWaiter(SetThread(s, t, s.threads[t].(queued := s.threads[t].queued + 1, processTodo := true)), t)
  }

  /** `enqueue_deferred_thread_work`. */
  function DeferThreadWork(s: State, t: Tid): State {
    if t !in s.threads then s else SetThread(s, t, s.threads[t].(queued := s.threads[t].queued + 1))
  }

  /** `wakeup_proc`. */
  function WakeupProc(s: State): State {
    if s.waiting == [] then s else WakeWaiter(s.(waiting := s.waiting[1..]), s.waiting[0])
  }

  /** Work for the process, and a wake-up. */
  function QueueProcWork(s: State): State {
    if s.open then WakeupProc(s.(todo := s.todo + 1)) else s
  }

  /** `proc_transaction`: to a thread of choice or one that waits, else to the process. */
  function Transact(s: State, to: Option<Tid>): State {
    if !s.open then s
    else if to.Some? then QueueThreadWork(s, to.value)
    else if s.waiting == [] then s.(todo := s.todo + 1)
    else QueueThreadWork(s.(waiting := s.waiting[1..]), s.waiting[0])
  }

  /** One turn of `flush`. */
  function FlushOne(s: State, t: Tid): State {
    if t !in s.threads then s else WakeWaiter(SetThread(s, t, s.threads[t].(needReturn := true)), t)
  }

  function Flush(s: State, tids: seq<Tid>): State {
    if tids == [] then s else FlushOne(Flush(s, tids[..|tids| - 1]), tids[|tids| - 1])
  }

  /** `interrupt`. */
  function Interrupt(s: State, t: Tid): State {
    if t !in s.threads then s else WakeWaiter(SetThread(s, t, s.threads[t].(interrupted := true)), t)
  }

  /** `thread_release`. */
  function ThreadRelease(s: State, t: Tid): State {
    if t !in s.threads then s
    else
      var u := s.(threads := s.threads - {t});
      if s.threads[t].parked.None? then u.(waiting := Without(s.waiting, t))
          else Resumed(u, t, s.threads[t].parked.value)
  }

  function ThreadsReleased(s: State, tids: seq<Tid>): State {
    if tids == [] then s else ThreadRelease(ThreadsReleased(s, tids[..|tids| - 1]), tids[|tids| - 1])
  }

  function Woken(s: State, tids: seq<Tid>): State {
    if tids == [] then s else WakeWaiter(Woken(s, tids[..|tids| - 1]), tids[|tids| - 1])
  }

  /** `release` of the process: all its threads are woken and leave. */
  function Release(s: State, tids: seq<Tid>): State {
    ThreadsReleased(Woken(s, tids), tids).(open := false, todo := 0)
  }

  // ---- reading ----

  /** `available_for_proc_work`. */
  function Available(s: State, t: Tid): bool {
    t in s.threads && !s.threads[t].busy && s.threads[t].queued == 0
  }

  /** `has_work`. */
  function HasWork(s: State, t: Tid, wait: bool): bool {
    t !in s.threads || s.threads[t].processTodo || s.threads[t].needReturn || (wait && s.todo > 0)
  }

  /** The ioctl begins: `thread_or_create`, up to the read's wait. */
  function Begin(s: State, t: Tid): State {
    var u := s.(calls := s.calls[t := Calls(s, t) + 1], due := s.due - {t});
    if !s.open then u.(returned := u.returned + {Latest(u, t)})
    else
      var v := if t in u.threads then u else SetThread(u, t, Thread(0, false, true, false, false, None));
      v.(inside := v.inside[t := Reader(Available(v, t), false)])
  }

  /** What `write_read` and `ioctl_parking` do after every read. */
  function Tail(s: State, t: Tid): State {
    var u := if s.open && s.todo > 0 then WakeupProc(s) else s;
    if t in u.threads then SetThread(u, t, u.threads[t].(needReturn := false)) else u
  }

  /** The read returns to its caller without having parked. */
  function Finish(s: State, t: Tid): State
    requires Calls(s, t) > 0
  {
    Tail(s.(inside := s.inside - {t}, returned := s.returned + {Latest(s, t)}), t)
  }

  /** A read of a bad buffer fails at once, without looking for work. */
  function Faulted(s: State, t: Tid): State {
    if s.open then Finish(Begin(s, t), t) else Begin(s, t)
  }

  /** The read parks. */
  function Park(s: State, t: Tid): State
    requires t in s.threads && t in s.inside && Calls(s, t) > 0
  {
    var u := s.(waiting := if s.inside[t].wait then s.waiting + [t] else s.waiting, inside := s.inside - {t});
    Tail(SetThread(u, t, s.threads[t].(parked := Some(Latest(s, t)))), t)
  }

  /** One turn of the wait loop. */
  function Look(s: State, t: Tid): State
    requires t in s.inside && Calls(s, t) > 0
  {
    if t !in s.threads then Finish(s, t)
    else if HasWork(s, t, s.inside[t].wait) then s.(inside := s.inside[t := s.inside[t].(reading := true)])
    else if s.nonblocking then Finish(s, t)
    else if s.threads[t].interrupted then Finish(SetThread(s, t, s.threads[t].(interrupted := false)), t)
    else if s.pending > 0 then s.(pending := 0)
    else Park(s, t)
  }

  /** One piece of work taken by `read_pass`. */
  function ReadOne(s: State, t: Tid): State
    requires t in s.inside
  {
    if t !in s.threads then s
    else
      var thread := s.threads[t];
      if thread.queued > 0 then
        SetThread(s, t, thread.(queued := thread.queued - 1, processTodo := thread.processTodo && thread.queued > 1))
      else if s.todo > 0 && s.inside[t].wait then
        SetThread(s.(todo := s.todo - 1), t, thread.(processTodo := false))
      else s
  }

  /** A pass that read nothing waits again. */
  function Retry(s: State, t: Tid): State
    requires t in s.inside
  {
    s.(inside := s.inside[t := Reader(Available(s, t), false)])
  }

  // ---- what every step keeps ----

  /** A parked thread has nothing to return for. */
  ghost predicate NothingMissed(s: State) {
    forall t {:trigger t in s.threads} :: t in s.threads && s.threads[t].parked.Some? ==>
      !s.threads[t].processTodo && !s.threads[t].needReturn && !s.threads[t].interrupted
  }

  ghost predicate NoTwice<T>(q: seq<T>) {
    forall i, j {:trigger q[i], q[j]} :: 0 <= i < j < |q| ==> q[i] != q[j]
  }

  ghost predicate Parked(s: State, t: Tid) {
    t in s.threads && s.threads[t].parked.Some?
  }

  /** Only parked threads wait, each once; a thread inside a read or due to read is not parked. */
  ghost predicate WaitingParked(s: State) {
    && NoTwice(s.waiting)
    && (forall t {:trigger t in s.waiting} :: t in s.waiting ==> Parked(s, t))
    && (forall t {:trigger t in s.inside} :: t in s.inside ==> !Parked(s, t))
    && (forall t {:trigger t in s.due} :: t in s.due ==> !Parked(s, t) && t !in s.inside)
    && (forall t {:trigger t in s.threads} :: t in s.threads ==> s.open)
  }

  /** Every read's resume is in exactly one place: with its read inside the driver, parked, released once,
      or gone with a read that returned. */
  ghost predicate Settled(s: State, r: Resume) {
    (r in s.released || r in s.returned) && !(r in s.released && r in s.returned)
  }

  ghost predicate Accounted(s: State) {
    && NoTwice(s.released)
    && (forall r {:trigger r in s.released} :: r in s.released ==> r.serial < Calls(s, r.tid))
    && (forall r {:trigger r in s.returned} :: r in s.returned ==> r.serial < Calls(s, r.tid))
    && (forall t {:trigger t in s.inside} :: t in s.inside ==> Calls(s, t) > 0)
    && (forall t {:trigger t in s.threads} ::
         Parked(s, t) ==> Calls(s, t) > 0 && s.threads[t].parked.value == Latest(s, t))
    && (forall t, i: nat {:trigger Resume(t, i)} :: i < Calls(s, t) ==>
          if i == Calls(s, t) - 1 && (t in s.inside || Parked(s, t))
              then Resume(t, i) !in s.released && Resume(t, i) !in s.returned
          else Settled(s, Resume(t, i)))
  }

  /** While the process has work and a thread waits for it, some thread is on its way to it. */
  ghost predicate OnItsWay(s: State) {
    s.todo > 0 && s.waiting != [] ==> s.due != {} || s.inside != map[]
  }

  ghost predicate Inv(s: State) {
    NothingMissed(s) && WaitingParked(s) && Accounted(s) && OnItsWay(s)
  }

  // ---- waking keeps it ----

  ghost predicate NothingMissedBut(s: State, but: Tid) {
    forall t {:trigger t in s.threads} :: t in s.threads && t != but && s.threads[t].parked.Some? ==>
      !s.threads[t].processTodo && !s.threads[t].needReturn && !s.threads[t].interrupted
  }

  lemma {:induction false} WithoutIs(q: seq<Tid>, t: Tid)
    ensures forall x :: x in Without(q, t) <==> x in q && x != t
    ensures NoTwice(q) ==> NoTwice(Without(q, t))
    ensures t !in q ==> Without(q, t) == q
  {
    if q != [] {
      var rest := q[1..];
      WithoutIs(rest, t);
      assert q == [q[0]] + rest;
      assert NoTwice(q) ==> NoTwice(rest) && q[0] !in rest;
    }
  }

  lemma NoTwiceMore<T>(q: seq<T>, x: T)
    requires NoTwice(q) && x !in q
    ensures NoTwice(q + [x])
  {
  }

  /** A thread can be edited as long as it stays parked or not. */
  lemma ThreadEdited(s: State, t: Tid, thread: Thread)
    requires WaitingParked(s) && Accounted(s) && t in s.threads && thread.parked == s.threads[t].parked
    ensures WaitingParked(SetThread(s, t, thread)) && Accounted(SetThread(s, t, thread))
  {
    var u := SetThread(s, t, thread);
    assert forall x :: Parked(u, x) <==> Parked(s, x);
  }

  lemma ResumedWaiting(s: State, u: State, t: Tid, r: Resume)
    requires WaitingParked(s) && Parked(s, t) && r == s.threads[t].parked.value
    requires u == s.(threads := u.threads)
    requires !Parked(u, t) && (forall x :: x != t ==> Parked(u, x) == Parked(s, x))
             && (forall x {:trigger x in u.threads} :: x in u.threads ==> x in s.threads)
    ensures WaitingParked(Resumed(u, t, r))
  {
    WithoutIs(s.waiting, t);
    hide Without;
  }

  lemma ResumedAccounted(s: State, u: State, t: Tid, r: Resume)
    requires Accounted(s) && WaitingParked(s) && Parked(s, t) && r == s.threads[t].parked.value
    requires u == s.(threads := u.threads)
    requires !Parked(u, t) && (forall x :: x != t ==> Parked(u, x) == Parked(s, x))
    requires forall x {:trigger u.threads[x]} ::
             x in u.threads && x != t ==> x in s.threads && u.threads[x] == s.threads[x]
    ensures Accounted(Resumed(u, t, r))
  {
    hide Without;
    var v := Resumed(u, t, r);
    assert r == Latest(s, t) && t !in s.inside;
    assert r !in s.released && r !in s.returned;
    NoTwiceMore(s.released, r);
    forall y | y in v.released ensures y.serial < Calls(v, y.tid) {
      assert y in s.released || y == r;
    }
    forall x | x in v.threads && Parked(v, x) ensures Calls(v, x) > 0 && v.threads[x].parked.value == Latest(v, x) {
      assert x != t && Parked(s, x) && v.threads[x] == s.threads[x];
    }
    forall x, i: nat | i < Calls(v, x)
      ensures if i == Calls(v, x) - 1 && (x in v.inside || Parked(v, x))
              then Resume(x, i) !in v.released && Resume(x, i) !in v.returned
              else Settled(v, Resume(x, i))
    {
      assert i < Calls(s, x);
      assert Resume(x, i) in v.released <==> Resume(x, i) in s.released || Resume(x, i) == r;
    }
  }

  lemma WakeWaiterInv(s: State, t: Tid)
    requires NothingMissedBut(s, t) && (!Parked(s, t) ==> NothingMissed(s)) && WaitingParked(s) && Accounted(s)
    ensures var u := WakeWaiter(s, t);
            && NothingMissed(u) && WaitingParked(u) && Accounted(u)
            && (Parked(s, t) ==> t in u.due) && (OnItsWay(s) ==> OnItsWay(u))
  {
    hide WaitingParked, Accounted, Without;
    if Parked(s, t) {
      var u := SetThread(s, t, s.threads[t].(parked := None));
      ResumedWaiting(s, u, t, s.threads[t].parked.value);
      ResumedAccounted(s, u, t, s.threads[t].parked.value);
    }
  }

  lemma ClosedWaiting(s: State)
    requires WaitingParked(s) && s.waiting != []
    ensures s.open
  {
    var t := s.waiting[0];
    assert t in s.waiting;
    assert Parked(s, t);
    assert t in s.threads;
  }

  lemma PoppedWaiting(s: State)
    requires WaitingParked(s) && Accounted(s) && s.waiting != []
    ensures var u := s.(waiting := s.waiting[1..]); WaitingParked(u) && Accounted(u) && Parked(s, s.waiting[0])
  {
    var u := s.(waiting := s.waiting[1..]);
    assert s.waiting[0] in s.waiting;
    assert forall x :: Parked(u, x) == Parked(s, x);
    forall t | t in u.waiting ensures Parked(u, t) {
      assert t in s.waiting;
    }
  }

  /** Waking the process hands its work to a thread that waits for it. */
  lemma WakeupProcInv(s: State)
    requires NothingMissed(s) && WaitingParked(s) && Accounted(s)
    ensures Inv(WakeupProc(s))
  {
    hide WaitingParked, Accounted, WakeWaiter;
    if s.waiting != [] {
      PoppedWaiting(s);
      WakeWaiterInv(s.(waiting := s.waiting[1..]), s.waiting[0]);
    }
  }

  // ---- so does every step ----

  lemma EditThenWake(s: State, t: Tid, thread: Thread)
    requires Inv(s) && t in s.threads && thread.parked == s.threads[t].parked
    ensures Inv(WakeWaiter(SetThread(s, t, thread), t))
    ensures Parked(s, t) ==> t in WakeWaiter(SetThread(s, t, thread), t).due
  {
    hide WaitingParked, Accounted, WakeWaiter;
    ThreadEdited(s, t, thread);
    WakeWaiterInv(SetThread(s, t, thread), t);
  }

  lemma QueueThreadWorkInv(s: State, t: Tid)
    requires Inv(s)
    ensures Inv(QueueThreadWork(s, t))
  {
    hide Inv, WakeWaiter;
    if t in s.threads {
      EditThenWake(s, t, s.threads[t].(queued := s.threads[t].queued + 1, processTodo := true));
    }
  }

  lemma InterruptInv(s: State, t: Tid)
    requires Inv(s)
    ensures Inv(Interrupt(s, t))
  {
    hide Inv, WakeWaiter;
    if t in s.threads {
      EditThenWake(s, t, s.threads[t].(interrupted := true));
    }
  }

  lemma {:induction false} FlushInv(s: State, tids: seq<Tid>)
    requires Inv(s)
    ensures Inv(Flush(s, tids))
  {
    hide Inv, WakeWaiter;
    if tids != [] {
      var u, t := Flush(s, tids[..|tids| - 1]), tids[|tids| - 1];
      FlushInv(s, tids[..|tids| - 1]);
      if t in u.threads {
        EditThenWake(u, t, u.threads[t].(needReturn := true));
      }
    }
  }

  /** Edits that give a thread nothing to return for. */
  lemma QuietEdit(s: State, t: Tid, thread: Thread)
    requires Inv(s) && t in s.threads && thread.parked == s.threads[t].parked
    requires (thread.processTodo ==> s.threads[t].processTodo) && (thread.needReturn ==> s.threads[t].needReturn)
    requires thread.interrupted ==> s.threads[t].interrupted
    ensures Inv(SetThread(s, t, thread))
  {
    hide WaitingParked, Accounted;
    ThreadEdited(s, t, thread);
  }

  lemma QueueProcWorkInv(s: State)
    requires Inv(s)
    ensures Inv(QueueProcWork(s))
  {
    hide WakeupProc;
    if s.open {
      var u := s.(todo := s.todo + 1);
      TodoEdited(s, u.todo);
      WakeupProcInv(u);
    }
  }

  lemma TodoEdited(s: State, todo: nat)
    requires NothingMissed(s) && WaitingParked(s) && Accounted(s)
    ensures var u := s.(todo := todo); NothingMissed(u) && WaitingParked(u) && Accounted(u)
  {
    var u := s.(todo := todo);
    assert forall x :: Parked(u, x) == Parked(s, x);
  }

  lemma TransactInv(s: State, to: Option<Tid>)
    requires Inv(s)
    ensures Inv(Transact(s, to))
  {
    hide QueueThreadWork, WaitingParked, Accounted, NothingMissed;
    if !s.open {
    } else if to.Some? {
      QueueThreadWorkInv(s, to.value);
    } else if s.waiting == [] {
      TodoEdited(s, s.todo + 1);
    } else {
      HandedOver(s);
    }
  }

  /** The thread at the head of the waiting list gets the transaction itself. */
  lemma HandedOver(s: State)
    requires Inv(s) && s.waiting != []
    ensures Inv(QueueThreadWork(s.(waiting := s.waiting[1..]), s.waiting[0]))
  {
    hide WaitingParked, Accounted, WakeWaiter;
    var u, t := s.(waiting := s.waiting[1..]), s.waiting[0];
    PoppedWaiting(s);
    var thread := u.threads[t].(queued := u.threads[t].queued + 1, processTodo := true);
    ThreadEdited(u, t, thread);
    WakeWaiterInv(SetThread(u, t, thread), t);
  }

  lemma UnparkedGone(s: State, t: Tid)
    requires Inv(s) && t in s.threads && !Parked(s, t)
    ensures Inv(s.(threads := s.threads - {t})) && t !in s.waiting
  {
    var u := s.(threads := s.threads - {t});
    assert forall x :: Parked(u, x) == Parked(s, x);
  }

  lemma ParkedGone(s: State, t: Tid)
    requires Inv(s) && Parked(s, t)
    ensures Inv(Resumed(s.(threads := s.threads - {t}), t, s.threads[t].parked.value))
  {
    hide WaitingParked, Accounted, Without;
    var u := s.(threads := s.threads - {t});
    ResumedWaiting(s, u, t, s.threads[t].parked.value);
    ResumedAccounted(s, u, t, s.threads[t].parked.value);
  }

  lemma ThreadReleaseInv(s: State, t: Tid)
    requires Inv(s)
    ensures Inv(ThreadRelease(s, t))
  {
    hide Inv, Resumed, Without;
    if t in s.threads {
      if Parked(s, t) {
        ParkedGone(s, t);
      } else {
        UnparkedGone(s, t);
        WithoutIs(s.waiting, t);
      }
    }
  }

  lemma {:induction false} ThreadsReleasedInv(s: State, tids: seq<Tid>)
    requires Inv(s)
    ensures var u := ThreadsReleased(s, tids);
            Inv(u) && u.threads.Keys == s.threads.Keys - (set t | t in tids)
  {
    hide Inv;
    if tids != [] {
      var last := |tids| - 1;
      ThreadsReleasedInv(s, tids[..last]);
      ThreadReleaseInv(ThreadsReleased(s, tids[..last]), tids[last]);
      assert tids == tids[..last] + [tids[last]];
    }
  }

  lemma {:induction false} WokenInv(s: State, tids: seq<Tid>)
    requires Inv(s)
    ensures Inv(Woken(s, tids)) && Woken(s, tids).threads.Keys == s.threads.Keys
  {
    if tids != [] {
      WokenInv(s, tids[..|tids| - 1]);
      hide WaitingParked, Accounted, Without;
      WakeWaiterInv(Woken(s, tids[..|tids| - 1]), tids[|tids| - 1]);
    }
  }

  lemma ReleaseInv(s: State, tids: seq<Tid>)
    requires Inv(s) && (forall t :: t in s.threads ==> t in tids)
    ensures Inv(Release(s, tids))
  {
    var w := Woken(s, tids);
    WokenInv(s, tids);
    ThreadsReleasedInv(w, tids);
    hide Woken, ThreadsReleased, Inv;
    forall t | t in w.threads.Keys ensures t in tids {
      assert t in s.threads;
    }
    Closed(ThreadsReleased(w, tids));
  }

  lemma Closed(s: State)
    requires Inv(s) && s.threads.Keys == {}
    ensures Inv(s.(open := false, todo := 0))
  {
    var u := s.(open := false, todo := 0);
    assert forall x :: x !in u.threads.Keys;
    assert forall x :: Parked(u, x) == Parked(s, x);
  }

  // ---- the read ----

  lemma CalledAgain(s: State, t: Tid)
    requires Accounted(s) && !Parked(s, t) && t !in s.inside
    ensures var u := s.(calls := s.calls[t := Calls(s, t) + 1], due := s.due - {t});
            && Latest(u, t) !in s.released && Latest(u, t) !in s.returned
            && (forall x, i: nat {:trigger Resume(x, i)} :: i < Calls(u, x) && Resume(x, i) != Latest(u, t) ==>
                  if i == Calls(u, x) - 1 && (x in s.inside || Parked(s, x))
                      then Resume(x, i) !in u.released && Resume(x, i) !in u.returned
                  else Settled(u, Resume(x, i)))
  {
    var u := s.(calls := s.calls[t := Calls(s, t) + 1], due := s.due - {t});
    forall x, i: nat | i < Calls(u, x) && Resume(x, i) != Latest(u, t)
      ensures if i == Calls(u, x) - 1 && (x in s.inside || Parked(s, x))
              then Resume(x, i) !in u.released && Resume(x, i) !in u.returned
              else Settled(u, Resume(x, i))
    {
      var r := Resume(x, i);
      assert i < Calls(s, x);
      assert Settled(u, r) == Settled(s, r);
    }
  }

  lemma BeginAccounted(s: State, t: Tid)
    requires Accounted(s) && !Parked(s, t) && t !in s.inside
    ensures Accounted(Begin(s, t))
  {
    CalledAgain(s, t);
    var u, r := Begin(s, t), Resume(t, Calls(s, t));
    assert forall x :: Parked(u, x) == Parked(s, x);
    forall x, i: nat | i < Calls(u, x)
      ensures if i == Calls(u, x) - 1 && (x in u.inside || Parked(u, x))
              then Resume(x, i) !in u.released && Resume(x, i) !in u.returned
              else Settled(u, Resume(x, i))
    {
      if Resume(x, i) != r {
        assert Settled(u, Resume(x, i)) == Settled(s, Resume(x, i));
      }
    }
  }

  lemma BeginInv(s: State, t: Tid)
    requires Inv(s) && !Parked(s, t) && t !in s.inside
    ensures Inv(Begin(s, t))
  {
    BeginAccounted(s, t);
    hide Accounted;
    var u := Begin(s, t);
    assert forall x :: Parked(u, x) == Parked(s, x);
    if !s.open {
      if s.waiting != [] {
        ClosedWaiting(s);
      }
    } else {
      assert t in u.inside;
    }
  }

  lemma TailInv(s: State, t: Tid)
    requires NothingMissed(s) && WaitingParked(s) && Accounted(s)
    ensures Inv(Tail(s, t))
  {
    var u := if s.open && s.todo > 0 then WakeupProc(s) else s;
    if s.waiting != [] {
      ClosedWaiting(s);
    }
    hide WakeupProc, WaitingParked, Accounted;
    if s.open && s.todo > 0 {
      WakeupProcInv(s);
    }
    if t in u.threads {
      QuietEdit(u, t, u.threads[t].(needReturn := false));
    }
  }

  lemma FinishInv(s: State, t: Tid)
    requires Inv(s) && t in s.inside && Calls(s, t) > 0
    ensures Inv(Finish(s, t))
  {
    hide Tail;
    var u := s.(inside := s.inside - {t}, returned := s.returned + {Latest(s, t)});
    assert forall x :: Parked(u, x) == Parked(s, x);
    TailInv(u, t);
  }

  lemma FaultedInv(s: State, t: Tid)
    requires Inv(s) && !Parked(s, t) && t !in s.inside
    ensures Inv(Faulted(s, t))
  {
    BeginInv(s, t);
    hide Inv, Finish;
    if s.open {
      FinishInv(Begin(s, t), t);
    }
  }

  lemma ParkInv(s: State, t: Tid)
    requires Inv(s) && t in s.threads && t in s.inside && Calls(s, t) > 0
    requires !HasWork(s, t, s.inside[t].wait) && !s.threads[t].interrupted
    ensures Inv(Park(s, t))
  {
    hide Tail;
    var u := s.(waiting := if s.inside[t].wait then s.waiting + [t] else s.waiting, inside := s.inside - {t});
    var v := SetThread(u, t, s.threads[t].(parked := Some(Latest(s, t))));
    assert t !in s.waiting;
    NoTwiceMore(s.waiting, t);
    assert forall x :: x != t ==> Parked(v, x) == Parked(s, x);
    assert NothingMissed(v) && WaitingParked(v) && Accounted(v);
    hide *;
    TailInv(v, t);
    ParkIs(s, t, v);
  }

  lemma ParkIs(s: State, t: Tid, v: State)
    requires t in s.threads && t in s.inside && Calls(s, t) > 0
    requires v ==
             SetThread(s.(waiting := if s.inside[t].wait then s.waiting + [t] else s.waiting, inside := s.inside - {t}),
                 t,
                            s.threads[t].(parked := Some(Latest(s, t))))
    ensures Park(s, t) == Tail(v, t)
  {
    hide Tail;
  }

  lemma LookInv(s: State, t: Tid)
    requires Inv(s) && t in s.inside && Calls(s, t) > 0
    ensures Inv(Look(s, t))
  {
    hide Finish, Park;
    if t !in s.threads {
      FinishInv(s, t);
    } else if HasWork(s, t, s.inside[t].wait) {
      InsideEdited(s, t, s.inside[t].(reading := true));
    } else if s.nonblocking {
      FinishInv(s, t);
    } else if s.threads[t].interrupted {
      var thread := s.threads[t].(interrupted := false);
      QuietEdit(s, t, thread);
      FinishInv(SetThread(s, t, thread), t);
    } else if s.pending > 0 {
      var u := s.(pending := 0);
      assert forall x :: Parked(u, x) == Parked(s, x);
    } else {
      ParkInv(s, t);
    }
  }

  lemma InsideEdited(s: State, t: Tid, r: Reader)
    requires Inv(s) && t in s.inside
    ensures Inv(s.(inside := s.inside[t := r]))
  {
    var u := s.(inside := s.inside[t := r]);
    assert forall x :: Parked(u, x) == Parked(s, x);
    assert forall x :: x in u.inside <==> x in s.inside;
  }

  lemma ReadOneInv(s: State, t: Tid)
    requires Inv(s) && t in s.inside
    ensures Inv(ReadOne(s, t))
  {
    if t in s.threads {
      var thread := s.threads[t];
      if thread.queued > 0 {
        QuietEdit(s, t, thread.(queued := thread.queued - 1, processTodo := thread.processTodo && thread.queued > 1));
      } else if s.todo > 0 && s.inside[t].wait {
        TodoEdited(s, s.todo - 1);
        QuietEdit(s.(todo := s.todo - 1), t, thread.(processTodo := false));
      }
    }
  }

  // ---- runs ----

  datatype Step =
    | ThreadWork(tid: Tid)
    | DeferredWork(tid: Tid)
    | ProcWork
    | Transaction(to: Option<Tid>)
    | FlushAll(tids: seq<Tid>)
    | Signal(tid: Tid)
    | StackChange(tid: Tid, busy: bool)
    | ThreadExit(tid: Tid)
    | Close(tids: seq<Tid>)
    | SetNonblocking(on: bool)
    | Unlock
    | OtherCall(tid: Tid)
    | BeginRead(tid: Tid)
    | BadRead(tid: Tid)
    | LookForWork(tid: Tid)
    | TakeWork(tid: Tid)
    | TryAgain(tid: Tid)
    | Return(tid: Tid)

  /** A parked thread calls nothing until it is resumed, and then it reads. */
  ghost predicate Enabled(s: State, step: Step) {
    match step
    case Close(tids) => forall t :: t in s.threads ==> t in tids
    case OtherCall(t) => s.open && !Parked(s, t) && t !in s.inside && t !in s.due
    case BeginRead(t) => !Parked(s, t) && t !in s.inside
    case BadRead(t) => !Parked(s, t) && t !in s.inside
    case LookForWork(t) => t in s.inside && !s.inside[t].reading
    case TakeWork(t) => t in s.inside && s.inside[t].reading
    case TryAgain(t) =>
      && t in s.inside && s.inside[t].reading && t in s.threads && !s.threads[t].needReturn
      && s.threads[t].queued == 0 && (s.todo == 0 || !s.inside[t].wait)
    case Return(t) => t in s.inside && s.inside[t].reading
    case _ => true
  }

  /** An ioctl that is not a read. */
  function Called(s: State, t: Tid): State {
    SetThread(s, t, if t in s.threads then s.threads[t].(needReturn := false)
        else Thread(0, false, false, false, false, None))
  }

  ghost function Next(s: State, step: Step): State
    requires Inv(s) && Enabled(s, step)
  {
    match step
    case ThreadWork(t) => QueueThreadWork(s, t)
    case DeferredWork(t) => DeferThreadWork(s, t)
    case ProcWork => QueueProcWork(s)
    case Transaction(to) => Transact(s, to)
    case FlushAll(tids) => Flush(s, tids)
    case Signal(t) => Interrupt(s, t)
    case StackChange(t, busy) => if t in s.threads then SetThread(s, t, s.threads[t].(busy := busy)) else s
    case ThreadExit(t) => ThreadRelease(s, t)
    case Close(tids) => Release(s, tids)
    case SetNonblocking(on) => s.(nonblocking := on)
    case Unlock => s.(pending := 0)
    case OtherCall(t) => Called(s, t)
    case BeginRead(t) => Begin(s, t)
    case BadRead(t) => Faulted(s, t)
    case LookForWork(t) => Look(s, t)
    case TakeWork(t) => ReadOne(s, t)
    case TryAgain(t) => Retry(s, t)
    case Return(t) => Finish(s, t)
  }

  lemma OwnFlags(s: State, nonblocking: bool, pending: nat)
    requires Inv(s)
    ensures Inv(s.(nonblocking := nonblocking, pending := pending))
  {
    var u := s.(nonblocking := nonblocking, pending := pending);
    assert forall x :: Parked(u, x) == Parked(s, x);
  }

  lemma CalledInv(s: State, t: Tid)
    requires Inv(s) && s.open && !Parked(s, t)
    ensures Inv(Called(s, t))
  {
    var u := Called(s, t);
    assert forall x :: Parked(u, x) == Parked(s, x);
  }

  lemma NextInv(s: State, step: Step)
    requires Inv(s) && Enabled(s, step)
    ensures Inv(Next(s, step))
  {
    match step
    case ThreadWork(t) => QueueThreadWorkInv(s, t);
    case DeferredWork(t) =>
      if t in s.threads {
        QuietEdit(s, t, s.threads[t].(queued := s.threads[t].queued + 1));
      }
    case ProcWork => QueueProcWorkInv(s);
    case Transaction(to) => TransactInv(s, to);
    case FlushAll(tids) => FlushInv(s, tids);
    case Signal(t) => InterruptInv(s, t);
    case StackChange(t, busy) =>
      if t in s.threads {
        QuietEdit(s, t, s.threads[t].(busy := busy));
      }
    case ThreadExit(t) => ThreadReleaseInv(s, t);
    case Close(tids) => ReleaseInv(s, tids);
    case SetNonblocking(on) => OwnFlags(s, on, s.pending);
    case Unlock => OwnFlags(s, s.nonblocking, 0);
    case OtherCall(t) => CalledInv(s, t);
    case BeginRead(t) => BeginInv(s, t);
    case BadRead(t) => FaultedInv(s, t);
    case LookForWork(t) => LookInv(s, t);
    case TakeWork(t) => ReadOneInv(s, t);
    case TryAgain(t) => InsideEdited(s, t, Reader(Available(s, t), false));
    case Return(t) => FinishInv(s, t);
  }

  const START := State(true, false, map[], 0, [], map[], map[], [], 0, {}, {})

  lemma StartInv()
    ensures Inv(START)
  {
    assert forall t :: Calls(START, t) == 0 && !Parked(START, t);
    assert NothingMissed(START) && WaitingParked(START) && Accounted(START);
  }

  /** The state after a run whose every step was enabled. */
  ghost function Exec(steps: seq<Step>): (r: Option<State>)
    ensures r.Some? ==> Inv(r.value)
  {
    if steps == [] then
      StartInv();
      Some(START)
    else
      var s, step := Exec(steps[..|steps| - 1]), steps[|steps| - 1];
      if s.None? || !Enabled(s.value, step) then None
      else
        NextInv(s.value, step);
        Some(Next(s.value, step))
  }

  /** No wake-up is lost: a thread stays parked only while nothing asks it to return, and a thread waits for
      process work only while there is none or another thread is on its way to it. */
  lemma NoLostWakeup(steps: seq<Step>, t: Tid)
    requires Exec(steps).Some?
    ensures var s := Exec(steps).value;
            && (Parked(s, t) ==> !s.threads[t].processTodo && !s.threads[t].needReturn && !s.threads[t].interrupted)
            && (t in s.waiting && s.inside == map[] && s.due == {} ==> s.todo == 0 && Parked(s, t))
  {
    var s := Exec(steps).value;
    if t in s.waiting {
      assert Parked(s, t);
    }
  }

  lemma NoTwiceCounts(q: seq<Resume>, r: Resume)
    requires NoTwice(q)
    ensures multiset(q)[r] <= 1
    decreases |q|
  {
    if q != [] {
      var rest := q[1..];
      assert q == [q[0]] + rest;
      NoTwiceCounts(rest, r);
      if r == q[0] {
        assert r !in rest;
      }
    }
  }

  /** Whatever wakes a parked read, its resume runs at most once; and every resume a thread ever brought is
      accounted for: still parked or inside, or released once, or gone with a read that returned. */
  lemma ResumedOnce(steps: seq<Step>, t: Tid, i: nat)
    requires Exec(steps).Some? && i < Calls(Exec(steps).value, t)
    ensures var s, r := Exec(steps).value, Resume(t, i);
            var held := i == Calls(s, t) - 1 && (t in s.inside || Parked(s, t));
            && multiset(s.released)[r] == (if held || r in s.returned then 0 else 1)
            && (held ==> r !in s.returned)
  {
    var s, r := Exec(steps).value, Resume(t, i);
    NoTwiceCounts(s.released, r);
    assert r in s.released <==> r in multiset(s.released);
    if !(i == Calls(s, t) - 1 && (t in s.inside || Parked(s, t))) {
      assert Settled(s, r);
    }
  }
}
