/** A run of the binder driver in which a thread that leaves loses a release: its owner is told to take a
    weak reference, the holder comes and goes again with a strong one, and the news of that is in the
    thread's queue when the thread leaves. */
module BinderLostRelease {
  import opened Common
  import opened BinderState
  import opened BinderInvariant
  import opened BinderNotices
  import opened BinderRuns

  const OWNER: ProcId := 1
  const HOLDER: ProcId := 2
  const NODE: NodeId := 3
  const PTR: nat := 7
  const THREAD: WorkList := ThreadList(1, 1)
  const TARGET: Option<(ProcId, Tid)> := Some((1, 1))

  /** The run's node. */
  function TheNode(strong: nat, local: nat, holders: set<ProcId>, hasWeak: bool, pending: bool,
      at: Option<WorkList>): Node {
    Node(Some(OWNER), 0, PTR, 0, strong, 0, local, holders, false, false, hasWeak, pending, at)
  }

  /** The driver with both processes, the node and at most one handle on it. */
  function With(n: Node, handle: Option<Ref>): State {
    State(map[0 := Context(None, None)], map[OWNER := Proc(0, 0), HOLDER := Proc(0, 0)], map[(OWNER, PTR) := NODE],
          if handle.Some? then map[(HOLDER, 1) := handle.value] else map[],
          if handle.Some? then map[(HOLDER, NODE) := 1] else map[],
          map[ProcList(OWNER) := [], ProcList(HOLDER) := [], THREAD := if n.workQueued == Some(THREAD)
              then [NodeWork(NODE)] else []],
          map[NODE := n], NODE)
  }

  /** A run gets from one state to the next. */
  ghost predicate Reaches(steps: seq<Step>, s: State) {
    Exec(steps).Some? && Exec(steps).value.state == s
  }

  lemma Goes(steps: seq<Step>, step: Step, s: State, t: State)
    requires Reaches(steps, s) && Enabled(s, step) && Next(s, step) == t
    ensures Reaches(steps + [step], t)
  {
    hide Exec, Enabled, Next, Inv, Known, Agreed;
    ExecMore(steps, step);
  }

  lemma Starts()
    ensures Reaches([], START.state)
  {
  }

  lemma Sets(n: Node, handle: Option<Ref>, m: Node)
    ensures SetNode(With(n, handle), NODE, m).nodes == With(m, handle).nodes
  {
  }

  /** Work on the empty queue of the thread. */
  lemma Queues(n: Node, handle: Option<Ref>)
    requires n.workQueued.None?
    ensures QueueNodeWork(With(n, handle), NODE, THREAD) == With(n.(workQueued := Some(THREAD)), handle)
  {
    var s := With(n, handle);
    Sets(n, handle, n.(workQueued := Some(THREAD)));
    assert s.queues[THREAD] == [];
    assert s.queues[THREAD] + [NodeWork(NODE)] == [NodeWork(NODE)];
    assert s.queues[THREAD := [NodeWork(NODE)]] == With(n.(workQueued := Some(THREAD)), handle).queues;
  }

  const FRESH := TheNode(0, 0, {}, false, false, None)
  const NAMED := TheNode(0, 0, {HOLDER}, false, false, Some(THREAD))
  const TOLD := TheNode(0, 1, {HOLDER}, true, true, None)
  const HELD := TheNode(0, 0, {HOLDER}, true, false, None)
  const STRONG := TheNode(1, 0, {HOLDER}, true, false, Some(THREAD))
  const WEAK := TheNode(0, 0, {HOLDER}, true, false, Some(THREAD))
  const LEFT := TheNode(0, 0, {}, true, false, Some(THREAD))

  const BEGINNING := [AddProc(0, 0), AddThread(OWNER, 1), AddProc(0, 0), AddNode(OWNER, PTR, 0)]

  lemma Begins()
    ensures Reaches(BEGINNING, With(FRESH, None))
  {
    hide Exec, Inv, Known, Agreed;
    var s1 := State(map[0 := Context(None, None)], map[1 := Proc(0, 0)], map[], map[], map[], map[ProcList(1) := []],
        map[], 1);
    var s2 := s1.(queues := map[ProcList(1) := [], THREAD := []]);
    var s3 := s2.(procs := map[1 := Proc(0, 0), 2 := Proc(0, 0)], nextId := 2,
                  queues := map[ProcList(1) := [], THREAD := [], ProcList(2) := []]);
    Starts();
    Goes([], AddProc(0, 0), START.state, s1);
    Goes([] + [AddProc(0, 0)], AddThread(1, 1), s1, s2);
    Goes([] + [AddProc(0, 0)] + [AddThread(1, 1)], AddProc(0, 0), s2, s3);
    Goes([] + [AddProc(0, 0)] + [AddThread(1, 1)] + [AddProc(0, 0)], AddNode(1, PTR, 0), s3, With(FRESH, None));
    assert BEGINNING == [] + [AddProc(0, 0)] + [AddThread(1, 1)] + [AddProc(0, 0)] + [AddNode(1, PTR, 0)];
  }

  // ---- the steps that follow ----

  const HAND_WEAK := Hand(HOLDER, NODE, false, TARGET, 1)
  const READ := Read(THREAD)
  const TAKEN := Acknowledge(OWNER, PTR, 0, false)
  const HAND_STRONG := Hand(HOLDER, NODE, true, TARGET, 2)
  const DROP_STRONG := UpdateRef(HOLDER, 1, false, true)
  const DROP_WEAK := UpdateRef(HOLDER, 1, false, false)

  lemma Hands(steps: seq<Step>)
    requires Reaches(steps, With(FRESH, None))
    ensures Reaches(steps + [HAND_WEAK], With(NAMED, Some(Ref(NODE, 0, 1))))
  {
    hide Exec, Inv, Known, Agreed;
    var s := With(FRESH, None);
    assert IsLowestFree(s, HOLDER, 1, 1);
    var a := AddRef(s, HOLDER, NODE, 1);
    Sets(FRESH, Some(Ref(NODE, 0, 0)), FRESH.(refs := {HOLDER}));
    assert s.refs[(HOLDER, 1) := Ref(NODE, 0, 0)] == map[(HOLDER, 1) := Ref(NODE, 0, 0)];
    assert s.handles[(HOLDER, NODE) := 1] == map[(HOLDER, NODE) := 1];
    assert FRESH.refs + {HOLDER} == {HOLDER};
    assert a == With(FRESH.(refs := {HOLDER}), Some(Ref(NODE, 0, 0)));
    Queues(FRESH.(refs := {HOLDER}), Some(Ref(NODE, 0, 0)));
    var n := IncNode(a, NODE, false, true, TARGET).value;
    assert n == With(NAMED, Some(Ref(NODE, 0, 0)));
    Goes(steps, HAND_WEAK, s, With(NAMED, Some(Ref(NODE, 0, 1))));
  }

  lemma Hears(steps: seq<Step>)
    requires Reaches(steps, With(NAMED, Some(Ref(NODE, 0, 1))))
    ensures Reaches(steps + [READ], With(TOLD, Some(Ref(NODE, 0, 1))))
  {
    hide Exec, Inv, Known, Agreed;
    var s, t := With(NAMED, Some(Ref(NODE, 0, 1))), With(TOLD, Some(Ref(NODE, 0, 1)));
    assert s.queues[THREAD] == [NodeWork(NODE)];
    assert s.queues[THREAD := []] == t.queues;
    assert Told(NAMED) == TOLD;
    assert ReadFront(s, THREAD).0 == t;
    Goes(steps, READ, s, t);
  }

  lemma Takes(steps: seq<Step>)
    requires Reaches(steps, With(TOLD, Some(Ref(NODE, 0, 1))))
    ensures Reaches(steps + [TAKEN], With(HELD, Some(Ref(NODE, 0, 1))))
  {
    hide Exec, Inv, Known, Agreed;
    Goes(steps, TAKEN, With(TOLD, Some(Ref(NODE, 0, 1))), With(HELD, Some(Ref(NODE, 0, 1))));
  }

  lemma HandsStrong(steps: seq<Step>)
    requires Reaches(steps, With(HELD, Some(Ref(NODE, 0, 1))))
    ensures Reaches(steps + [HAND_STRONG], With(STRONG, Some(Ref(NODE, 1, 1))))
  {
    hide Exec, Inv, Known, Agreed;
    var s, r := With(HELD, Some(Ref(NODE, 0, 1))), Some(Ref(NODE, 0, 1));
    assert IsLowestFree(s, HOLDER, 1, 2) by {
      assert (HOLDER, 1) in s.refs;
    }
    var t := With(HELD.(internalStrong := 1), r);
    assert SetNode(s, NODE, HELD.(internalStrong := 1)) == t && DequeueNodeWork(t, NODE) == t;
    Queues(HELD.(internalStrong := 1), r);
    assert IncNode(s, NODE, true, true, TARGET).value == With(STRONG, r);
    Goes(steps, HAND_STRONG, s, With(STRONG, Some(Ref(NODE, 1, 1))));
  }

  lemma Drops(steps: seq<Step>)
    requires Reaches(steps, With(STRONG, Some(Ref(NODE, 1, 1))))
    ensures Reaches(steps + [DROP_STRONG], With(WEAK, Some(Ref(NODE, 0, 1))))
  {
    hide Exec, Inv, Known, Agreed;
    var s := With(STRONG, Some(Ref(NODE, 1, 1)));
    var t := s.(refs := s.refs[(HOLDER, 1) := Ref(NODE, 0, 1)]);
    assert t == With(STRONG, Some(Ref(NODE, 0, 1)));
    assert DecNode(t, NODE, true, true) == With(WEAK, Some(Ref(NODE, 0, 1)));
    Goes(steps, DROP_STRONG, s, With(WEAK, Some(Ref(NODE, 0, 1))));
  }

  lemma DropsLast(steps: seq<Step>)
    requires Reaches(steps, With(WEAK, Some(Ref(NODE, 0, 1))))
    ensures Reaches(steps + [DROP_WEAK], With(LEFT, None))
  {
    hide Exec, Inv, Known, Agreed;
    var s := With(WEAK, Some(Ref(NODE, 0, 1)));
    var t := s.(refs := s.refs[(HOLDER, 1) := Ref(NODE, 0, 0)]);
    assert t == With(WEAK, Some(Ref(NODE, 0, 0)));
    assert WEAK.refs - {HOLDER} == {};
    assert t.refs - {(HOLDER, 1)} == map[] && t.handles - {(HOLDER, NODE)} == map[];
    assert Detached(t, HOLDER, 1) == With(LEFT, None);
    assert CleanupRef(t, HOLDER, 1) == With(LEFT, None);
    Goes(steps, DROP_WEAK, s, With(LEFT, None));
  }

  /** A run that has lost nothing until a thread leaves, and then has. */
  lemma ThreadExitCanLose() returns (steps: seq<Step>)
    ensures Exec(steps).Some? && Lossless(Exec(steps).value.state)
    ensures Exec(steps + [ThreadExit(OWNER, 1)]).Some? && !Lossless(Exec(steps + [ThreadExit(OWNER, 1)]).value.state)
  {
    hide Exec, Inv, Known, Agreed, Next, Enabled;
    Begins();
    Hands(BEGINNING);
    var hear := BEGINNING + [HAND_WEAK];
    Hears(hear);
    Takes(hear + [READ]);
    var hand := hear + [READ] + [TAKEN];
    HandsStrong(hand);
    Drops(hand + [HAND_STRONG]);
    steps := hand + [HAND_STRONG] + [DROP_STRONG];
    DropsLast(steps);
    steps := steps + [DROP_WEAK];
    Leaves(steps);
  }

  lemma Leaves(steps: seq<Step>)
    requires Reaches(steps, With(LEFT, None))
    ensures Lossless(With(LEFT, None)) && Exec(steps + [ThreadExit(OWNER, 1)]).Some?
    ensures !Lossless(Exec(steps + [ThreadExit(OWNER, 1)]).value.state)
  {
    hide Exec, Inv, Known, Agreed, Next;
    var s, step := With(LEFT, None), ThreadExit(OWNER, 1);
    ExecMore(steps, step);
    assert NODE in s.nodes && s.nodes[NODE].workQueued == Some(THREAD);
    assert !Settled(s.nodes[NODE]);
    NextHeard(s, step);
  }
}
